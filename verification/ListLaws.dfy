/** What the list commands do, told by their replies alone. */
module ListLaws {
  import opened Octets
  import opened Keyspace
  import opened Commands
  import Ranges
  import R = Resp

  // ----- Reading replies -----

  /** The strings of an array reply. */
  function Texts(w: R.Wire): (r: seq<Bytes>)
    ensures w.Multi? ==> |r| == |w.elems|
  {
    if w.Multi? then
      seq(|w.elems|, i requires 0 <= i < |w.elems| => if w.elems[i].Bulk? then w.elems[i].text else [])
    else []
  }

  lemma TextsOfBulks(items: seq<Bytes>)
    ensures Texts(Bulks(items)) == items
  {
    var ws := Bulks(items).elems;
    assert forall i :: 0 <= i < |ws| ==> ws[i] == R.Bulk(items[i]);
  }

  /** The whole list, as LRANGE 0 -1 replies it. */
  function Items(c: Cell): seq<Bytes> { Texts(ApplyCell(c, LRange([], 0, -1), 0).reply) }

  predicate Small(c: Cell, n: nat) { |Value(c).list| + n < TWO_31 }

  predicate ListOrMissing(c: Cell) { c.Some? ==> c.value.kind == ListT }

  lemma Unfold(c: Cell, op: Op, now: int)
    requires FamilyOf(op).ListFamily?
    ensures ApplyCell(c, op, now) == ApplyList(c, op, now)
  {
    hide ApplyList;
  }

  lemma ItemsAre(c: Cell)
    requires Small(c, 0)
    ensures Items(c) == ListAt(c)
  {
    hide Bulks, Ranges.Slice;
    var l, op := ListAt(c), LRange([], 0, -1);
    Unfold(c, op, 0);
    Ranges.SliceIsClamp(l, 0, -1);
    assert l[0..|l|] == l;
    TextsOfBulks(Ranges.Slice(l, 0, -1));
  }

  // ----- Pushing -----

  /** RPUSH puts the items behind the list in order and replies the new length. */
  lemma RPushLaw(c: Cell, k: Bytes, xs: seq<Bytes>, now: int)
    requires ListOrMissing(c) && xs != [] && Small(c, |xs|)
    ensures var x := ApplyCell(c, RPush(k, xs), now);
            && Items(x.cell) == Items(c) + xs && x.reply == R.Number(|Items(c)| + |xs|)
            && ListOrMissing(x.cell) && x.cell.Some?
  {
    hide Items, Err;
    Unfold(c, RPush(k, xs), now);
    ItemsAre(c);
    ItemsAre(ApplyCell(c, RPush(k, xs), now).cell);
  }

  /** LPUSH of one item puts it in front; a batch goes in one by one. */
  lemma LPushLaw(c: Cell, k: Bytes, xs: seq<Bytes>, now: int)
    requires ListOrMissing(c) && xs != [] && Small(c, |xs|)
    ensures var x := ApplyCell(c, LPush(k, xs), now);
            && |Items(x.cell)| == |xs| + |Items(c)| && x.reply == R.Number(|xs| + |Items(c)|)
            && (forall i :: 0 <= i < |xs| ==> Items(x.cell)[|xs| - 1 - i] == xs[i])
            && Items(x.cell)[|xs|..] == Items(c)
            && ListOrMissing(x.cell) && x.cell.Some?
  {
    hide Items, Err;
    Unfold(c, LPush(k, xs), now);
    ItemsAre(c);
    ItemsAre(ApplyCell(c, LPush(k, xs), now).cell);
  }

  /** A batch RPUSH equals pushing its items one at a time, up to the counter. */
  lemma BatchRPushIsOneByOne(c: Cell, k: Bytes, xs: seq<Bytes>, y: Bytes, now: int)
    requires ListOrMissing(c) && xs != [] && Small(c, |xs| + 1)
    ensures var one := ApplyCell(ApplyCell(c, RPush(k, xs), now).cell, RPush(k, [y]), now);
            var all := ApplyCell(c, RPush(k, xs + [y]), now);
            Items(one.cell) == Items(all.cell) && one.reply == all.reply
  {
    hide Items, ApplyCell;
    PushSizes(c, k, xs, now);
    RPushLaw(c, k, xs, now);
    RPushLaw(ApplyCell(c, RPush(k, xs), now).cell, k, [y], now);
    RPushLaw(c, k, xs + [y], now);
    assert Items(c) + (xs + [y]) == Items(c) + xs + [y];
  }

  lemma PushSizes(c: Cell, k: Bytes, xs: seq<Bytes>, now: int)
    requires xs != []
    ensures |Value(ApplyCell(c, RPush(k, xs), now).cell).list| == |Value(c).list| + |xs|
    ensures |Value(ApplyCell(c, LPush(k, xs), now).cell).list| == |Value(c).list| + |xs|
  {
    hide Err;
    Unfold(c, RPush(k, xs), now);
    Unfold(c, LPush(k, xs), now);
  }

  // ----- Popping -----

  /** LPOP takes the first item and RPOP the last. An empty item of an expired key is not seen. */
  lemma PopLaw(c: Cell, k: Bytes, now: int)
    requires Is(c, ListT) && Small(c, 0) && Items(c) != []
    ensures var l, x := Items(c), ApplyCell(c, LPop(k), now);
            l[0] != [] || !Dead(c, now) ==> x.reply == R.Bulk(l[0]) && Items(x.cell) == l[1..]
    ensures var l, x := Items(c), ApplyCell(c, RPop(k), now);
            l[|l| - 1] != [] || !Dead(c, now) ==> x.reply == R.Bulk(l[|l| - 1]) && Items(x.cell) == l[..|l| - 1]
  {
    hide Items;
    ItemsAre(c);
    var x, y := ApplyCell(c, LPop(k), now).cell, ApplyCell(c, RPop(k), now).cell;
    Unfold(c, LPop(k), now);
    Unfold(c, RPop(k), now);
    var l := c.value.list;
    ItemsAre(Some(c.value.(list := l[1..], modCount := c.value.modCount + 1)));
    ItemsAre(Some(c.value.(list := l[..|l| - 1], modCount := c.value.modCount + 1)));
  }

  /** With no item to take, the reply tells only whether the key is there. */
  lemma NothingToPop(c: Cell, k: Bytes, now: int)
    requires Small(c, 0) && Items(c) == []
    ensures var r := if c.Some? && !Dead(c, now) then R.Bulk([]) else R.NullBulk;
            ApplyCell(c, LPop(k), now).reply == r && ApplyCell(c, RPop(k), now).reply == r
  {
    hide Items;
    ItemsAre(c);
    Unfold(c, LPop(k), now);
    Unfold(c, RPop(k), now);
  }

  /** Stacks: what was pushed at an end is what comes off it, and the list is as before. */
  lemma StackLaw(c: Cell, k: Bytes, x: Bytes, now: int, later: int)
    requires ListOrMissing(c) && Small(c, 1) && x != []
    ensures var y := ApplyCell(ApplyCell(c, LPush(k, [x]), now).cell, LPop(k), later);
            y.reply == R.Bulk(x) && Items(y.cell) == Items(c)
    ensures var y := ApplyCell(ApplyCell(c, RPush(k, [x]), now).cell, RPop(k), later);
            y.reply == R.Bulk(x) && Items(y.cell) == Items(c)
  {
    hide Items, ApplyCell;
    PushSizes(c, k, [x], now);
    LPushLaw(c, k, [x], now);
    RPushLaw(c, k, [x], now);
    var a, b := ApplyCell(c, LPush(k, [x]), now).cell, ApplyCell(c, RPush(k, [x]), now).cell;
    PopLaw(a, k, later);
    PopLaw(b, k, later);
    assert Items(a)[0] == x && Items(a)[1..] == Items(c);
    assert (Items(c) + [x])[..|Items(c)|] == Items(c);
  }

  // ----- Reading -----

  /** LRANGE selects between the clamped ends; LLEN counts. */
  lemma ReadLaw(c: Cell, k: Bytes, i: int, j: int, now: int)
    requires Small(c, 0) && Ranges.InInt32(i) && Ranges.InInt32(j)
    ensures var l := Items(c);
            var lo, hi := if i < 0 then |l| + i else i, if j < 0 then |l| + j else j;
            var from, to := if lo < 0 then 0 else lo, if hi > |l| - 1 then |l| - 1 else hi;
            ApplyCell(c, LRange(k, i, j), now).reply == Bulks(if from <= to then l[from..to + 1] else [])
    ensures !Dead(c, now) ==> ApplyCell(c, LLen(k), now).reply == R.Number(|Items(c)|)
  {
    hide Items, Bulks, Ranges.Slice;
    ItemsAre(c);
    Unfold(c, LRange(k, i, j), now);
    Unfold(c, LLen(k), now);
    Ranges.SliceIsClamp(ListAt(c), i, j);
  }

  /** LINDEX i replies the i-th item of LRANGE 0 -1, counted from the end if negative; an empty
      item and a missing one read as null. */
  lemma IndexLaw(c: Cell, k: Bytes, i: int, now: int)
    requires Small(c, 0) && Ranges.InInt32(i)
    ensures var l := Items(c);
            var p := if i < 0 then |l| + i else i;
            var found := 0 <= p < |l| && l[p] != [];
            ApplyCell(c, LIndex(k, i), now).reply == (if found then R.Bulk(l[p]) else R.NullBulk)
  {
    hide Items;
    ItemsAre(c);
    Unfold(c, LIndex(k, i), now);
    Ranges.ResolveIsExact(|ListAt(c)|, i);
  }

  /** A missing key, and a key of another type, show no items. */
  lemma NoList(c: Cell)
    requires Small(c, 0) && !Is(c, ListT)
    ensures Items(c) == []
  {
    hide Items;
    ItemsAre(c);
  }
}
