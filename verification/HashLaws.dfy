/** What the hash commands do, told by their replies alone. */
module HashLaws {
  import opened Octets
  import opened Keyspace
  import opened Databases
  import opened Commands
  import opened ListLaws
  import R = Resp

  predicate HashOrMissing(c: Cell) { c.Some? ==> c.value.kind == HashT }

  /** What HGET replies for a field: an empty value reads as null. */
  function Field(c: Cell, f: Bytes): R.Wire { ApplyCell(c, HGet([], f), 0).reply }

  function AsReply(v: Bytes): R.Wire { if v == [] then R.NullBulk else R.Bulk(v) }

  lemma UnfoldHash(c: Cell, op: Op, now: int)
    requires FamilyOf(op).HashFamily?
    ensures ApplyCell(c, op, now) == ApplyHash(c, op, now)
  {
    hide ApplyHash;
  }

  lemma FieldMeans(c: Cell, f: Bytes)
    ensures Field(c, f) == AsReply(if f in HashAt(c) then HashAt(c)[f] else [])
    ensures forall k, now :: ApplyCell(c, HGet(k, f), now).reply == Field(c, f)
  {
    forall k: Bytes, now: int
      ensures ApplyCell(c, HGet(k, f), now).reply == AsReply(if f in HashAt(c) then HashAt(c)[f] else [])
    {
      UnfoldHash(c, HGet(k, f), now);
    }
  }

  // ----- Writing -----

  lemma HSetMeans(c: Cell, k: Bytes, pairs: seq<(Bytes, Bytes)>, now: int)
    requires HashOrMissing(c) && pairs != []
    ensures var x := ApplyCell(c, HSet(k, pairs, false), now);
            && HashAt(x.cell) == HashAfter(HashAt(c), pairs) && x.reply == R.Number(|pairs|) && HashOrMissing(x.cell)
  {
    hide HashAfter, Err, WriteFields;
    UnfoldHash(c, HSet(k, pairs, false), now);
    WriteFieldsValue(c, pairs);
  }

  /** HSET of one pair: the field has the value, every other field is as before. */
  lemma HSetLaw(c: Cell, k: Bytes, f: Bytes, v: Bytes, now: int)
    requires HashOrMissing(c)
    ensures var x := ApplyCell(c, HSet(k, [(f, v)], false), now);
            && x.reply == R.Number(1) && Field(x.cell, f) == AsReply(v)
            && forall g :: g != f ==> Field(x.cell, g) == Field(c, g)
  {
    hide ApplyCell, Field, AsReply;
    var ps := [(f, v)];
    HSetMeans(c, k, ps, now);
    assert ps[1..] == [];
    var d := ApplyCell(c, HSet(k, ps, false), now).cell;
    assert HashAt(d) == HashAt(c)[f := v];
    FieldMeans(d, f);
    forall g: Bytes | g != f
      ensures Field(d, g) == Field(c, g)
    {
      FieldMeans(c, g);
      FieldMeans(d, g);
    }
  }

  /** A batch HSET equals setting its pairs one at a time, and counts the pairs. */
  lemma BatchHSetIsOneByOne(c: Cell, k: Bytes, ps: seq<(Bytes, Bytes)>, p: (Bytes, Bytes), now: int, g: Bytes)
    requires HashOrMissing(c) && ps != []
    ensures var one := ApplyCell(ApplyCell(c, HSet(k, ps, false), now).cell, HSet(k, [p], false), now);
            var all := ApplyCell(c, HSet(k, ps + [p], false), now);
            && Field(one.cell, g) == Field(all.cell, g) && all.reply == R.Number(|ps| + 1)
  {
    hide ApplyCell, Field, HashAfter, HashOrMissing, AsReply;
    HSetMeans(c, k, ps, now);
    var d := ApplyCell(c, HSet(k, ps, false), now).cell;
    HSetMeans(d, k, [p], now);
    HSetMeans(c, k, ps + [p], now);
    AfterAppend(HashAt(c), ps, [p]);
    FieldMeans(ApplyCell(d, HSet(k, [p], false), now).cell, g);
    FieldMeans(ApplyCell(c, HSet(k, ps + [p], false), now).cell, g);
  }

  lemma {:induction false} AfterAppend(h: map<Bytes, Bytes>, x: seq<(Bytes, Bytes)>, y: seq<(Bytes, Bytes)>)
    ensures HashAfter(h, x + y) == HashAfter(HashAfter(h, x), y)
    decreases |x|
  {
    if x == [] {
      assert x + y == y;
    } else {
      assert (x + y)[0] == x[0] && (x + y)[1..] == x[1..] + y;
      AfterAppend(h[x[0].0 := x[0].1], x[1..], y);
    }
  }

  lemma HDelMeans(c: Cell, k: Bytes, fs: seq<Bytes>, now: int)
    requires fs != []
    ensures var x, h, t := ApplyCell(c, HDel(k, fs), now), HashAt(c), ToSet(fs);
            HashAt(x.cell) == h - t && x.reply == R.Number(if |h - t| < |h| then 1 else 0)
  {
    hide Err, ToSet;
    UnfoldHash(c, HDel(k, fs), now);
  }

  /** HDEL: the fields given are gone, every other field is as before, and the reply tells whether
      one of them was there. */
  lemma HDelLaw(db: Store, k: Bytes, fs: seq<Bytes>, mo: Moment, now: int)
    requires fs != []
    ensures var c, x := Look(db, k), ApplyCell(Look(db, k), HDel(k, fs), now);
            var names := Texts(Answer(db, HKeys(k), mo));
            && (forall g :: Field(x.cell, g) == if g in fs then R.NullBulk else Field(c, g))
            && x.reply == R.Number(if exists f :: f in fs && f in names then 1 else 0)
  {
    hide ApplyCell, Field, Bulks, AsReply, Texts, HashAt, Look, ToSet, Listing;
    var c, x := Look(db, k), ApplyCell(Look(db, k), HDel(k, fs), now);
    var h := HashAt(c);
    var names := mo.order(h.Keys);
    HDelMeans(c, k, fs, now);
    TextsOfBulks(names);
    Shrinks(h, ToSet(fs));
    forall f: Bytes
      ensures f in ToSet(fs) <==> f in fs
      ensures f in names <==> f in h
    {
      Listed(names, h.Keys, f);
      InFields(fs, f);
    }
    forall g: Bytes
      ensures Field(x.cell, g) == if g in fs then R.NullBulk else Field(c, g)
    {
      FieldMeans(c, g);
      FieldMeans(x.cell, g);
      NothingReads();
    }
  }

  lemma NothingReads()
    ensures AsReply([]) == R.NullBulk
  {
  }

  lemma InFields(fs: seq<Bytes>, f: Bytes)
    ensures f in ToSet(fs) <==> f in fs
  {
  }

  lemma Listed(items: seq<Bytes>, s: set<Bytes>, f: Bytes)
    requires Listing(items, s)
    ensures f in items <==> f in s
  {
    InFields(items, f);
  }

  lemma Shrinks(h: map<Bytes, Bytes>, t: set<Bytes>)
    ensures |h - t| < |h| <==> exists f :: f in t && f in h
  {
    assert (h - t).Keys == h.Keys - t;
    assert h.Keys == (h.Keys - t) + (h.Keys * t);
    assert |h.Keys| == |h.Keys - t| + |h.Keys * t|;
    if exists f :: f in t && f in h {
      var f :| f in t && f in h;
      assert f in h.Keys * t;
    } else {
      assert h.Keys * t == {};
    }
  }

  // ----- Listing -----

  lemma {:induction false} Interleaved(h: map<Bytes, Bytes>, fs: seq<Bytes>)
    requires forall i :: 0 <= i < |fs| ==> fs[i] in h
    ensures |ValuesOf(h, fs)| == |fs| && |FieldsAndValues(h, fs)| == 2 * |fs|
    ensures forall i :: 0 <= i < |fs| ==> ValuesOf(h, fs)[i] == h[fs[i]]
    ensures forall i :: 0 <= i < |fs| ==> FieldsAndValues(h, fs)[2 * i] == fs[i] && FieldsAndValues(h, fs)[2 * i + 1] == h[fs[i]]
  {
    if fs != [] {
      var rest := fs[1..];
      Interleaved(h, rest);
      assert FieldsAndValues(h, fs) == [fs[0], h[fs[0]]] + FieldsAndValues(h, rest);
      forall i | 0 <= i < |fs|
        ensures ValuesOf(h, fs)[i] == h[fs[i]]
        ensures FieldsAndValues(h, fs)[2 * i] == fs[i] && FieldsAndValues(h, fs)[2 * i + 1] == h[fs[i]]
      {
        if i > 0 {
          assert fs[i] == rest[i - 1];
          assert FieldsAndValues(h, fs)[2 * i] == FieldsAndValues(h, rest)[2 * (i - 1)];
        }
      }
    }
  }

  /** HKEYS lists the fields, each once; HVALS their values in the same order; HGETALL both,
      field before value; HLEN counts the fields; and HGET finds exactly those values. */
  lemma HashListingLaw(db: Store, k: Bytes, mo: Moment, now: int)
    ensures var names, values := Texts(Answer(db, HKeys(k), mo)), Texts(Answer(db, HVals(k), mo));
            var all, c := Texts(Answer(db, HGetAll(k), mo)), Look(db, k);
            && NoDuplicates(names) && |values| == |names| && |all| == 2 * |names|
            && (forall i :: 0 <= i < |names| ==>
                  all[2 * i] == names[i] && all[2 * i + 1] == values[i] && Field(c, names[i]) == AsReply(values[i]))
            && (forall f :: f !in names ==> Field(c, f) == R.NullBulk)
            && ApplyCell(c, HLen(k), now).reply == R.Number(|names|)
  {
    hide ApplyCell, Bulks, Field, Texts, ValuesOf, FieldsAndValues;
    var c := Look(db, k);
    var h := HashAt(c);
    var names := mo.order(h.Keys);
    TextsOfBulks(names);
    TextsOfBulks(ValuesOf(h, names));
    TextsOfBulks(FieldsAndValues(h, names));
    ListedIn(names, h.Keys);
    ListingSize(names, h.Keys);
    Interleaved(h, names);
    LengthMeans(c, k, now);
    forall f: Bytes
      ensures Field(c, f) == AsReply(if f in h then h[f] else [])
      ensures f in names <==> f in h
    {
      FieldMeans(c, f);
      Listed(names, h.Keys, f);
    }
  }

  lemma LengthMeans(c: Cell, k: Bytes, now: int)
    ensures ApplyCell(c, HLen(k), now).reply == R.Number(|HashAt(c)|)
  {
    UnfoldHash(c, HLen(k), now);
  }
}
