/** Whether the server ever brings back its own snapshot file: never. The argument weighs bytes.
    What a load can account for at the keys of a database weighs no more than the bytes it read,
    and the file read from inside its first record weighs less than the database written. */
module SnapshotRecovery {
  import opened Octets
  import opened SortedSets
  import opened Keyspace
  import opened Commands
  import opened Snapshots
  import opened SnapshotCodec
  import opened SnapshotRoundTrip
  import opened SnapshotCuts
  import opened SnapshotLoads

  // ----- Weights -----

  /** Every byte weighs 10, the end marker 9. */
  function Weight(s: Bytes): (w: nat)
    ensures 9 * |s| <= w <= 10 * |s|
  {
    if s == [] then 0 else (if s[0] == END_OF_FILE then 9 else 10) + Weight(s[1..])
  }

  lemma {:induction false} WeightAppend(s: Bytes, t: Bytes)
    ensures Weight(s + t) == Weight(s) + Weight(t)
  {
    if s == [] {
      assert s + t == t;
    } else {
      assert (s + t)[1..] == s[1..] + t;
      WeightAppend(s[1..], t);
    }
  }

  lemma WeightOne(x: byte)
    ensures Weight([x]) == if x == END_OF_FILE then 9 else 10
  {
    var s: Bytes := [x];
    assert s[1..] == [];
  }

  lemma WeightSplit(b: Bytes, i: nat, j: nat, k: nat)
    requires i <= j <= k <= |b|
    ensures Weight(b[i..k]) == Weight(b[i..j]) + Weight(b[j..k])
  {
    assert b[i..k] == b[i..j] + b[j..k];
    WeightAppend(b[i..j], b[j..k]);
  }

  // ----- What a read string or number weighs -----

  lemma {:induction false} LittleEndianIsInverse(s: Bytes)
    ensures FromLittleEndian(s) < Pow256(|s|) && LittleEndian(FromLittleEndian(s), |s|) == s
  {
    if s != [] {
      LittleEndianIsInverse(s[1..]);
      assert s == [s[0]] + s[1..];
    }
  }

  lemma NumberWeighs(b: Bytes, pos: nat, w: nat)
    requires pos <= |b| && ReadNumber(b, pos, w).Got?
    ensures var r := ReadNumber(b, pos, w);
            && r.value < Pow256(w) && Weight(LittleEndian(r.value, w)) == Weight(b[pos..r.next])
  {
    LittleEndianIsInverse(b[pos..pos + w]);
  }

  lemma LengthWeighs(b: Bytes, pos: nat)
    requires pos <= |b| && ReadLength(b, pos).Got?
    ensures var r := ReadLength(b, pos);
            r.value < TWO_32 && Weight(LengthCode(r.value)) <= Weight(b[pos..r.next])
  {
    hide ReadNumber, LittleEndian;
    var r := ReadLength(b, pos);
    WeightSplit(b, pos, pos + 1, r.next);
    assert b[pos..pos + 1] == [b[pos]];
    WeightOne(b[pos]);
    if b[pos] >= 64 {
      NumberWeighs(b, pos + 1, 4);
      Widths();
      WeightOne(0x80);
      WeightAppend([0x80], LittleEndian(r.value, 4));
      if r.value < 64 {
        WeightOne(r.value);
      }
    }
  }

  /** However its length is coded, a string that was read weighs at least what it weighs as
      written. */
  lemma StringWeighs(b: Bytes, pos: nat)
    requires pos <= |b| && ReadString(b, pos).Got?
    ensures var r := ReadString(b, pos);
            Weight(WriteString(r.value)) <= Weight(b[pos..r.next])
  {
    hide ReadLength, WriteString, LengthCode;
    var r, mid := ReadString(b, pos), ReadLength(b, pos).next;
    LengthWeighs(b, pos);
    StringForm(r.value);
    WeightAppend(LengthCode(|r.value|), r.value);
    WeightSplit(b, pos, mid, r.next);
  }

  lemma StringIsHeavy(s: Bytes)
    ensures Weight(WriteString(s)) >= 10
  {
    hide LittleEndian;
    var n := |s| % TWO_32;
    WeightAppend(LengthCode(n), s[..n]);
    if n < 64 {
      WeightOne(n);
    } else {
      WeightOne(0x80);
      WeightAppend([0x80], LittleEndian(n, 4));
    }
  }

  // ----- Containers as named parts -----

  // A container as the bytes that follow each name: nothing behind a set member, the score
  // behind a sorted-set member, the value behind a hash field.

  function SetParts(s: set<Bytes>): map<Bytes, Bytes> { map m | m in s :: [] }

  function ScoreParts(scores: map<Bytes, Score>): map<Bytes, Bytes> {
    map m | m in scores :: LittleEndian(scores[m], 8)
  }

  function HashParts(h: map<Bytes, Bytes>): map<Bytes, Bytes> { map f | f in h :: WriteString(h[f]) }

  function Parts(v: RedisValue, kind: RedisType): map<Bytes, Bytes> {
    match kind
    case SetT => SetParts(v.members)
    case ZSetT => ScoreParts(v.zset.scores)
    case HashT => HashParts(v.hash)
    case _ => map[]
  }

  function Spell(ps: seq<(Bytes, Bytes)>): Bytes {
    if ps == [] then [] else (WriteString(ps[0].0) + ps[0].1) + Spell(ps[1..])
  }

  function MemberParts(items: seq<Bytes>): (ps: seq<(Bytes, Bytes)>)
    ensures |ps| == |items|
  {
    seq(|items|, i requires 0 <= i < |items| => (items[i], []))
  }

  function ScoredParts(z: seq<Entry>): (ps: seq<(Bytes, Bytes)>)
    ensures |ps| == |z|
  {
    seq(|z|, i requires 0 <= i < |z| => (z[i].1, LittleEndian(z[i].0, 8)))
  }

  function FieldParts(fs: seq<(Bytes, Bytes)>): (ps: seq<(Bytes, Bytes)>)
    ensures |ps| == |fs|
  {
    seq(|fs|, i requires 0 <= i < |fs| => (fs[i].0, WriteString(fs[i].1)))
  }

  lemma {:induction false} SpellMembers(items: seq<Bytes>)
    ensures Spell(MemberParts(items)) == WriteStrings(items)
  {
    hide WriteString;
    if items != [] {
      SpellMembers(items[1..]);
      assert MemberParts(items)[1..] == MemberParts(items[1..]);
      assert WriteString(items[0]) + [] == WriteString(items[0]);
    }
  }

  lemma {:induction false} SpellScored(z: seq<Entry>)
    ensures Spell(ScoredParts(z)) == WriteScored(z)
  {
    hide WriteString, LittleEndian;
    if z != [] {
      SpellScored(z[1..]);
      assert ScoredParts(z)[1..] == ScoredParts(z[1..]);
    }
  }

  lemma {:induction false} SpellFields(fs: seq<(Bytes, Bytes)>)
    ensures Spell(FieldParts(fs)) == WritePairs(fs)
  {
    hide WriteString;
    if fs != [] {
      SpellFields(fs[1..]);
      assert FieldParts(fs)[1..] == FieldParts(fs[1..]);
    }
  }

  /** Adding to a container writes its parts one by one. */
  lemma {:induction false} MembersAsParts(s: set<Bytes>, items: seq<Bytes>)
    ensures SetParts(s + ToSet(items)) == HashAfter(SetParts(s), MemberParts(items))
    decreases |items|
  {
    if items == [] {
      assert s + ToSet(items) == s;
    } else {
      var t := s + {items[0]};
      MembersAsParts(t, items[1..]);
      assert MemberParts(items)[1..] == MemberParts(items[1..]);
      assert SetParts(t) == SetParts(s)[items[0] := []];
      assert s + ToSet(items) == t + ToSet(items[1..]);
    }
  }

  lemma ScoreAsPart(scores: map<Bytes, Score>, e: Entry)
    ensures ScoreParts(scores[e.1 := e.0]) == ScoreParts(scores)[e.1 := LittleEndian(e.0, 8)]
  {
    hide LittleEndian;
  }

  lemma {:induction false} ScoresAsParts(ix: Index, es: seq<Entry>)
    ensures ScoreParts(AddAll(ix, es).scores) == HashAfter(ScoreParts(ix.scores), ScoredParts(es))
    decreases |es|
  {
    hide LittleEndian, Insert, Without;
    if es != [] {
      var e, rest := es[0], es[1..];
      ScoresAsParts(Add(ix, e), rest);
      assert ScoredParts(es)[1..] == ScoredParts(rest);
      ScoreAsPart(ix.scores, e);
      hide ScoreParts;
    }
  }

  lemma {:induction false} FieldsAsParts(h: map<Bytes, Bytes>, fs: seq<(Bytes, Bytes)>)
    ensures HashParts(HashAfter(h, fs)) == HashAfter(HashParts(h), FieldParts(fs))
    decreases |fs|
  {
    hide WriteString;
    if fs != [] {
      var f := fs[0];
      FieldsAsParts(h[f.0 := f.1], fs[1..]);
      assert FieldParts(fs)[1..] == FieldParts(fs[1..]);
      assert HashParts(h[f.0 := f.1]) == HashParts(h)[f.0 := WriteString(f.1)];
    }
  }

  // ----- How much of a listing is there -----

  /** The weight of the listed names that are present, with what follows them. */
  function Cover(order: seq<Bytes>, h: map<Bytes, Bytes>): nat {
    if order == [] then 0
    else (if order[0] in h then Weight(WriteString(order[0])) + Weight(h[order[0]]) else 0) + Cover(order[1..], h)
  }

  lemma {:induction false} CoverOther(order: seq<Bytes>, h: map<Bytes, Bytes>, f: Bytes, p: Bytes)
    requires f !in order
    ensures Cover(order, h[f := p]) == Cover(order, h)
  {
    hide WriteString, Weight;
    if order != [] {
      CoverOther(order[1..], h, f, p);
    }
  }

  /** One more part covers no more than it weighs, and 10 less if its name was there before. */
  lemma {:induction false} CoverOne(order: seq<Bytes>, h: map<Bytes, Bytes>, f: Bytes, p: Bytes)
    requires NoDuplicates(order)
    ensures Cover(order, h[f := p]) + (if f in h then 10 else 0)
         <= Cover(order, h) + Weight(WriteString(f)) + Weight(p)
  {
    hide WriteString, Weight;
    StringIsHeavy(f);
    if order != [] {
      if order[0] == f {
        CoverOther(order[1..], h, f, p);
      } else {
        CoverOne(order[1..], h, f, p);
      }
    }
  }

  lemma {:induction false} CoverAll(order: seq<Bytes>, h: map<Bytes, Bytes>, ps: seq<(Bytes, Bytes)>)
    requires NoDuplicates(order)
    ensures var g := HashAfter(h, ps);
            && |g| <= |h| + |ps|
            && Cover(order, g) + 10 * (|h| + |ps| - |g|) <= Cover(order, h) + Weight(Spell(ps))
    decreases |ps|
  {
    hide WriteString, Weight, Cover, NoDuplicates;
    if ps != [] {
      var f, p := ps[0].0, ps[0].1;
      CoverOne(order, h, f, p);
      CoverAll(order, h[f := p], ps[1..]);
      WeightAppend(WriteString(f) + p, Spell(ps[1..]));
      WeightAppend(WriteString(f), p);
      GrowsByOne(h, f, p);
    }
  }

  lemma GrowsByOne(h: map<Bytes, Bytes>, f: Bytes, p: Bytes)
    ensures |h[f := p]| == |h| + if f in h then 0 else 1
  {
    assert h[f := p].Keys == h.Keys + {f};
  }

  /** A listing that is all there covers what it spells. */
  lemma {:induction false} CoverWhole(order: seq<Bytes>, h: map<Bytes, Bytes>, ps: seq<(Bytes, Bytes)>)
    requires |ps| == |order|
    requires forall i :: 0 <= i < |ps| ==> ps[i].0 == order[i] && order[i] in h && h[order[i]] == ps[i].1
    ensures Cover(order, h) == Weight(Spell(ps))
  {
    hide WriteString, Weight;
    if order != [] {
      CoverWhole(order[1..], h, ps[1..]);
      WeightAppend(WriteString(ps[0].0) + ps[0].1, Spell(ps[1..]));
      WeightAppend(WriteString(ps[0].0), ps[0].1);
    } else {
      assert Weight([]) == 0 by { WeightAppend([], []); }
    }
  }

  // ----- What a cell accounts for at a key of the database -----

  /** The names under which the record of an item lists its container. */
  function Listed(it: Item): seq<Bytes> {
    if it.value.kind == ZSetT then Names(it.value.zset.byScore) else it.order
  }

  function CountWeight(shown: bool, n: nat): nat { if shown then Weight(WriteCount(n)) else 0 }

  /** The part of the item's content that a value holds, visible or not, and its count or its
      string if it is visible. */
  function Body(it: Item, v: RedisValue): nat {
    var kind := it.value.kind;
    match kind
    case StringT => if v.kind == StringT then Weight(WriteString(v.str)) else 0
    case ListT => Weight(WriteStrings(v.list)) + CountWeight(v.kind == ListT, |v.list|)
    case _ => Cover(Listed(it), Parts(v, kind)) + CountWeight(v.kind == kind, |Parts(v, kind)|)
  }

  function Head(key: Bytes): nat { 10 + Weight(WriteString(key)) }

  function Account(it: Item, c: Cell): nat {
    if c.None? then 0 else Head(it.key) + Weight(ExpiryPrefix(c.value)) + Body(it, c.value)
  }

  function Total(its: seq<Item>, db: Store): nat {
    if its == [] then 0 else Account(its[0], Look(db, its[0].key)) + Total(its[1..], db)
  }

  // ----- Sequences that were read -----

  lemma {:induction false} StringsWeigh(b: Bytes, pos: nat, n: nat)
    requires pos <= |b| && ReadStrings(b, pos, n).Got?
    ensures var r := ReadStrings(b, pos, n);
            |r.value| == n && Weight(WriteStrings(r.value)) <= Weight(b[pos..r.next])
    decreases n
  {
    hide ReadString, WriteString, Weight;
    var r := ReadStrings(b, pos, n);
    if n == 0 {
      assert b[pos..pos] == [];
    } else {
      var s := ReadString(b, pos);
      StringWeighs(b, pos);
      StringsWeigh(b, s.next, n - 1);
      WeightSplit(b, pos, s.next, r.next);
      assert r.value[1..] == ReadStrings(b, s.next, n - 1).value;
      WeightAppend(WriteString(s.value), WriteStrings(r.value[1..]));
    }
  }

  lemma ScoreWeighs(b: Bytes, pos: nat)
    requires pos <= |b| && ReadScore(b, pos).Got?
    ensures var r := ReadScore(b, pos);
            Weight(LittleEndian(r.value, 8)) == Weight(b[pos..r.next])
  {
    hide LittleEndian;
    NumberWeighs(b, pos, 8);
  }

  lemma {:induction false} ScoredWeigh(b: Bytes, pos: nat, n: nat)
    requires pos <= |b| && ReadScored(b, pos, n).Got?
    ensures var r := ReadScored(b, pos, n);
            |r.value| == n && Weight(WriteScored(r.value)) <= Weight(b[pos..r.next])
    decreases n
  {
    hide ReadString, ReadScore, WriteString, Weight, LittleEndian;
    var r := ReadScored(b, pos, n);
    if n == 0 {
      assert b[pos..pos] == [];
    } else {
      var m := ReadString(b, pos);
      var x := ReadScore(b, m.next);
      StringWeighs(b, pos);
      ScoreWeighs(b, m.next);
      ScoredWeigh(b, x.next, n - 1);
      WeightSplit(b, pos, m.next, r.next);
      WeightSplit(b, m.next, x.next, r.next);
      assert r.value[1..] == ReadScored(b, x.next, n - 1).value;
      var name, score := WriteString(m.value), LittleEndian(x.value, 8);
      WeightAppend(name + score, WriteScored(r.value[1..]));
      WeightAppend(name, score);
    }
  }

  lemma {:induction false} PairsWeigh(b: Bytes, pos: nat, n: nat, c: Cell) returns (fs: seq<(Bytes, Bytes)>)
    requires pos <= |b| && LoadPairs(b, pos, n, c).next.Some?
    ensures var r := LoadPairs(b, pos, n, c);
            && |fs| == n && r.cell == WriteFields(c, fs)
            && Weight(WritePairs(fs)) <= Weight(b[pos..r.next.value])
    decreases n
  {
    hide ReadString, WriteString, WriteField, Weight;
    var end := LoadPairs(b, pos, n, c).next.value;
    if n == 0 {
      assert b[pos..pos] == [];
      fs := [];
    } else {
      var f := ReadString(b, pos);
      var v := ReadString(b, f.next);
      StringWeighs(b, pos);
      StringWeighs(b, f.next);
      var rest := PairsWeigh(b, v.next, n - 1, WriteField(c, f.value, v.value));
      WeightSplit(b, pos, f.next, end);
      WeightSplit(b, f.next, v.next, end);
      fs := [(f.value, v.value)] + rest;
      assert fs[1..] == rest;
      var field, value := WriteString(f.value), WriteString(v.value);
      WeightAppend(field + value, WritePairs(rest));
      WeightAppend(field, value);
    }
  }

  // ----- What one payload adds to the account -----

  function Base(it: Item, c: Cell): nat { if c.None? then 0 else Body(it, c.value) }

  /** The count of a container that grows may change its weight by this much. */
  function Slack(c: Cell): nat { if c.None? then 0 else 4 }

  lemma {:induction false} CoverNothing(order: seq<Bytes>)
    ensures Cover(order, map[]) == 0
  {
    if order != [] {
      CoverNothing(order[1..]);
    }
  }

  lemma FreshParts(kind: RedisType)
    ensures Parts(FRESH, kind) == map[]
  {
  }

  /** A value of another type that holds as much of the item's container as before. */
  lemma OtherBody(it: Item, c: Cell, v: RedisValue)
    requires v.kind != it.value.kind
    requires it.value.kind == ListT ==> v.list == Value(c).list
    requires Parts(v, it.value.kind) == Parts(Value(c), it.value.kind)
    ensures Body(it, v) <= Base(it, c)
  {
    hide Parts, Cover, WriteString, Listed;
    if c.None? {
      FreshParts(it.value.kind);
      CoverNothing(Listed(it));
    }
  }

  lemma {:induction false} StringsAppend(s: seq<Bytes>, t: seq<Bytes>)
    ensures Weight(WriteStrings(s + t)) == Weight(WriteStrings(s)) + Weight(WriteStrings(t))
  {
    hide WriteString, Weight;
    if s == [] {
      assert s + t == t;
      assert Weight([]) == 0 by { WeightAppend([], []); }
    } else {
      assert (s + t)[1..] == s[1..] + t;
      StringsAppend(s[1..], t);
      WeightAppend(WriteString(s[0]), WriteStrings(s[1..]));
      WeightAppend(WriteString(s[0]), WriteStrings(s[1..] + t));
    }
  }

  lemma CountIsEven(n: nat, m: nat)
    ensures Weight(WriteCount(n)) <= Weight(WriteCount(m)) + 4
  {
    hide LittleEndian;
  }

  lemma ListBody(it: Item, c: Cell, items: seq<Bytes>)
    requires it.value.kind == ListT
    ensures var v := Value(c).(kind := ListT, list := Value(c).list + items);
            Body(it, v) <= Base(it, c) + Weight(WriteCount(|items|)) + Weight(WriteStrings(items)) + Slack(c)
  {
    hide WriteCount, Weight, WriteStrings;
    var l := Value(c).list;
    StringsAppend(l, items);
    CountIsEven(|l + items|, |items|);
    if c.None? {
      assert l + items == items;
    }
  }

  lemma PartsBody(it: Item, c: Cell, v: RedisValue, ps: seq<(Bytes, Bytes)>)
    requires it.value.kind in {SetT, ZSetT, HashT} && v.kind == it.value.kind && NoDuplicates(Listed(it))
    requires Parts(v, v.kind) == HashAfter(Parts(Value(c), v.kind), ps)
    ensures Body(it, v) <= Base(it, c) + Weight(WriteCount(|ps|)) + Weight(Spell(ps)) + Slack(c)
  {
    hide WriteCount, Weight, Parts, HashAfter, Cover, NoDuplicates, Listed, Spell;
    var h, g := Parts(Value(c), v.kind), Parts(v, v.kind);
    CoverAll(Listed(it), h, ps);
    CountIsEven(|g|, |ps|);
    if c.None? {
      FreshParts(v.kind);
      CoverNothing(Listed(it));
      assert |g| == |ps| || |ps| - |g| >= 1;
    }
  }

  /** The record of an item names each part of its container once. */
  predicate NamesOnce(it: Item) { it.value.kind in {SetT, ZSetT, HashT} ==> NoDuplicates(Listed(it)) }

  function End(b: Bytes, l: Loaded): nat { if l.next.Some? then l.next.value else |b| }

  /** After a payload between `pos` and `end`, the item's account has risen by no more than its
      weight, and the expiry is the old one or the one read before it. */
  predicate PaidFor(it: Item, c: Cell, d: Cell, expiry: int, weight: nat) {
    d.Some? ==>
      && Body(it, d.value) <= Base(it, c) + weight + Slack(c)
      && (d.value.expiry == Value(c).expiry || d.value.expiry == expiry > 0)
  }

  lemma NothingToPay(it: Item, c: Cell, expiry: int, weight: nat)
    ensures PaidFor(it, c, c, expiry, weight)
  {
    hide Body;
  }

  lemma StringPays(it: Item, b: Bytes, pos: nat, expiry: int, c: Cell)
    requires pos <= |b|
    ensures var l := LoadString(b, pos, expiry, c);
            PaidFor(it, c, l.cell, expiry, Weight(b[pos..End(b, l)]))
  {
    hide ReadString, WriteString, Weight, Cover, Listed, WriteStrings;
    var r := ReadString(b, pos);
    if r.Got? {
      StringWeighs(b, pos);
      if it.value.kind != StringT {
        OtherBody(it, c, LoadString(b, pos, expiry, c).cell.value);
      }
    }
  }

  lemma ListPays(it: Item, b: Bytes, pos: nat, n: nat, c: Cell, expiry: int)
    requires pos <= |b| && ReadStrings(b, pos, n).Got?
    ensures var r := ReadStrings(b, pos, n);
            PaidFor(it, c, PushEach(c, r.value), expiry, Weight(WriteCount(n)) + Weight(b[pos..r.next]))
  {
    hide ReadStrings, WriteCount, Weight, Body, WriteStrings, PushEach;
    var r := ReadStrings(b, pos, n);
    StringsWeigh(b, pos, n);
    if r.value == [] {
      assert PushEach(c, []) == c by { PushNothing(c); }
    } else {
      PushEachBuilds(c, r.value);
      if it.value.kind == ListT {
        ListBody(it, c, r.value);
      } else {
        OtherBody(it, c, PushBack(c, r.value).value);
      }
    }
  }

  lemma SetPays(it: Item, b: Bytes, pos: nat, n: nat, c: Cell, expiry: int)
    requires pos <= |b| && ReadStrings(b, pos, n).Got? && NamesOnce(it)
    ensures var r := ReadStrings(b, pos, n);
            PaidFor(it, c, AddMembers(c, r.value), expiry, Weight(WriteCount(n)) + Weight(b[pos..r.next]))
  {
    hide ReadStrings, WriteCount, Weight, Body, WriteStrings, ToSet, HashAfter, MemberParts, SetParts, Listed, NoDuplicates;
    var items := ReadStrings(b, pos, n).value;
    StringsWeigh(b, pos, n);
    var v := AddMembers(c, items).value;
    if it.value.kind == SetT {
      MembersAsParts(Value(c).members, items);
      SpellMembers(items);
      PartsBody(it, c, v, MemberParts(items));
    } else {
      OtherBody(it, c, v);
    }
  }

  lemma ScoredPays(it: Item, b: Bytes, pos: nat, n: nat, c: Cell, expiry: int)
    requires pos <= |b| && ReadScored(b, pos, n).Got? && NamesOnce(it)
    ensures var r := ReadScored(b, pos, n);
            PaidFor(it, c, AddScored(c, r.value), expiry, Weight(WriteCount(n)) + Weight(b[pos..r.next]))
  {
    hide ReadScored, WriteCount, Weight, Body, WriteScored, AddAll, HashAfter, ScoredParts, ScoreParts, Listed, NoDuplicates;
    var es := ReadScored(b, pos, n).value;
    ScoredWeigh(b, pos, n);
    var v := AddScored(c, es).value;
    if it.value.kind == ZSetT {
      ScoresAsParts(Value(c).zset, es);
      SpellScored(es);
      PartsBody(it, c, v, ScoredParts(es));
    } else {
      OtherBody(it, c, v);
    }
  }

  lemma HashPays(it: Item, b: Bytes, pos: nat, n: nat, c: Cell, expiry: int)
    requires pos <= |b| && NamesOnce(it) && (LoadPairs(b, pos, n, c).next.Some? || it.value.kind != HashT)
    ensures var l := LoadPairs(b, pos, n, c);
            PaidFor(it, c, l.cell, expiry, Weight(WriteCount(n)) + Weight(b[pos..End(b, l)]))
  {
    hide LoadPairs, WriteCount, Weight, Body, WritePairs, WriteFields, HashAfter, FieldParts, HashParts, Listed,
      NoDuplicates;
    var l := LoadPairs(b, pos, n, c);
    PairsKeep(b, pos, n, c);
    if l.cell != c {
      if it.value.kind == HashT {
        var fs := PairsWeigh(b, pos, n, c);
        if fs == [] {
          NoFieldsWritten(c);
        } else {
          WriteFieldsValue(c, fs);
          FieldsAsParts(Value(c).hash, fs);
          SpellFields(fs);
          PartsBody(it, c, l.cell.value, FieldParts(fs));
        }
      } else {
        OtherBody(it, c, l.cell.value);
      }
    }
  }

  lemma CountWeighs(b: Bytes, pos: nat)
    requires pos <= |b| && ReadNumber(b, pos, 4).Got?
    ensures Weight(WriteCount(ReadNumber(b, pos, 4).value)) == Weight(b[pos..pos + 4])
  {
    hide LittleEndian, Weight;
    NumberWeighs(b, pos, 4);
    Widths();
  }

  lemma CountedPays(it: Item, b: Bytes, pos: nat, tag: byte, c: Cell, expiry: int)
    requires pos <= |b| && 1 <= tag <= 4 && NamesOnce(it)
    requires LoadCounted(b, pos, tag, c).next.Some? || it.value.kind != HashT
    ensures var l := LoadCounted(b, pos, tag, c);
            PaidFor(it, c, l.cell, expiry, Weight(b[pos..End(b, l)]))
  {
    hide ReadNumber, ReadStrings, ReadScored, LoadPairs, PushEach, AddMembers, AddScored, WriteCount, Weight, PaidFor,
      NamesOnce;
    var l, r := LoadCounted(b, pos, tag, c), ReadNumber(b, pos, 4);
    NothingToPay(it, c, expiry, Weight(b[pos..End(b, l)]));
    if r.Got? {
      CountWeighs(b, pos);
      WeightSplit(b, pos, r.next, End(b, l));
      if tag == 1 && ReadStrings(b, r.next, r.value).Got? {
        ListPays(it, b, r.next, r.value, c, expiry);
      } else if tag == 2 && ReadStrings(b, r.next, r.value).Got? {
        SetPays(it, b, r.next, r.value, c, expiry);
      } else if tag == 3 && ReadScored(b, r.next, r.value).Got? {
        ScoredPays(it, b, r.next, r.value, c, expiry);
      } else if tag == 4 {
        HashPays(it, b, r.next, r.value, c, expiry);
      }
    }
  }

  // ----- One record -----

  lemma PrefixWeighs(v: RedisValue, d: RedisValue, expiry: int, paid: nat)
    requires d.expiry == v.expiry || d.expiry == expiry > 0
    requires expiry > 0 ==> paid >= Weight([EXPIRE_MS] + LittleEndian(expiry % TWO_64, 8))
    ensures Weight(ExpiryPrefix(d)) <= Weight(ExpiryPrefix(v)) + paid
  {
    hide Weight, LittleEndian;
  }

  /** Type byte, key and payload pay for what they add to the account of the key's item. */
  lemma PayloadPays(it: Item, b: Bytes, pos: nat, tag: byte, expiry: int, c: Cell, paid: nat)
    requires pos <= |b| && NamesOnce(it)
    requires LoadPayload(b, pos, tag, expiry, c).next.Some? || it.value.kind != HashT
    requires expiry > 0 ==> paid >= Weight([EXPIRE_MS] + LittleEndian(expiry % TWO_64, 8))
    ensures var l := LoadPayload(b, pos, tag, expiry, c);
            Account(it, l.cell) <= Account(it, c) + paid + Weight([tag]) + Weight(WriteString(it.key)) + Weight(b[pos..End(b, l)])
  {
    hide LoadString, LoadCounted, Weight, WriteString, LittleEndian, Body, NamesOnce, ExpiryPrefix;
    var l := LoadPayload(b, pos, tag, expiry, c);
    if l.cell != c {
      WeightOne(tag);
      StringIsHeavy(it.key);
      if tag == 0 {
        StringPays(it, b, pos, expiry, c);
      } else {
        CountedPays(it, b, pos, tag, c, expiry);
      }
      if l.cell.Some? {
        PrefixWeighs(Value(c), l.cell.value, expiry, paid);
        FreshPrefix();
      }
    }
  }

  lemma FreshPrefix()
    ensures Weight(ExpiryPrefix(FRESH)) == 0
  {
  }

  // ----- Runs of the loader -----

  ghost predicate AllNamesOnce(its: seq<Item>) { forall i :: 0 <= i < |its| ==> NamesOnce(its[i]) }

  predicate NoHashes(its: seq<Item>) { forall i :: 0 <= i < |its| ==> its[i].value.kind != HashT }

  /** A write to one key moves the total by what it moves at that key's item, if it has one. */
  lemma {:induction false} TotalPut(its: seq<Item>, db: Store, key: Bytes, c: Cell, weight: nat)
    requires KeysDistinct(its)
    requires forall i :: 0 <= i < |its| && its[i].key == key ==>
                           Account(its[i], c) <= Account(its[i], Look(db, key)) + weight
    ensures Total(its, Put(db, key, c)) <= Total(its, db) + weight
  {
    hide Account, Look, Put;
    if its != [] {
      var rest := its[1..];
      assert forall i :: 0 <= i < |rest| ==> rest[i] == its[i + 1];
      LookPut(db, key, c, its[0].key);
      if its[0].key == key {
        TotalElsewhere(rest, db, key, c);
      } else {
        TotalPut(rest, db, key, c, weight);
      }
    }
  }

  lemma {:induction false} TotalElsewhere(its: seq<Item>, db: Store, key: Bytes, c: Cell)
    requires forall i :: 0 <= i < |its| ==> its[i].key != key
    ensures Total(its, Put(db, key, c)) == Total(its, db)
  {
    hide Account, Look, Put;
    if its != [] {
      var rest := its[1..];
      assert forall i :: 0 <= i < |rest| ==> rest[i] == its[i + 1];
      LookPut(db, key, c, its[0].key);
      TotalElsewhere(rest, db, key, c);
    }
  }

  function Stop(b: Bytes, r: Progress): nat { if r.Continued? then r.next else |b| }

  lemma TypedPays(its: seq<Item>, b: Bytes, pos: nat, expiry: int, db: Store, paid: nat)
    requires pos <= |b| && KeysDistinct(its) && AllNamesOnce(its)
    requires expiry > 0 ==> paid >= Weight([EXPIRE_MS] + LittleEndian(expiry % TWO_64, 8))
    requires LoadTyped(b, pos, expiry, db).Continued? || NoHashes(its)
    ensures var r := LoadTyped(b, pos, expiry, db);
            Total(its, r.db) <= Total(its, db) + paid + Weight(b[pos..Stop(b, r)])
  {
    hide ReadString, LoadPayload, Weight, WriteString, LittleEndian, Account, Total, NamesOnce, Look, Put, KeysDistinct;
    var r := LoadTyped(b, pos, expiry, db);
    if pos < |b| && ReadString(b, pos + 1).Got? {
      var key, next := ReadString(b, pos + 1).value, ReadString(b, pos + 1).next;
      var c := Look(db, key);
      var l := LoadPayload(b, next, b[pos], expiry, c);
      StringWeighs(b, pos + 1);
      WeightSplit(b, pos, pos + 1, End(b, l));
      WeightSplit(b, pos + 1, next, End(b, l));
      assert b[pos..pos + 1] == [b[pos]];
      var weight := paid + Weight(b[pos..End(b, l)]);
      forall i | 0 <= i < |its| && its[i].key == key
        ensures Account(its[i], l.cell) <= Account(its[i], c) + weight
      {
        PayloadPays(its[i], b, next, b[pos], expiry, c, paid);
      }
      TotalPut(its, db, key, l.cell, weight);
    }
  }

  lemma ExpiryWeighs(b: Bytes, pos: nat)
    requires pos < |b| && b[pos] == EXPIRE_MS && ReadNumber(b, pos + 1, 8).Got?
    ensures var r := ReadNumber(b, pos + 1, 8);
            var expiry := AsInt64(r.value);
            expiry > 0 ==> Weight(b[pos..r.next]) == Weight([EXPIRE_MS] + LittleEndian(expiry % TWO_64, 8))
  {
    hide Weight, LittleEndian;
    var r := ReadNumber(b, pos + 1, 8);
    NumberWeighs(b, pos + 1, 8);
    Widths();
    WeightSplit(b, pos, pos + 1, r.next);
    assert b[pos..pos + 1] == [b[pos]];
    WeightAppend([EXPIRE_MS], LittleEndian(r.value, 8));
  }

  lemma RecordPays(its: seq<Item>, b: Bytes, pos: nat, db: Store)
    requires pos < |b| && KeysDistinct(its) && AllNamesOnce(its)
    requires LoadRecord(b, pos, db).Continued? || NoHashes(its)
    ensures var r := LoadRecord(b, pos, db);
            Total(its, r.db) <= Total(its, db) + Weight(b[pos..Stop(b, r)])
  {
    hide LoadTyped, ReadNumber, Weight, LittleEndian, Total, KeysDistinct, AllNamesOnce, NoHashes, AsInt64;
    if b[pos] != EXPIRE_MS {
      TypedPays(its, b, pos, -1, db, 0);
    } else if ReadNumber(b, pos + 1, 8).Got? {
      var n := ReadNumber(b, pos + 1, 8);
      ExpiryWeighs(b, pos);
      TypedPays(its, b, n.next, AsInt64(n.value), db, Weight(b[pos..n.next]));
      WeightSplit(b, pos, n.next, Stop(b, LoadRecord(b, pos, db)));
    }
  }

  /** What a successful load accounts for, at whatever keys one looks, weighs no more than the
      bytes it read; without hashes, this holds of failed loads too. */
  lemma {:induction false} LoadPays(its: seq<Item>, b: Bytes, pos: nat, db: Store)
    requires pos <= |b| && KeysDistinct(its) && AllNamesOnce(its)
    requires LoadLoop(b, pos, db).0 || NoHashes(its)
    ensures Total(its, LoadLoop(b, pos, db).1) <= Total(its, db) + Weight(b[pos..])
    decreases |b| - pos
  {
    hide LoadRecord, Weight, Total, KeysDistinct, AllNamesOnce, NoHashes;
    if pos < |b| && b[pos] != END_OF_FILE {
      var r := LoadRecord(b, pos, db);
      RecordPays(its, b, pos, db);
      WeightSplit(b, pos, Stop(b, r), |b|);
      assert b[pos..|b|] == b[pos..];
      if r.Continued? {
        assert b[r.next..|b|] == b[r.next..];
        LoadPays(its, b, r.next, r.db);
      }
    }
  }

  lemma {:induction false} TotalOfNothing(its: seq<Item>)
    ensures Total(its, map[]) == 0
  {
    if its != [] {
      TotalOfNothing(its[1..]);
    }
  }

  // ----- What the database weighs -----

  lemma FittingNamesOnce(it: Item)
    requires FitsItem(it)
    ensures NamesOnce(it)
  {
    var v := it.value;
    if v.kind == ZSetT {
      var z := v.zset.byScore;
      assert forall i, j :: 0 <= i < j < |z| ==> Names(z)[i] != Names(z)[j];
    }
  }

  lemma SetCovers(it: Item, v: RedisValue)
    requires FitsItem(it) && it.value.kind == SetT && v.members == it.value.members
    ensures Cover(Listed(it), Parts(v, SetT)) == Weight(WriteStrings(it.order)) && |Parts(v, SetT)| == |v.members|
  {
    hide Cover, Weight, WriteStrings, Spell;
    assert Parts(v, SetT).Keys == v.members;
    forall i | 0 <= i < |it.order|
      ensures it.order[i] in v.members
    {
      assert it.order[i] in ToSet(it.order);
    }
    CoverWhole(it.order, Parts(v, SetT), MemberParts(it.order));
    SpellMembers(it.order);
  }

  lemma ScoredCovers(it: Item, v: RedisValue)
    requires FitsItem(it) && it.value.kind == ZSetT && v.zset == it.value.zset
    ensures Cover(Listed(it), Parts(v, ZSetT)) == Weight(WriteScored(v.zset.byScore))
    ensures |Parts(v, ZSetT)| == |v.zset.scores|
  {
    hide Cover, Weight, WriteScored, Spell, LittleEndian;
    var z := v.zset.byScore;
    assert Parts(v, ZSetT).Keys == v.zset.scores.Keys;
    CoverWhole(Names(z), Parts(v, ZSetT), ScoredParts(z));
    SpellScored(z);
  }

  lemma HashCovers(it: Item, v: RedisValue)
    requires FitsItem(it) && it.value.kind == HashT && v.hash == it.value.hash
    ensures Cover(Listed(it), Parts(v, HashT)) == Weight(WritePairs(Fields(v.hash, it.order)))
    ensures |Parts(v, HashT)| == |v.hash|
  {
    hide Cover, Weight, WritePairs, Spell, WriteString;
    assert Parts(v, HashT).Keys == v.hash.Keys;
    forall i | 0 <= i < |it.order|
      ensures it.order[i] in v.hash
    {
      assert it.order[i] in ToSet(it.order);
    }
    var fs := Fields(v.hash, it.order);
    CoverWhole(it.order, Parts(v, HashT), FieldParts(fs));
    SpellFields(fs);
  }

  lemma PayloadWeighs(it: Item, v: RedisValue)
    requires FitsItem(it) && Shown(v) == Shown(it.value)
    ensures Body(it, v) == Weight(Payload(it))
  {
    hide Cover, Weight, WriteStrings, WriteScored, WritePairs, WriteString, WriteCount, Parts, Listed, Fields;
    var w := it.value;
    match w.kind
    case StringT =>
    case ListT => WeightAppend(WriteCount(|w.list|), WriteStrings(w.list));
    case SetT =>
      SetCovers(it, v);
      WeightAppend(WriteCount(|w.members|), WriteStrings(it.order));
    case ZSetT =>
      ScoredCovers(it, v);
      WeightAppend(WriteCount(|w.zset.scores|), WriteScored(w.zset.byScore));
    case HashT =>
      HashCovers(it, v);
      WeightAppend(WriteCount(|w.hash|), WritePairs(Fields(w.hash, it.order)));
  }

  lemma RecordIsPieces(it: Item)
    requires ValidItem(it)
    ensures Weight(Record(it)) == Weight(ExpiryPrefix(it.value)) + Head(it.key) + Weight(Payload(it))
  {
    hide Weight, Payload, WriteString, ExpiryPrefix, ValidItem;
    var tag, key := [Tag(it.value.kind)], WriteString(it.key);
    WeightAppend(ExpiryPrefix(it.value), Typed(it));
    WeightAppend(tag, key + Payload(it));
    WeightAppend(key, Payload(it));
    WeightOne(Tag(it.value.kind));
  }

  lemma SameShow(v: RedisValue, w: RedisValue)
    requires Shown(v) == Shown(w)
    ensures ExpiryPrefix(v) == ExpiryPrefix(w)
  {
    hide LittleEndian;
  }

  /** A cell that shows the item accounts for its whole record. */
  lemma RecordWeighs(it: Item, c: Cell)
    requires FitsItem(it) && View(c) == View(Some(it.value))
    ensures Account(it, c) == Weight(Record(it))
  {
    hide Weight, Payload, Record, WriteString, ExpiryPrefix, Body, Shown;
    var v := c.value;
    PayloadWeighs(it, v);
    SameShow(v, it.value);
    ItemKeyFits(it);
    RecordIsPieces(it);
  }

  /** The store shows the same value as the database at every key. */
  ghost predicate Recovers(r: Store, db: Store) { forall k :: View(Look(r, k)) == View(Look(db, k)) }

  lemma {:induction false} RecordsWeigh(its: seq<Item>, r: Store)
    requires AllItemsFit(its) && AllValid(its)
    requires forall i :: 0 <= i < |its| ==> View(Look(r, its[i].key)) == View(Some(its[i].value))
    ensures Total(its, r) == Weight(Records(its))
  {
    hide Account, Weight, Record, FitsItem, ValidItem, View, Look;
    if its == [] {
      assert Weight([]) == 0 by { WeightAppend([], []); }
    } else {
      var rest := its[1..];
      assert forall i :: 0 <= i < |rest| ==> rest[i] == its[i + 1];
      RecordWeighs(its[0], Look(r, its[0].key));
      RecordsWeigh(rest, r);
      WeightAppend(Record(its[0]), Records(rest));
    }
  }

  lemma RecoveredWeight(its: seq<Item>, db: Store, r: Store)
    requires Lists(its, db) && AllItemsFit(its) && AllValid(its) && Recovers(r, db)
    ensures Total(its, r) == Weight(Records(its))
  {
    hide Total, Weight, Records, AllItemsFit, AllValid, View;
    forall i | 0 <= i < |its|
      ensures View(Look(r, its[i].key)) == View(Some(its[i].value))
    {
      assert Look(db, its[i].key) == Some(its[i].value);
    }
    RecordsWeigh(its, r);
  }

  /** Behind its first byte the file weighs less than the records: a 0 is missing and the end
      marker has come in. */
  lemma FileWeighsLess(its: seq<Item>)
    requires AllValid(its) && StartsWithPlainString(its)
    ensures |FileOf(its)| >= 9 && Weight(FileOf(its)[9..]) < Weight(Records(its))
  {
    hide Records, Weight, ValidItem;
    FirstByte(its);
    StartsWithRecords(its);
    var rs := Records(its);
    assert rs[0] == 0;
    assert FileOf(its)[9..] == rs[1..] + [END_OF_FILE];
    assert rs == [rs[0]] + rs[1..];
    WeightAppend(rs[1..], [END_OF_FILE]);
    WeightAppend([rs[0]], rs[1..]);
    WeightOne(rs[0]);
    WeightOne(END_OF_FILE);
  }

  lemma StartsWithRecords(its: seq<Item>)
    requires AllValid(its) && its != []
    ensures Records(its) != []
  {
    hide Record, ValidItem;
  }

  /** The server never recovers its own file. Whatever the database and whatever order it was
      written in, a start from the file it saved does not report success and show the same
      values; and unless the database is empty or holds a hash, it does not show them even if
      it reports failure. */
  lemma OwnFileIsNeverRecovered(its: seq<Item>, db: Store)
    requires Lists(its, db) && AllItemsFit(its) && AllValid(its)
    ensures var r := LoadFile(FileOf(its), map[]);
            && !(r.0 && Recovers(r.1, db))
            && (db != map[] && NoHashes(its) ==> !Recovers(r.1, db))
  {
    hide LoadLoop, Total, Weight, Records, FileOf, StartsWithPlainString, Recovers, ValidItem, FitsItem, NamesOnce;
    var b, empty: Store := FileOf(its), map[];
    var r := LoadFile(b, empty);
    OwnHeaderIsMisread(its, empty);
    if StartsWithPlainString(its) {
      if (r.0 || NoHashes(its)) && Recovers(r.1, db) {
        FileWeighsLess(its);
        forall i | 0 <= i < |its|
          ensures NamesOnce(its[i])
        {
          FittingNamesOnce(its[i]);
        }
        LoadPays(its, b, 9, empty);
        TotalOfNothing(its);
        RecoveredWeight(its, db, r.1);
        assert false;
      }
    } else if db != map[] {
      EmptyRecoversNothing(db);
    }
  }

  lemma EmptyRecoversNothing(db: Store)
    requires db != map[]
    ensures !Recovers(map[], db)
  {
    var k :| k in db;
    var empty: Store := map[];
    assert View(Look(empty, k)) != View(Look(db, k));
  }
}
