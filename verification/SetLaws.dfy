/** What the set and hash commands do, told by their replies alone. */
module SetLaws {
  import opened Octets
  import opened Keyspace
  import opened Databases
  import opened Commands
  import opened ListLaws
  import R = Resp

  // ----- Membership -----

  /** What SISMEMBER says. */
  predicate Has(c: Cell, m: Bytes) { ApplyCell(c, SIsMember([], m), 0).reply == R.Number(1) }

  predicate SetOrMissing(c: Cell) { c.Some? ==> c.value.kind == SetT }

  lemma UnfoldSet(c: Cell, op: Op, now: int)
    requires FamilyOf(op).SetFamily?
    ensures ApplyCell(c, op, now) == ApplySet(c, op)
  {
    hide ApplySet;
  }

  lemma HasMeans(c: Cell, m: Bytes)
    ensures Has(c, m) <==> m in SetAt(c)
    ensures forall k, now :: ApplyCell(c, SIsMember(k, m), now).reply == R.Number(if Has(c, m) then 1 else 0)
  {
    forall k: Bytes, now: int
      ensures ApplyCell(c, SIsMember(k, m), now).reply == R.Number(if m in SetAt(c) then 1 else 0)
    {
      UnfoldSet(c, SIsMember(k, m), now);
    }
    UnfoldSet(c, SIsMember([], m), 0);
  }

  /** What SCARD says. */
  function Card(c: Cell): int {
    var r := ApplyCell(c, SCard([]), 0).reply;
    if r.Number? then r.n else -1
  }

  lemma CardMeans(c: Cell, k: Bytes, now: int)
    ensures Card(c) == |SetAt(c)| && ApplyCell(c, SCard(k), now).reply == R.Number(Card(c))
  {
    UnfoldSet(c, SCard(k), now);
    UnfoldSet(c, SCard([]), 0);
  }

  /** SMEMBERS lists exactly the members, each once, and SCARD counts that list. */
  lemma SMembersLaw(db: Store, k: Bytes, mo: Moment, now: int)
    ensures var reply, c := Answer(db, SMembers(k), mo), Look(db, k);
            var items := Texts(reply);
            && reply == Bulks(items) && NoDuplicates(items)
            && (forall m :: m in items <==> Has(c, m))
            && ApplyCell(c, SCard(k), now).reply == R.Number(|items|)
  {
    hide ApplyCell, Bulks, Has, Card;
    var s := SetAt(Look(db, k));
    var items := mo.order(s);
    TextsOfBulks(items);
    ListingSize(items, s);
    CardMeans(Look(db, k), k, now);
    forall m: Bytes
      ensures m in items <==> Has(Look(db, k), m)
    {
      HasMeans(Look(db, k), m);
      assert m in items <==> m in ToSet(items);
    }
  }

  /** SADD: the members given are in, nothing else changes, and the reply is the growth. */
  lemma SAddLaw(c: Cell, k: Bytes, xs: seq<Bytes>, now: int)
    requires SetOrMissing(c) && xs != []
    ensures var x := ApplyCell(c, SAdd(k, xs), now);
            && (forall m :: Has(x.cell, m) <==> Has(c, m) || m in xs)
            && x.reply == R.Number(Card(x.cell) - Card(c)) && SetOrMissing(x.cell)
  {
    hide Has, Card, Err, ToSet;
    var x := ApplyCell(c, SAdd(k, xs), now);
    UnfoldSet(c, SAdd(k, xs), now);
    hide ApplyCell;
    CardMeans(c, k, now);
    CardMeans(x.cell, k, now);
    assert SetAt(x.cell) == SetAt(c) + ToSet(xs);
    forall m: Bytes
      ensures Has(x.cell, m) <==> Has(c, m) || m in xs
    {
      HasMeans(c, m);
      HasMeans(x.cell, m);
      InSet(xs, m);
    }
  }

  lemma InSet(xs: seq<Bytes>, m: Bytes)
    ensures m in ToSet(xs) <==> m in xs
  {
  }

  /** SREM: the members given are out, nothing else changes, and the reply is the loss. */
  lemma SRemLaw(c: Cell, k: Bytes, xs: seq<Bytes>, now: int)
    requires xs != []
    ensures var x := ApplyCell(c, SRem(k, xs), now);
            && (forall m :: Has(x.cell, m) <==> Has(c, m) && m !in xs)
            && x.reply == R.Number(Card(c) - Card(x.cell))
  {
    hide Has, Card, Err, ToSet;
    var x := ApplyCell(c, SRem(k, xs), now);
    UnfoldSet(c, SRem(k, xs), now);
    hide ApplyCell;
    CardMeans(c, k, now);
    CardMeans(x.cell, k, now);
    assert SetAt(x.cell) == SetAt(c) - ToSet(xs);
    forall m: Bytes
      ensures Has(x.cell, m) <==> Has(c, m) && m !in xs
    {
      HasMeans(c, m);
      HasMeans(x.cell, m);
      InSet(xs, m);
    }
  }

  /** SINTER, SUNION and SDIFF list, each once, the members that SISMEMBER finds at all of the
      keys, at some of them, and at the first but none of the others. */
  lemma SetAlgebraLaw(db: Store, ks: seq<Bytes>, mo: Moment)
    requires ks != []
    ensures var inter := Answer(db, SInter(ks), mo);
            && inter == Bulks(Texts(inter)) && NoDuplicates(Texts(inter))
            && forall m :: m in Texts(inter) <==> forall i :: 0 <= i < |ks| ==> Has(Look(db, ks[i]), m)
    ensures var union := Answer(db, SUnion(ks), mo);
            && union == Bulks(Texts(union)) && NoDuplicates(Texts(union))
            && forall m :: m in Texts(union) <==> exists i :: 0 <= i < |ks| && Has(Look(db, ks[i]), m)
    ensures var diff := Answer(db, SDiff(ks), mo);
            && diff == Bulks(Texts(diff)) && NoDuplicates(Texts(diff))
            && forall m :: m in Texts(diff) <==>
                 Has(Look(db, ks[0]), m) && forall i :: 1 <= i < |ks| ==> !Has(Look(db, ks[i]), m)
  {
    InterLaw(db, ks, mo);
    UnionLaw(db, ks, mo);
    DiffLaw(db, ks, mo);
  }

  lemma EveryHas(db: Store, ks: seq<Bytes>, m: Bytes)
    ensures forall i :: 0 <= i < |ks| ==> (Has(Look(db, ks[i]), m) <==> m in SetAt(Look(db, ks[i])))
  {
    hide Has, SetAt, Look;
    forall i | 0 <= i < |ks|
      ensures Has(Look(db, ks[i]), m) <==> m in SetAt(Look(db, ks[i]))
    {
      HasMeans(Look(db, ks[i]), m);
    }
  }

  lemma InterLaw(db: Store, ks: seq<Bytes>, mo: Moment)
    requires ks != []
    ensures var inter := Answer(db, SInter(ks), mo);
            && inter == Bulks(Texts(inter)) && NoDuplicates(Texts(inter))
            && forall m :: m in Texts(inter) <==> forall i :: 0 <= i < |ks| ==> Has(Look(db, ks[i]), m)
  {
    hide Bulks, Has, SetAt, Look, Kept;
    var first, all := mo.order(SetAt(Look(db, ks[0]))), Intersection(db, ks);
    var items := Kept(first, all);
    KeptLists(first, all);
    IntersectionOfOne(db, ks);
    TextsOfBulks(items);
    forall m: Bytes
      ensures m in items <==> forall i :: 0 <= i < |ks| ==> Has(Look(db, ks[i]), m)
    {
      InSet(items, m);
      InSet(first, m);
      EveryHas(db, ks, m);
    }
  }

  lemma UnionLaw(db: Store, ks: seq<Bytes>, mo: Moment)
    requires ks != []
    ensures var union := Answer(db, SUnion(ks), mo);
            && union == Bulks(Texts(union)) && NoDuplicates(Texts(union))
            && forall m :: m in Texts(union) <==> exists i :: 0 <= i < |ks| && Has(Look(db, ks[i]), m)
  {
    hide Bulks, Has, SetAt, Look;
    var items := mo.order(Union(db, ks));
    TextsOfBulks(items);
    forall m: Bytes
      ensures m in items <==> exists i :: 0 <= i < |ks| && Has(Look(db, ks[i]), m)
    {
      InSet(items, m);
      EveryHas(db, ks, m);
      InUnion(db, ks, m);
    }
  }

  lemma InUnion(db: Store, ks: seq<Bytes>, m: Bytes)
    ensures m in Union(db, ks) <==> exists i :: 0 <= i < |ks| && m in SetAt(Look(db, ks[i]))
  {
    hide SetAt, Look;
    if m in Union(db, ks) {
      var k :| k in ks && m in SetAt(Look(db, k));
      var i :| 0 <= i < |ks| && ks[i] == k;
    }
  }

  lemma DiffLaw(db: Store, ks: seq<Bytes>, mo: Moment)
    requires ks != []
    ensures var diff := Answer(db, SDiff(ks), mo);
            && diff == Bulks(Texts(diff)) && NoDuplicates(Texts(diff))
            && forall m :: m in Texts(diff) <==>
                 Has(Look(db, ks[0]), m) && forall i :: 1 <= i < |ks| ==> !Has(Look(db, ks[i]), m)
  {
    hide Bulks, Has, SetAt, Look, Union;
    var others := ks[1..];
    var items := mo.order(SetAt(Look(db, ks[0])) - Union(db, others));
    TextsOfBulks(items);
    forall m: Bytes
      ensures m in items <==>
                Has(Look(db, ks[0]), m) && forall i :: 1 <= i < |ks| ==> !Has(Look(db, ks[i]), m)
    {
      InSet(items, m);
      EveryHas(db, ks, m);
      InUnion(db, others, m);
      assert forall i :: 1 <= i < |ks| ==> ks[i] == others[i - 1];
      assert forall i :: 0 <= i < |others| ==> others[i] == ks[i + 1];
    }
  }

  /** KEYS lists every key of the database once. */
  lemma KeysLaw(db: Store, mo: Moment)
    ensures var reply := Answer(db, Keys, mo);
            && reply == Bulks(Texts(reply)) && NoDuplicates(Texts(reply))
            && forall k :: k in Texts(reply) <==> k in db
  {
    hide Bulks;
    var items := mo.order(db.Keys);
    TextsOfBulks(items);
    forall k: Bytes
      ensures k in items <==> k in db
    {
      InSet(items, k);
    }
  }
}
