/** The in-memory nullifier database: the same linked records, indexed in the order they arrive. */
module NullifierDbs {
  import opened Field
  import opened LinkedRecords

  class NullifierDb {
    var entries: Records

    /** One sorted list through all keys, with the indices 0 .. len-1 each given once. */
    ghost predicate Valid()
      reads this
    {
      WellLinked(entries) && DenseIds(entries)
    }

    constructor ()
      ensures Valid() && entries == map[0 := ZERO_LEAF]
    {
      entries := map[0 := ZERO_LEAF];
      new;
      OnlyZeroIsLinked();
      forall i: nat
        ensures HasId(entries, i) <==> i < |entries|
      {
        assert entries[0].id == 0;
      }
    }

    /** The record that skips over `v`, if its link does skip over `v`. */
    method GetLowNullifier(v: Fr) returns (low: Option<IndexedLeaf>)
      requires Valid()
      ensures low.Some? <==> v != 0 && v !in entries
      ensures low.Some? ==> low.value.value in entries && entries[low.value.value] == low.value && IsLow(entries, v, low.value.value)
    {
      hide LowKey, WellLinked, DenseIds;
      LowRecordSkips(entries, v);
      match LowKey(entries, v)
      case None =>
        return None;
      case Some(l) =>
        if v < entries[l].nextValue || entries[l].nextValue == 0 {
          return Some(entries[l]);
        }
        return None;
    }

    method UpdateNullifier(v: Fr, nextIndex: nat, nextValue: Fr) returns (ok: bool)
      modifies this
      ensures ok <==> v in old(entries)
      ensures entries == if ok then old(entries)[v := IndexedLeaf(v, old(entries)[v].id, nextIndex, nextValue)] else old(entries)
    {
      ok := v in entries;
      if ok {
        entries := entries[v := IndexedLeaf(v, entries[v].id, nextIndex, nextValue)];
      }
    }

    /** Stores a value under the next free index exactly when it is new; zero never is. */
    method StoreNullifier(v: Fr) returns (ok: bool)
      requires Valid()
      modifies this
      ensures Valid()
      ensures ok <==> v !in old(entries)
      ensures ok ==> Ids(entries) == Ids(old(entries))[v := |old(entries)|]
      ensures entries.Keys == old(entries.Keys) + {v}
      ensures !ok ==> unchanged(this)
    {
      hide WellLinked, DenseIds, Ids, IsLow;
      if v in entries {
        return false;
      }
      ZeroIsStored(entries);
      var low := GetLowNullifier(v);
      if low.None? {
        return false;
      }
      ghost var was := entries;
      var index := |entries|;
      entries := entries[v := IndexedLeaf(v, index, low.value.nextIndex, low.value.nextValue)];
      ok := UpdateNullifier(low.value.value, index, v);
      StoreIsValid(was, v, low.value.value);
    }
  }

  lemma ZeroIsStored(r: Records)
    requires WellLinked(r)
    ensures 0 in r
  {
  }

  lemma StoreIsValid(was: Records, v: Fr, l: Fr)
    requires WellLinked(was) && DenseIds(was) && v !in was && IsLow(was, v, l)
    ensures var now := was[v := IndexedLeaf(v, |was|, was[l].nextIndex, was[l].nextValue)]
                          [l := IndexedLeaf(l, was[l].id, |was|, v)];
            && WellLinked(now) && DenseIds(now)
            && Ids(now) == Ids(was)[v := |was|]
  {
    hide WellLinked, DenseIds;
    assert was[l].value == l by {
      RecordKey(was, l);
    }
    forall w | w in was
      ensures was[w].id != |was|
    {
      IdsAreBelow(was, w);
    }
    StoredIsLinked(was, v, |was|, l);
    StoredIsDense(was, v, l);
  }

  lemma IdsAreBelow(r: Records, v: Fr)
    requires DenseIds(r) && v in r
    ensures r[v].id < |r|
  {
    assert HasId(r, r[v].id);
  }

  /** `vs[i]` is met for the first time, counting the values stored before the run. */
  ghost predicate FirstMet(keys: set<Fr>, vs: seq<Fr>, i: nat)
    requires i < |vs|
  {
    vs[i] !in keys && vs[i] !in vs[..i]
  }

  ghost predicate KeysAfter(keys: set<Fr>, vs: seq<Fr>, now: set<Fr>) {
    forall v :: v in now <==> v in keys || v in vs
  }

  lemma KeysPush(keys: set<Fr>, vs: seq<Fr>, i: nat, now: set<Fr>)
    requires i < |vs| && KeysAfter(keys, vs[..i], now)
    ensures vs[i] in now <==> !FirstMet(keys, vs, i)
    ensures KeysAfter(keys, vs[..i + 1], now + {vs[i]})
  {
    assert vs[..i + 1] == vs[..i] + [vs[i]];
  }

  /** Over any run of stores, a store succeeds exactly when its value is met for the first time. */
  method StoreAll(db: NullifierDb, vs: seq<Fr>) returns (stored: seq<bool>)
    requires db.Valid()
    modifies db
    ensures db.Valid() && |stored| == |vs|
    ensures forall i :: 0 <= i < |vs| ==> (stored[i] <==> FirstMet(old(db.entries.Keys), vs, i))
    ensures KeysAfter(old(db.entries.Keys), vs, db.entries.Keys)
  {
    hide WellLinked, DenseIds, Ids;
    ghost var keys := db.entries.Keys;
    stored := [];
    for i := 0 to |vs|
      invariant db.Valid() && |stored| == i
      invariant forall j :: 0 <= j < i ==> (stored[j] <==> FirstMet(keys, vs, j))
      invariant KeysAfter(keys, vs[..i], db.entries.Keys)
    {
      KeysPush(keys, vs, i, db.entries.Keys);
      var ok := db.StoreNullifier(vs[i]);
      stored := stored + [ok];
    }
    assert vs[..|vs|] == vs;
  }
}
