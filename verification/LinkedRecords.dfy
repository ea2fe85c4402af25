/**
 The linked list of leaf records. A record names the next greater value and that value's index;
 the list starts at the zero record and ends where a record names zero.
 The collection of records is a map from the value they are looked up by.
 */
module LinkedRecords {
  import opened Field

  datatype Option<+T> = None | Some(value: T)

  datatype IndexedLeaf = IndexedLeaf(value: Fr, id: nat, nextIndex: nat, nextValue: Fr)

  type Records = map<Fr, IndexedLeaf>

  const ZERO_LEAF := IndexedLeaf(0, 0, 0, 0)

  /** `l` is the greatest value stored below `v`. */
  predicate IsLow(r: Records, v: Fr, l: Fr) {
    && l in r && l < v
    && forall k :: k in r && k < v ==> k <= l
  }

  /** The key of the record that skips over `v`: find below `v`, sort descending, take one. */
  function LowKey(r: Records, v: Fr): (low: Option<Fr>)
    ensures low.Some? ==> IsLow(r, v, low.value)
    ensures low.None? ==> forall k :: k in r ==> k >= v
  {
    if exists l :: l in r && IsLow(r, v, l) then
      LowIsUnique(r, v);
      var l :| l in r && IsLow(r, v, l);
      Some(l)
    else
      LowExists(r, v);
      None
  }

  lemma LowIsUnique(r: Records, v: Fr)
    ensures forall l, m :: IsLow(r, v, l) && IsLow(r, v, m) ==> l == m
  {
  }

  lemma LowExists(r: Records, v: Fr)
    ensures (forall k :: k in r ==> k >= v) || exists l :: l in r && IsLow(r, v, l)
  {
    var below := set k | k in r && k < v;
    if below != {} {
      var m := Greatest(below);
      forall k | k in r && k < v
        ensures k <= m
      {
        assert k in below;
      }
      assert IsLow(r, v, m);
    } else {
      forall k | k in r
        ensures k >= v
      {
        assert k !in below;
      }
    }
  }

  lemma Greatest(s: set<Fr>) returns (m: Fr)
    requires s != {}
    ensures m in s && forall k :: k in s ==> k <= m
  {
    m :| m in s;
    var rest := s - {m};
    forall k | k in s
      ensures k == m || k in rest
    {
    }
    if rest != {} {
      var m' := Greatest(rest);
      m := if m' > m then m' else m;
    }
  }

  /** `n` is the next value above `v` among `keys`, or zero when there is none. */
  ghost predicate IsNext(keys: set<Fr>, v: Fr, n: Fr) {
    && n in keys
    && if n == 0 then forall k :: k in keys ==> k <= v
       else v < n && forall k :: k in keys && v < k ==> n <= k
  }

  ghost predicate LinkOk(r: Records, v: Fr)
    requires v in r
  {
    && r[v].value == v
    && IsNext(r.Keys, v, r[v].nextValue)
    && r[v].nextIndex == r[r[v].nextValue].id
  }

  ghost predicate DistinctIds(r: Records) {
    forall v, w :: v in r && w in r && r[v].id == r[w].id ==> v == w
  }

  /** One sorted list through all the records, from the zero record. */
  ghost predicate WellLinked(r: Records) {
    && 0 in r && r[0].id == 0
    && DistinctIds(r)
    && forall v :: v in r ==> LinkOk(r, v)
  }

  /** The low record of an absent value skips over it; that of a stored value links to it. */
  lemma LowRecordSkips(r: Records, v: Fr)
    requires WellLinked(r)
    ensures LowKey(r, v).None? <==> v == 0
    ensures LowKey(r, v).Some? ==> LowKey(r, v).value in r && LowKey(r, v).value < v
    ensures LowKey(r, v).Some? ==>
      var low := r[LowKey(r, v).value];
      && low.value == LowKey(r, v).value
      && (v < low.nextValue || low.nextValue == 0 <==> v !in r)
      && (v in r ==> low.nextValue == v)
  {
    hide LowKey;
    match LowKey(r, v)
    case None =>
      assert 0 in r;
    case Some(l) =>
      assert LinkOk(r, l);
      LowLinkSkips(r, v, l);
  }

  lemma LowLinkSkips(r: Records, v: Fr, l: Fr)
    requires IsLow(r, v, l) && LinkOk(r, l)
    ensures v < r[l].nextValue || r[l].nextValue == 0 <==> v !in r
    ensures v in r ==> r[l].nextValue == v
  {
  }

  /** The values and the indices they were given. */
  function Ids(r: Records): (ids: map<Fr, nat>)
    ensures ids.Keys == r.Keys
  {
    map v | v in r :: r[v].id
  }

  lemma SameRecord(a: Records, b: Records, v: Fr)
    requires a.Keys == b.Keys && v in a && LinkOk(a, v) && LinkOk(b, v)
    requires forall w :: w in a ==> a[w].id == b[w].id
    ensures a[v] == b[v]
  {
    assert a[v].nextValue == b[v].nextValue;
  }

  /** The values and their indices fix every record: the order of insertion leaves no trace. */
  lemma LinksAreCanonical(a: Records, b: Records)
    requires WellLinked(a) && WellLinked(b) && Ids(a) == Ids(b)
    ensures a == b
  {
    hide LinkOk;
    assert a.Keys == b.Keys;
    assert forall w :: w in a ==> a[w].id == b[w].id by {
      assert forall w :: w in a ==> Ids(a)[w] == Ids(b)[w];
    }
    forall v | v in a
      ensures a[v] == b[v]
    {
      SameRecord(a, b, v);
    }
  }

  /** A new record takes over its predecessor's link, and the predecessor links to it. */
  function Stored(r: Records, v: Fr, index: nat, l: Fr): Records
    requires l in r
  {
    r[v := IndexedLeaf(v, index, r[l].nextIndex, r[l].nextValue)]
     [l := r[l].(nextIndex := index, nextValue := v)]
  }

  /** Inserting `v` just above `l` changes only the successors of `v` and `l`. */
  lemma NextAfterInsert(keys: set<Fr>, v: Fr, l: Fr, nl: Fr, w: Fr, nw: Fr)
    requires v !in keys && l in keys && l < v && forall k :: k in keys && k < v ==> k <= l
    requires IsNext(keys, l, nl)
    ensures IsNext(keys + {v}, v, nl) && IsNext(keys + {v}, l, v)
    ensures w in keys && w != l && IsNext(keys, w, nw) ==> IsNext(keys + {v}, w, nw)
  {
  }

  lemma StoredLink(r: Records, v: Fr, index: nat, l: Fr, w: Fr)
    requires v !in r && IsLow(r, v, l) && w in Stored(r, v, index, l)
    requires LinkOk(r, l) && (w != v ==> w in r && LinkOk(r, w))
    ensures LinkOk(Stored(r, v, index, l), w)
  {
    var r' := Stored(r, v, index, l);
    assert r'.Keys == r.Keys + {v};
    NextAfterInsert(r.Keys, v, l, r[l].nextValue, w, if w == v then 0 else r[w].nextValue);
    hide IsNext, IsLow;
    LinkTarget(r, l);
    if w != v {
      LinkTarget(r, w);
    }
  }

  lemma LinkTarget(r: Records, w: Fr)
    requires w in r && LinkOk(r, w)
    ensures r[w].nextValue in r
  {
  }

  lemma StoredIds(r: Records, v: Fr, index: nat, l: Fr)
    requires v !in r && l in r
    ensures Ids(Stored(r, v, index, l)) == Ids(r)[v := index]
    ensures Stored(r, v, index, l).Keys == r.Keys + {v}
  {
  }

  /** Distinctness of indices, read from the assignment of indices. */
  lemma DistinctAfterInsert(r: Records, r': Records, v: Fr, index: nat)
    requires DistinctIds(r) && v !in r && Ids(r') == Ids(r)[v := index]
    requires forall w :: w in r ==> r[w].id != index
    ensures DistinctIds(r')
  {
    forall x, y | x in r' && y in r' && r'[x].id == r'[y].id
      ensures x == y
    {
      assert Ids(r')[x] == r'[x].id && Ids(r')[y] == r'[y].id;
    }
  }

  lemma StoredIsLinked(r: Records, v: Fr, index: nat, l: Fr)
    requires WellLinked(r) && v !in r && IsLow(r, v, l)
    requires forall w :: w in r ==> r[w].id != index
    ensures WellLinked(Stored(r, v, index, l))
    ensures Ids(Stored(r, v, index, l)) == Ids(r)[v := index]
  {
    hide LinkOk, DistinctIds, Stored;
    var r' := Stored(r, v, index, l);
    StoredIds(r, v, index, l);
    DistinctAfterInsert(r, r', v, index);
    forall w | w in r'
      ensures LinkOk(r', w)
    {
      StoredLink(r, v, index, l, w);
    }
    assert r'[0].id == Ids(r')[0];
    assert Ids(r)[0] == 0;
  }

  /** A record whose gap receives no new value keeps its links. */
  lemma UntouchedRecord(a: Records, b: Records, w: Fr)
    requires WellLinked(a) && WellLinked(b) && w in a
    requires forall k :: k in a ==> k in b && b[k].id == a[k].id
    requires forall k :: k in b && k !in a ==> !IsLow(a, k, w)
    ensures b[w] == a[w]
  {
    assert LinkOk(a, w) && LinkOk(b, w);
    if b[w].nextValue != a[w].nextValue {
      assert false;
    }
  }

  lemma RecordKey(r: Records, v: Fr)
    requires WellLinked(r) && v in r
    ensures r[v].value == v
  {
    assert LinkOk(r, v);
  }

  ghost predicate HasId(r: Records, i: nat) {
    exists v :: v in r && r[v].id == i
  }

  /** The indices in use are exactly 0 .. len-1. */
  ghost predicate DenseIds(r: Records) {
    forall i: nat :: HasId(r, i) <==> i < |r|
  }

  lemma StoredIsDense(r: Records, v: Fr, l: Fr)
    requires DenseIds(r) && v !in r && l in r
    ensures DenseIds(Stored(r, v, |r|, l)) && |Stored(r, v, |r|, l)| == |r| + 1
  {
    hide Stored;
    var r' := Stored(r, v, |r|, l);
    StoredIds(r, v, |r|, l);
    assert |r'.Keys| == |r.Keys| + 1;
    forall i: nat
      ensures HasId(r', i) <==> i < |r| + 1
    {
      if w :| w in r' && r'[w].id == i {
        assert Ids(r')[w] == i;
        assert w != v ==> HasId(r, i);
      }
      if i < |r| {
        assert HasId(r, i);
        var w :| w in r && r[w].id == i;
        assert Ids(r')[w] == i;
      }
      assert Ids(r')[v] == |r|;
    }
  }

  // ---------------------------------------------------------------- walking the list

  /** The values met from `v` on, following the links. */
  ghost function Walk(r: Records, v: Fr): seq<Fr>
    requires WellLinked(r) && v in r
    decreases MODULUS - v
  {
    assert LinkOk(r, v);
    [v] + if r[v].nextValue == 0 then [] else Walk(r, r[v].nextValue)
  }

  ghost predicate Ascending(s: seq<Fr>) {
    forall i, j :: 0 <= i < j < |s| ==> s[i] < s[j]
  }

  lemma AscendingCons(v: Fr, rest: seq<Fr>)
    requires Ascending(rest) && (rest != [] ==> v < rest[0])
    ensures Ascending([v] + rest)
  {
  }

  lemma {:induction false} WalkIsSorted(r: Records, v: Fr)
    requires WellLinked(r) && v in r
    ensures Ascending(Walk(r, v)) && Walk(r, v)[0] == v
    ensures forall k :: k in Walk(r, v) <==> k in r && k >= v
    decreases MODULUS - v
  {
    assert LinkOk(r, v);
    var n := r[v].nextValue;
    if n != 0 {
      WalkIsSorted(r, n);
      var rest := Walk(r, n);
      AscendingCons(v, rest);
      hide Walk, WellLinked;
      forall k
        ensures k in [v] + rest <==> k in r && k >= v
      {
        assert k in [v] + rest <==> k == v || k in rest;
      }
    }
  }

  /** The list from the zero record visits every stored value exactly once, in ascending order. */
  lemma ListVisitsEveryValue(r: Records)
    requires WellLinked(r)
    ensures Ascending(Walk(r, 0))
    ensures (set k | k in Walk(r, 0)) == r.Keys
  {
    WalkIsSorted(r, 0);
  }

  lemma OnlyZeroIsLinked()
    ensures WellLinked(map[0 := ZERO_LEAF])
    ensures Ids(map[0 := ZERO_LEAF]) == map[0 := 0]
  {
    assert LinkOk(map[0 := ZERO_LEAF], 0);
  }
}
