/** How the records of an indexed tree lie in its leaves, and how a batch of values changes both. */
module IndexedSpec {
  import opened Field
  import opened Merkle
  import opened LinkedRecords

  function LeafHash(h: Hasher, rec: IndexedLeaf): Fr {
    h.leaf(rec.value, FromInt(rec.nextIndex), rec.nextValue)
  }

  /** What leaf `i` must hold: the hash of the record with that index, or zero. */
  ghost function HashAt(h: Hasher, r: Records, i: nat): Fr {
    if HasId(r, i) then
      var v :| v in r && r[v].id == i;
      LeafHash(h, r[v])
    else
      0
  }

  lemma HashAtOf(h: Hasher, r: Records, v: Fr)
    requires DistinctIds(r) && v in r
    ensures HashAt(h, r, r[v].id) == LeafHash(h, r[v])
  {
    assert HasId(r, r[v].id);
  }

  ghost predicate RecordLeaf(h: Hasher, leaves: seq<Fr>, r: Records, n: nat, k: nat) {
    LeafOrZero(leaves, k) == if k < n then HashAt(h, r, k) else 0
  }

  /** The leaves are the hashes of the records with an index below `n`, each in its place, and zero elsewhere. */
  ghost predicate HoldsRecords(h: Hasher, leaves: seq<Fr>, r: Records, n: nat) {
    forall k: nat :: RecordLeaf(h, leaves, r, n, k)
  }

  // ---------------------------------------------------------------- batches of values

  /** `vs[i]` is a pad, or is neither stored nor met earlier in the batch. */
  predicate FreshAt(keys: set<Fr>, vs: seq<Fr>, i: nat)
    requires i < |vs|
  {
    vs[i] == 0 || (vs[i] !in keys && vs[i] !in vs[..i])
  }

  /** The nonzero values of the batch are distinct and not yet stored. */
  ghost predicate Admissible(keys: set<Fr>, vs: seq<Fr>) {
    forall i :: 0 <= i < |vs| ==> FreshAt(keys, vs, i)
  }

  lemma NothingIsAdmissible(keys: set<Fr>)
    ensures Admissible(keys, [])
  {
  }

  /** The indices after storing the nonzero values of a batch whose first slot is `first`. */
  function AssignIds(ids: map<Fr, nat>, vs: seq<Fr>, first: nat): map<Fr, nat> {
    if vs == [] then ids else
    var init := AssignIds(ids, vs[..|vs| - 1], first);
    if vs[|vs| - 1] == 0 then init else init[vs[|vs| - 1] := first + |vs| - 1]
  }

  lemma NothingAssigned(ids: map<Fr, nat>, first: nat)
    ensures AssignIds(ids, [], first) == ids
  {
  }

  lemma AssignPush(ids: map<Fr, nat>, vs: seq<Fr>, i: nat, first: nat)
    requires i < |vs|
    ensures AssignIds(ids, vs[..i + 1], first)
         == if vs[i] == 0 then AssignIds(ids, vs[..i], first) else AssignIds(ids, vs[..i], first)[vs[i] := first + i]
  {
    assert vs[..i + 1][..i] == vs[..i];
  }

  lemma {:induction false} AssignSplit(ids: map<Fr, nat>, a: seq<Fr>, b: seq<Fr>, first: nat)
    ensures AssignIds(ids, a + b, first) == AssignIds(AssignIds(ids, a, first), b, first + |a|)
    decreases |b|
  {
    if b == [] {
      assert a + b == a;
    } else {
      assert (a + b)[..|a + b| - 1] == a + b[..|b| - 1];
      AssignSplit(ids, a, b[..|b| - 1], first);
    }
  }

  /** Every value with an index had it before, or got the slot of its place in the batch. */
  lemma {:induction false} AssignedFrom(ids: map<Fr, nat>, vs: seq<Fr>, first: nat, v: Fr) returns (j: nat)
    requires v in AssignIds(ids, vs, first)
    ensures (v in ids && AssignIds(ids, vs, first)[v] == ids[v])
         || (j < |vs| && v != 0 && vs[j] == v && AssignIds(ids, vs, first)[v] == first + j)
  {
    j := 0;
    if vs != [] {
      if v != 0 && vs[|vs| - 1] == v {
        j := |vs| - 1;
      } else {
        j := AssignedFrom(ids, vs[..|vs| - 1], first, v);
      }
    }
  }

  lemma {:induction false} AssignedKeys(ids: map<Fr, nat>, vs: seq<Fr>, first: nat, v: Fr)
    ensures v in AssignIds(ids, vs, first) <==> v in ids || (v != 0 && v in vs)
  {
    if vs != [] {
      AssignedKeys(ids, vs[..|vs| - 1], first, v);
      assert vs == vs[..|vs| - 1] + [vs[|vs| - 1]];
    }
  }

  /** In an admissible batch nothing that had an index loses it. */
  lemma {:induction false} AssignedOld(ids: map<Fr, nat>, vs: seq<Fr>, first: nat, v: Fr)
    requires Admissible(ids.Keys, vs) && v in ids && 0 in ids
    ensures v in AssignIds(ids, vs, first) && AssignIds(ids, vs, first)[v] == ids[v]
  {
    if vs != [] {
      AdmissiblePrefix(ids.Keys, vs, |vs| - 1);
      AssignedOld(ids, vs[..|vs| - 1], first, v);
      assert FreshAt(ids.Keys, vs, |vs| - 1);
    }
  }

  lemma AdmissiblePrefix(keys: set<Fr>, vs: seq<Fr>, i: nat)
    requires Admissible(keys, vs) && i <= |vs|
    ensures Admissible(keys, vs[..i])
  {
    forall j | 0 <= j < i
      ensures FreshAt(keys, vs[..i], j)
    {
      assert FreshAt(keys, vs, j);
      assert vs[..i][..j] == vs[..j];
    }
  }

  /** In an admissible batch each nonzero value ends with the slot of its place. */
  lemma {:induction false} AssignedAt(ids: map<Fr, nat>, vs: seq<Fr>, first: nat, j: nat)
    requires Admissible(ids.Keys, vs) && j < |vs| && vs[j] != 0
    ensures vs[j] in AssignIds(ids, vs, first) && AssignIds(ids, vs, first)[vs[j]] == first + j
  {
    var last := |vs| - 1;
    if j < last {
      AdmissiblePrefix(ids.Keys, vs, last);
      AssignedAt(ids, vs[..last], first, j);
      assert FreshAt(ids.Keys, vs, last);
      assert vs[..last][j] == vs[j];
    }
  }

  /** The assigned indices lie below the slot after the batch. */
  lemma AssignedBelow(ids: map<Fr, nat>, vs: seq<Fr>, first: nat, v: Fr)
    requires forall w :: w in ids ==> ids[w] < first
    requires v in AssignIds(ids, vs, first)
    ensures AssignIds(ids, vs, first)[v] < first + |vs| || (vs == [] && v in ids)
  {
    var j := AssignedFrom(ids, vs, first, v);
  }

  /** After an admissible batch, slot `first + j` belongs to `vs[j]`, or to nobody when that is a pad. */
  lemma SlotOf(h: Hasher, ids: map<Fr, nat>, r: Records, vs: seq<Fr>, first: nat, j: nat)
    requires DistinctIds(r) && Ids(r) == AssignIds(ids, vs, first)
    requires Admissible(ids.Keys, vs) && j < |vs|
    requires forall w :: w in ids ==> ids[w] < first
    ensures vs[j] != 0 ==> vs[j] in r && r[vs[j]].id == first + j
    ensures HashAt(h, r, first + j) == if vs[j] == 0 then 0 else LeafHash(h, r[vs[j]])
  {
    if vs[j] != 0 {
      AssignedAt(ids, vs, first, j);
      assert vs[j] in Ids(r) && Ids(r)[vs[j]] == first + j;
      HashAtOf(h, r, vs[j]);
    } else if HasId(r, first + j) {
      var w :| w in r && r[w].id == first + j;
      assert Ids(r)[w] == first + j;
      var i := AssignedFrom(ids, vs, first, w);
      assert false;
    }
  }

  // ---------------------------------------------------------------- storing one value

  /** Storing past the tree changes one leaf hash: that of the low record, if it is in the tree. */
  lemma StoreChangesLow(h: Hasher, leaves: seq<Fr>, r: Records, n: nat, v: Fr, index: nat, l: Fr)
    requires v !in r && l in r && index >= n
    requires HoldsRecords(h, leaves, r, n) && DistinctIds(r) && DistinctIds(Stored(r, v, index, l))
    ensures var r' := Stored(r, v, index, l);
            HoldsRecords(h, if r[l].id < n then Splice(leaves, r[l].id, [LeafHash(h, r'[l])]) else leaves, r', n)
  {
    var r' := Stored(r, v, index, l);
    var leaves' := if r[l].id < n then Splice(leaves, r[l].id, [LeafHash(h, r'[l])]) else leaves;
    forall k: nat
      ensures RecordLeaf(h, leaves', r', n, k)
    {
      assert RecordLeaf(h, leaves, r, n, k);
      if k < n {
        StoreKeepsHash(h, r, v, index, l, k);
      }
    }
  }

  lemma StoreKeepsHash(h: Hasher, r: Records, v: Fr, index: nat, l: Fr, k: nat)
    requires v !in r && l in r && k != index
    requires DistinctIds(r) && DistinctIds(Stored(r, v, index, l))
    ensures var r' := Stored(r, v, index, l);
            HashAt(h, r', k) == if k == r[l].id then LeafHash(h, r'[l]) else HashAt(h, r, k)
  {
    var r' := Stored(r, v, index, l);
    if k == r[l].id {
      HashAtOf(h, r', l);
    } else if HasId(r, k) {
      var w :| w in r && r[w].id == k;
      HashAtOf(h, r, w);
      HashAtOf(h, r', w);
    } else {
      assert !HasId(r', k);
    }
  }

  // ---------------------------------------------------------------- storing a whole batch, then repairing the tree

  /**
   The leaves while the tree is being repaired after a batch: the low values still `pending`
   have their old hash, everything else below `total` has its new one.
   */
  ghost predicate MixedLeaf(h: Hasher, leaves: seq<Fr>, before: Records, after: Records, total: nat, pending: set<Fr>, k: nat) {
    LeafOrZero(leaves, k) ==
    if k >= total then 0
    else if exists l :: l in pending && l in before && before[l].id == k then HashAt(h, before, k)
    else HashAt(h, after, k)
  }

  ghost predicate MixedLeaves(h: Hasher, leaves: seq<Fr>, before: Records, after: Records, total: nat, pending: set<Fr>) {
    forall k: nat :: MixedLeaf(h, leaves, before, after, total, pending, k)
  }

  lemma RepairOne(h: Hasher, leaves: seq<Fr>, a: Records, b: Records, total: nat, pending: set<Fr>, l: Fr)
    requires MixedLeaves(h, leaves, a, b, total, pending) && DistinctIds(a) && DistinctIds(b)
    requires l in pending && l in a && l in b && b[l].id == a[l].id < total
    ensures MixedLeaves(h, Splice(leaves, b[l].id, [LeafHash(h, b[l])]), a, b, total, pending - {l})
  {
    var leaves' := Splice(leaves, b[l].id, [LeafHash(h, b[l])]);
    HashAtOf(h, b, l);
    forall k: nat
      ensures MixedLeaf(h, leaves', a, b, total, pending - {l}, k)
    {
      assert MixedLeaf(h, leaves, a, b, total, pending, k);
    }
  }

  lemma RepairDone(h: Hasher, leaves: seq<Fr>, a: Records, b: Records, total: nat)
    requires MixedLeaves(h, leaves, a, b, total, {})
    ensures HoldsRecords(h, leaves, b, total)
  {
    forall k: nat
      ensures RecordLeaf(h, leaves, b, total, k)
    {
      assert MixedLeaf(h, leaves, a, b, total, {}, k);
    }
  }

  /** Every low value of the batch, taken before anything is stored. */
  ghost predicate IsLowSet(r: Records, vs: seq<Fr>, lows: set<Fr>) {
    forall l :: l in lows <==> exists v :: v in vs && IsLow(r, v, l)
  }

  /** A record below the old end that is no low value of the batch is left as it was. */
  lemma NotLowIsUntouched(h: Hasher, a: Records, b: Records, vs: seq<Fr>, lows: set<Fr>, first: nat, k: nat)
    requires WellLinked(a) && WellLinked(b) && Ids(b) == AssignIds(Ids(a), vs, first)
    requires Admissible(a.Keys, vs) && IsLowSet(a, vs, lows)
    requires forall w :: w in a ==> a[w].id < first
    requires k < first && !exists l :: l in lows && l in a && a[l].id == k
    ensures HashAt(h, b, k) == HashAt(h, a, k)
  {
    hide WellLinked, IsLow;
    assert DistinctIds(a) && DistinctIds(b) && 0 in a by {
      LinkedIsDistinct(a);
      LinkedIsDistinct(b);
    }
    forall w | w in a
      ensures w in b && b[w].id == a[w].id
    {
      AssignedOld(Ids(a), vs, first, w);
      assert Ids(b)[w] == Ids(a)[w];
    }
    if HasId(a, k) {
      var w :| w in a && a[w].id == k;
      forall x | x in b && x !in a
        ensures !IsLow(a, x, w)
      {
        AssignedKeys(Ids(a), vs, first, x);
      }
      UntouchedRecord(a, b, w);
      HashAtOf(h, a, w);
      HashAtOf(h, b, w);
    } else if HasId(b, k) {
      var w :| w in b && b[w].id == k;
      assert Ids(b)[w] == k;
      var j := AssignedFrom(Ids(a), vs, first, w);
      assert false;
    }
  }

  lemma LinkedIsDistinct(r: Records)
    requires WellLinked(r)
    ensures DistinctIds(r) && 0 in r
  {
  }

  /** Once the batch's own leaves are appended, only the low values' leaves are out of date. */
  lemma RepairStart(h: Hasher, leaves: seq<Fr>, a: Records, b: Records, vs: seq<Fr>, lows: set<Fr>, first: nat, added: seq<Fr>)
    requires HoldsRecords(h, leaves, a, first)
    requires WellLinked(a) && WellLinked(b) && Ids(b) == AssignIds(Ids(a), vs, first)
    requires Admissible(a.Keys, vs) && IsLowSet(a, vs, lows)
    requires forall w :: w in a ==> a[w].id < first
    requires |added| == |vs|
    requires forall j :: 0 <= j < |vs| ==> added[j] == (if vs[j] == 0 || vs[j] !in b then 0 else LeafHash(h, b[vs[j]]))
    ensures MixedLeaves(h, Splice(leaves, first, added), a, b, first + |vs|, lows)
  {
    hide WellLinked, IsLowSet, Admissible, AssignIds, Splice, DistinctIds, HashAt, LeafHash;
    LinkedIsDistinct(b);
    var leaves' := Splice(leaves, first, added);
    assert forall w :: w in Ids(a) ==> Ids(a)[w] < first;
    var total := first + |vs|;
    forall k: nat
      ensures MixedLeaf(h, leaves', a, b, total, lows, k)
    {
      assert RecordLeaf(h, leaves, a, first, k);
      if k < first {
        if !exists l :: l in lows && l in a && a[l].id == k {
          NotLowIsUntouched(h, a, b, vs, lows, first, k);
        }
      } else if k < first + |vs| {
        SlotOf(h, Ids(a), b, vs, first, k - first);
        assert !exists l :: l in lows && l in a && a[l].id == k;
      }
    }
  }

  // ---------------------------------------------------------------- records and stored nodes

  ghost predicate IdsBelow(r: Records, n: nat) {
    forall v :: v in r ==> r[v].id < n
  }

  lemma IdsBelowAfterStore(r: Records, r': Records, v: Fr, index: nat)
    requires IdsBelow(r, index) && Ids(r') == Ids(r)[v := index]
    ensures IdsBelow(r', index + 1)
  {
    forall w | w in r'
      ensures r'[w].id < index + 1
    {
      assert Ids(r')[w] == r'[w].id;
    }
  }

  lemma IdsBelowAfterAssign(r: Records, r': Records, vs: seq<Fr>, first: nat)
    requires IdsBelow(r, first) && Ids(r') == AssignIds(Ids(r), vs, first)
    ensures IdsBelow(r', first + |vs|)
  {
    forall w | w in r'
      ensures r'[w].id < first + |vs|
    {
      assert Ids(r')[w] == r'[w].id;
      AssignedBelow(Ids(r), vs, first, w);
    }
  }

  /** The leaves the records call for, from scratch. */
  ghost function RecordLeaves(h: Hasher, r: Records, n: nat): seq<Fr> {
    seq(n, i requires i >= 0 => HashAt(h, r, i))
  }

  /** A tree that holds the records has the root computed from scratch over the records. */
  lemma RecordsFixRoot(h: Hasher, full: nat, leaves: seq<Fr>, r: Records, n: nat)
    requires HoldsRecords(h, leaves, r, n)
    ensures TreeRoot(h, full, leaves) == TreeRoot(h, full, RecordLeaves(h, r, n))
  {
    var scratch := RecordLeaves(h, r, n);
    forall k: nat
      ensures LeafOrZero(leaves, k) == LeafOrZero(scratch, k)
    {
      assert RecordLeaf(h, leaves, r, n, k);
    }
    Pow2Monotone(1, full + 1);
    NodeValExtensional(h, full, leaves, scratch, 0);
  }
}
