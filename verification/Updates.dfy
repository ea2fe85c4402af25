/** Batches of node writes that are issued concurrently. */
module Updates {
  import opened Field
  import opened Merkle
  import opened Paths
  import opened Grafts

  datatype Update = Update(index: nat, value: Fr)

  /** The effect of a batch of writes done in order. */
  function AsMap(us: seq<Update>): Nodes {
    if us == [] then map[] else
    var last := us[|us| - 1];
    AsMap(us[..|us| - 1])[last.index := last.value]
  }

  ghost predicate Distinct(us: seq<Update>) {
    forall a, b :: 0 <= a < b < |us| ==> us[a].index != us[b].index
  }

  /** Every node written is at most `top`. */
  ghost predicate UpTo(us: seq<Update>, top: nat) {
    forall a :: 0 <= a < |us| ==> us[a].index <= top
  }

  lemma AsMapPush(us: seq<Update>, u: Update)
    ensures AsMap(us + [u]) == AsMap(us)[u.index := u.value]
  {
    assert (us + [u])[..|us|] == us;
  }

  /** Writes to distinct nodes commute: each node gets its one value, whatever the order. */
  lemma {:induction false} AsMapAt(us: seq<Update>, k: nat)
    requires Distinct(us) && k < |us|
    ensures us[k].index in AsMap(us) && AsMap(us)[us[k].index] == us[k].value
  {
    var init := us[..|us| - 1];
    if k < |us| - 1 {
      AsMapAt(init, k);
      assert init[k] == us[k];
    }
  }

  lemma {:induction false} AsMapKeys(us: seq<Update>, j: nat)
    ensures j in AsMap(us) ==> exists k :: 0 <= k < |us| && us[k].index == j
  {
    if us != [] {
      AsMapKeys(us[..|us| - 1], j);
    }
  }

  /** A map that agrees with every write of a distinct batch, and with `t` elsewhere, is the batch's effect. */
  lemma WrittenIs(t: Nodes, us: seq<Update>, t': Nodes)
    requires Distinct(us)
    requires forall k :: 0 <= k < |us| ==> us[k].index in t' && t'[us[k].index] == us[k].value
    requires forall j :: j in t ==> j in t'
    requires forall j :: j in t' ==> (exists k :: 0 <= k < |us| && us[k].index == j) || (j in t && t'[j] == t[j])
    ensures t' == t + AsMap(us)
  {
    forall j
      ensures j in t' <==> j in t + AsMap(us)
      ensures j in t' ==> t'[j] == (t + AsMap(us))[j]
    {
      if j in t' {
        if k :| 0 <= k < |us| && us[k].index == j {
          AsMapAt(us, k);
        } else {
          AsMapKeys(us, j);
        }
      }
      AsMapKeys(us, j);
    }
  }

  // ---------------------------------------------------------------- gathering a path's writes

  /** The loop up a path has reached node `n` with `hash`, `left` levels to go, and gathered `us`. */
  ghost predicate PathSoFar(h: Hasher, view: Nodes, i: nat, v: Fr, levels: nat,
                            n: nat, hash: Fr, left: nat, us: seq<Update>)
    requires Deep(i, levels)
  {
    && Deep(n, left)
    && PathTop(h, view, n, hash, left) == PathTop(h, view, i, v, levels)
    && PathUpdates(h, view, n, hash, left) + AsMap(us) == PathUpdates(h, view, i, v, levels)
    && n in AsMap(us) && AsMap(us)[n] == hash
    && Distinct(us) && UpTo(us, i)
    && forall a :: 0 <= a < |us| ==> n <= us[a].index
  }

  lemma PathStart(h: Hasher, view: Nodes, i: nat, v: Fr, levels: nat)
    requires Deep(i, levels)
    ensures PathSoFar(h, view, i, v, levels, i, v, levels, [Update(i, v)])
  {
    AsMapPush([], Update(i, v));
    assert [] + [Update(i, v)] == [Update(i, v)];
    PathKeysSpec(h, view, i, v, levels);
  }

  lemma AsMapBelow(us: seq<Update>, j: nat)
    requires forall a :: 0 <= a < |us| ==> j < us[a].index
    ensures j !in AsMap(us)
  {
    AsMapKeys(us, j);
  }

  lemma PathStep(h: Hasher, view: Nodes, n: nat, hash: Fr, left: nat, m: Nodes)
    requires Deep(n, left) && left > 0 && n > 0
    requires n in m && m[n] == hash && Parent(n) !in m
    ensures var p, hash' := Parent(n), HashUp(h, view, n, hash);
            && Deep(p, left - 1)
            && PathTop(h, view, p, hash', left - 1) == PathTop(h, view, n, hash, left)
            && PathUpdates(h, view, p, hash', left - 1) + m[p := hash'] == PathUpdates(h, view, n, hash, left) + m
  {
    PathKeysSpec(h, view, Parent(n), HashUp(h, view, n, hash), left - 1);
  }

  lemma PathPush(h: Hasher, view: Nodes, i: nat, v: Fr, levels: nat, n: nat, hash: Fr, left: nat, us: seq<Update>)
    requires Deep(i, levels) && left > 0 && n > 0
    requires PathSoFar(h, view, i, v, levels, n, hash, left, us)
    ensures PathSoFar(h, view, i, v, levels, Parent(n), HashUp(h, view, n, hash), left - 1,
                      us + [Update(Parent(n), HashUp(h, view, n, hash))])
  {
    var u := Update(Parent(n), HashUp(h, view, n, hash));
    AsMapBelow(us, u.index);
    AsMapPush(us, u);
    PathStep(h, view, n, hash, left, AsMap(us));
  }

  lemma NotAtRoot(h: Hasher, view: Nodes, i: nat, v: Fr, levels: nat, n: nat, hash: Fr, left: nat, us: seq<Update>)
    requires Deep(i, levels) && left > 0 && PathSoFar(h, view, i, v, levels, n, hash, left, us)
    ensures n > 0
  {
  }

  lemma PathWrites(h: Hasher, view: Nodes, i: nat, v: Fr, levels: nat, n: nat, hash: Fr, us: seq<Update>)
    requires Deep(i, levels) && PathSoFar(h, view, i, v, levels, n, hash, 0, us)
    ensures Distinct(us) && UpTo(us, i)
  {
  }

  lemma PathEnd(h: Hasher, view: Nodes, i: nat, v: Fr, levels: nat, n: nat, hash: Fr, us: seq<Update>)
    requires Deep(i, levels) && PathSoFar(h, view, i, v, levels, n, hash, 0, us)
    ensures hash == PathTop(h, view, i, v, levels)
    ensures AsMap(us) == PathUpdates(h, view, i, v, levels)
  {
    assert map[n := hash] + AsMap(us) == AsMap(us);
  }

  // ---------------------------------------------------------------- gathering a sub-tree's writes

  /** The nodes 1 .. s of the sub-tree have been added to the writes `us0`. */
  ghost predicate GraftSoFar(i: nat, sub: seq<Fr>, s: nat, us0: seq<Update>, us: seq<Update>)
    requires s < |sub|
  {
    && AsMap(us) == AsMap(us0) + GraftMap(i, sub, s + 1)
    && Distinct(us) && UpTo(us, Graft(i, s))
  }

  lemma GraftPush(i: nat, sub: seq<Fr>, s: nat, us0: seq<Update>, us: seq<Update>)
    requires s + 1 < |sub| && GraftSoFar(i, sub, s, us0, us)
    ensures GraftSoFar(i, sub, s + 1, us0, us + [Update(Graft(i, s + 1), sub[s + 1])])
  {
    AsMapPush(us, Update(Graft(i, s + 1), sub[s + 1]));
    GraftMonotone(i, s, s + 1);
  }
}
