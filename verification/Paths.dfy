/**
 What one insertion writes: the path from a node up to the root, and the sub-tree below the node.
 Both are functions of the store that is read, the position, and the new value.
 */
module Paths {
  import opened Field
  import opened Merkle

  datatype Direction = HashWithThisNodeOnLeft | HashWithThisNodeOnRight
  datatype PathElement = PathElement(direction: Direction, value: Fr)

  /** Node `i` is at least `levels` levels below the root. */
  predicate Deep(i: nat, levels: nat) {
    i + 1 >= Pow2(levels)
  }

  /** The parent's new hash when node `i` takes the value `v` and its sibling is read from `t`. */
  function HashUp(h: Hasher, t: Nodes, i: nat, v: Fr): Fr
    requires i > 0
  {
    if i % 2 == 0 then h.node(Get(t, i - 1), v) else h.node(v, Get(t, i + 1))
  }

  /** The hash reached `levels` levels above node `i` when that node takes the value `v`. */
  function PathTop(h: Hasher, t: Nodes, i: nat, v: Fr, levels: nat): Fr
    requires Deep(i, levels)
    decreases levels
  {
    if levels == 0 then v else PathTop(h, t, Parent(i), HashUp(h, t, i, v), levels - 1)
  }

  /** The writes that carry the value `v` of node `i` up `levels` levels. */
  function PathUpdates(h: Hasher, t: Nodes, i: nat, v: Fr, levels: nat): Nodes
    requires Deep(i, levels)
    decreases levels
  {
    if levels == 0 then map[i := v] else PathUpdates(h, t, Parent(i), HashUp(h, t, i, v), levels - 1)[i := v]
  }

  /** The nodes a path write touches: a function of the position alone. */
  function PathKeys(i: nat, levels: nat): set<nat>
    requires Deep(i, levels)
    decreases levels
  {
    if levels == 0 then {i} else PathKeys(Parent(i), levels - 1) + {i}
  }

  /** The siblings met on the way up, as a membership proof lists them. */
  function SiblingPath(t: Nodes, i: nat, levels: nat): (path: seq<PathElement>)
    requires Deep(i, levels)
    ensures |path| == levels
    decreases levels
  {
    if levels == 0 then [] else
    [if i % 2 == 0 then PathElement(HashWithThisNodeOnLeft, Get(t, i - 1))
     else PathElement(HashWithThisNodeOnRight, Get(t, i + 1))] + SiblingPath(t, Parent(i), levels - 1)
  }

  /** What a verifier does with a membership proof. */
  function FoldPath(h: Hasher, v: Fr, path: seq<PathElement>): Fr
    decreases |path|
  {
    if path == [] then v else
    FoldPath(h,
             if path[0].direction.HashWithThisNodeOnLeft? then h.node(path[0].value, v) else h.node(v, path[0].value),
             path[1..])
  }

  lemma {:induction false} FoldOfSiblingPath(h: Hasher, t: Nodes, i: nat, v: Fr, levels: nat)
    requires Deep(i, levels)
    ensures FoldPath(h, v, SiblingPath(t, i, levels)) == PathTop(h, t, i, v, levels)
    decreases levels
  {
    if levels > 0 {
      var path := SiblingPath(t, i, levels);
      assert path[1..] == SiblingPath(t, Parent(i), levels - 1);
      FoldOfSiblingPath(h, t, Parent(i), HashUp(h, t, i, v), levels - 1);
    }
  }

  lemma {:induction false} PathKeysSpec(h: Hasher, t: Nodes, i: nat, v: Fr, levels: nat)
    requires Deep(i, levels)
    ensures PathUpdates(h, t, i, v, levels).Keys == PathKeys(i, levels)
    ensures forall j :: j in PathKeys(i, levels) ==> j <= i
    ensures i in PathKeys(i, levels) && PathUpdates(h, t, i, v, levels)[i] == v
    decreases levels
  {
    if levels > 0 {
      PathKeysSpec(h, t, Parent(i), HashUp(h, t, i, v), levels - 1);
    }
  }

  /** A path that reaches level zero ends in the root. */
  lemma {:induction false} PathReachesRoot(h: Hasher, t: Nodes, i: nat, v: Fr, levels: nat)
    requires Pow2(levels) - 1 <= i < Pow2(levels + 1) - 1
    ensures 0 in PathUpdates(h, t, i, v, levels)
    ensures PathUpdates(h, t, i, v, levels)[0] == PathTop(h, t, i, v, levels)
    decreases levels
  {
    if levels > 0 {
      PathReachesRoot(h, t, Parent(i), HashUp(h, t, i, v), levels - 1);
    }
  }

  /** Only the siblings along the way are read. */
  lemma {:induction false} PathReadsSiblings(h: Hasher, t: Nodes, t': Nodes, i: nat, v: Fr, levels: nat)
    requires Deep(i, levels)
    requires forall j: nat :: j > 0 && j in PathKeys(i, levels) ==> Get(t, Sibling(j)) == Get(t', Sibling(j))
    ensures PathTop(h, t, i, v, levels) == PathTop(h, t', i, v, levels)
    ensures PathUpdates(h, t, i, v, levels) == PathUpdates(h, t', i, v, levels)
    decreases levels
  {
    if levels > 0 {
      PathKeysSpec(h, t, i, v, levels);
      assert Get(t, Sibling(i)) == Get(t', Sibling(i));
      PathReadsSiblings(h, t, t', Parent(i), HashUp(h, t, i, v), levels - 1);
    }
  }

  /** No sibling of a path node is itself on the path. */
  lemma {:induction false} SiblingsOffPath(i: nat, levels: nat, j: nat)
    requires Deep(i, levels)
    requires j > 0 && j in PathKeys(i, levels)
    ensures Sibling(j) !in PathKeys(i, levels)
    decreases levels
  {
    PathKeysBelow(i, levels);
    if levels > 0 && j != i {
      SiblingsOffPath(Parent(i), levels - 1, j);
    }
  }

  lemma {:induction false} PathKeysBelow(i: nat, levels: nat)
    requires Deep(i, levels)
    ensures forall j :: j in PathKeys(i, levels) ==> j <= i
    ensures levels > 0 ==> forall j :: j in PathKeys(i, levels) && j != i ==> j <= Parent(i)
    decreases levels
  {
    if levels > 0 {
      PathKeysBelow(Parent(i), levels - 1);
    }
  }
}
