/** The helper functions shared by the trees: complete trees, hashing directions, frontier slots. */
module TreeHelpers {
  import opened Field
  import opened Merkle
  import opened Paths
  import opened Grafts

  /** Fills a complete tree from the right, two nodes at a time. */
  method MakeCompleteTree(h: Hasher, height: nat, leaves: seq<Fr>) returns (nodes: array<Fr>)
    requires |leaves| <= Pow2(height)
    ensures fresh(nodes)
    ensures nodes[..] == SubTree(h, height, leaves)
  {
    var nNodes: nat := Pow2(height + 1) - 1;
    var firstLeaf: nat := nNodes - Pow2(height);
    nodes := new Fr[nNodes](i => if firstLeaf <= i < firstLeaf + |leaves| then leaves[i - firstLeaf] else 0);
    CompleteTreeLeaves(h, height, leaves);
    CompleteTreeHashes(h, height, leaves);
    FillInner(h, nodes, firstLeaf, SubTree(h, height, leaves));
  }

  /** The loop over the inner nodes of a tree whose leaves are in place. */
  method FillInner(h: Hasher, nodes: array<Fr>, ghost firstLeaf: nat, ghost sub: seq<Fr>)
    requires nodes.Length == |sub| == 2 * firstLeaf + 1
    requires forall j :: firstLeaf <= j < |sub| ==> nodes[j] == sub[j]
    requires forall j :: 0 <= j < firstLeaf ==> sub[j] == h.node(sub[2 * j + 1], sub[2 * j + 2])
    modifies nodes
    ensures nodes[..] == sub
  {
    var i := 0;
    ghost var row: nat := firstLeaf;  // nodes from here on are done
    while i < nodes.Length - 1
      invariant i + 2 * row == nodes.Length - 1
      invariant forall j :: row <= j < |sub| ==> nodes[j] == sub[j]
    {
      var index := nodes.Length - i - 1;
      row := row - 1;
      assert index == 2 * row + 2 && index / 2 - 1 == row;
      nodes[index / 2 - 1] := h.node(nodes[index - 1], nodes[index]);
      i := i + 2;
    }
  }

  lemma CompleteTreeHashes(h: Hasher, height: nat, leaves: seq<Fr>)
    ensures var sub, first := SubTree(h, height, leaves), Pow2(height) - 1;
            forall j: nat :: j < first ==> 2 * j + 2 < |sub| && sub[j] == h.node(sub[2 * j + 1], sub[2 * j + 2])
  {
    forall j: nat | j < Pow2(height) - 1
      ensures NodeVal(h, height, leaves, j) == h.node(NodeVal(h, height, leaves, 2 * j + 1), NodeVal(h, height, leaves, 2 * j + 2))
    {
      NodeValInner(h, height, leaves, j);
    }
  }

  lemma CompleteTreeLeaves(h: Hasher, height: nat, leaves: seq<Fr>)
    requires |leaves| <= Pow2(height)
    ensures var sub, first := SubTree(h, height, leaves), Pow2(height) - 1;
            forall j: nat :: first <= j < |sub| ==> sub[j] == if j < first + |leaves| then leaves[j - first] else 0
  {
    forall j: nat | Pow2(height) - 1 <= j < Pow2(height + 1) - 1
      ensures NodeVal(h, height, leaves, j) == LeafOrZero(leaves, j + 1 - Pow2(height))
    {
      NodeValLeaf(h, height, leaves, j + 1 - Pow2(height));
    }
  }

  /** `n >> i`. */
  function Shr(n: nat, i: nat): nat {
    if i == 0 then n else Shr(n / 2, i - 1)
  }

  /** The path turns left and right as the bits of `k` say. */
  ghost predicate Directed(path: seq<PathElement>, k: nat) {
    forall i :: 0 <= i < |path| ==>
      path[i].direction == if Shr(k, i) % 2 == 0 then HashWithThisNodeOnRight else HashWithThisNodeOnLeft
  }

  method IndexToDirections(index: nat, height: nat) returns (path: seq<Direction>)
    ensures |path| == height
    ensures forall i :: 0 <= i < height ==>
      path[i] == if Shr(index, i) % 2 == 0 then HashWithThisNodeOnRight else HashWithThisNodeOnLeft
  {
    path := [];
    for i := 0 to height
      invariant |path| == i
      invariant forall j :: 0 <= j < i ==>
        path[j] == if Shr(index, j) % 2 == 0 then HashWithThisNodeOnRight else HashWithThisNodeOnLeft
    {
      if Shr(index, i) % 2 == 0 {
        path := path + [HashWithThisNodeOnRight];
      } else {
        path := path + [HashWithThisNodeOnLeft];
      }
    }
  }

  /** The directions of a stored sibling path are those of the leaf's index. */
  lemma {:induction false} SiblingDirections(t: Nodes, k: nat, levels: nat, i: nat)
    requires k < Pow2(levels) && i < levels
    ensures SiblingPath(t, Pow2(levels) - 1 + k, levels)[i].direction
         == if Shr(k, i) % 2 == 0 then HashWithThisNodeOnRight else HashWithThisNodeOnLeft
    decreases levels
  {
    RowParent(levels, k);
    hide Pow2;
    if i > 0 {
      SiblingDirections(t, k / 2, levels - 1, i - 1);
    }
  }

  lemma RowParent(levels: nat, k: nat)
    requires levels > 0 && k < Pow2(levels)
    ensures k / 2 < Pow2(levels - 1)
    ensures Parent(Pow2(levels) - 1 + k) == Pow2(levels - 1) - 1 + k / 2
    ensures (Pow2(levels) - 1 + k) % 2 == 0 <==> k % 2 == 1
  {
    assert Pow2(levels) == 2 * Pow2(levels - 1);
  }

  /** The exponent of 2 in `n`. */
  function Exponent(n: nat): nat
    requires n > 0
  {
    if n % 2 == 1 then 0 else 1 + Exponent(n / 2)
  }

  lemma {:induction false} ExponentOf(e: nat, q: nat)
    requires q > 0
    ensures Pow2(e) * q > 0
    ensures Exponent(Pow2(e) * q) == e + Exponent(q)
  {
    if e > 0 {
      ExponentOf(e - 1, q);
      var m := Pow2(e - 1) * q;
      assert Pow2(e) * q == 2 * m;
    }
  }

  /** Whether `p` divides out an odd number of times is what the frontier loop tests. */
  lemma OddMultiple(p: nat, q: nat)
    requires p > 0 && q > 0
    ensures p * q >= p
    ensures (p * q - p) % (2 * p) == 0 <==> q % 2 == 1
  {
    var m := 2 * p;
    var r := (q - 1) / 2;
    var x := p * (q - 1);
    assert p * q - p == x;
    if q % 2 == 1 {
      assert q - 1 == 2 * r;
      HalveFactor(p, q - 1);
      Remainder(x, m, r, 0);
    } else {
      assert q - 2 == 2 * r;
      HalveFactor(p, q - 2);
      assert x == p * (q - 2) + p;
      Remainder(x, m, r, p);
    }
  }

  lemma {:induction false} Remainder(a: nat, m: nat, q: nat, r: nat)
    requires a == m * q + r && r < m
    ensures a % m == r
  {
    if q == 0 {
      SmallRemainder(r, m);
    } else {
      assert m * q == m * (q - 1) + m;
      Remainder(a - m, m, q - 1, r);
      DropModulus(a, m);
    }
  }

  lemma SmallRemainder(r: nat, m: nat)
    requires r < m
    ensures r % m == r
  {
  }

  lemma DropModulus(a: nat, m: nat)
    requires a >= m > 0
    ensures (a - m) % m == a % m
  {
    var z := a / m - (a - m) / m - 1;
    assert m * z == (a - m) % m - a % m;
    if z != 0 {
      NonzeroMultiple(m, z);
    }
  }

  lemma NonzeroMultiple(m: int, z: int)
    requires m > 0 && z != 0
    ensures m * z >= m || m * z <= -m
  {
    if z >= 1 {
      assert m * (z - 1) >= 0;
    } else {
      assert m * (-z - 1) >= 0;
    }
  }

  lemma HalveFactor(p: nat, q: nat)
    requires q % 2 == 0
    ensures p * q == (2 * p) * (q / 2)
  {
    var r := q / 2;
    assert q == 2 * r;
    assert p * (2 * r) == (2 * p) * r;
  }

  /** The frontier slot to refresh after adding leaf `leafIndex` is the exponent of 2 in leafIndex + 1. */
  method GetFrontierIndex(leafIndex: nat) returns (index: nat)
    ensures index == Exponent(leafIndex + 1)
  {
    index := 0;
    if leafIndex % 2 == 1 {
      var exp1: nat, pow1: nat, pow2: nat := 1, 2, 4;
      ghost var q: nat := (leafIndex + 1) / 2;
      assert Pow2(1) == 2;
      hide Pow2, Exponent;
      while index == 0
        invariant pow2 == 2 * pow1 && pow1 > 0
        invariant index == 0 ==> Factored(leafIndex + 1, exp1, pow1, q)
        invariant index != 0 ==> index == Exponent(leafIndex + 1)
        decreases index == 0, q
      {
        hide Factored;
        FrontierTest(leafIndex + 1, exp1, pow1, q);
        if (leafIndex + 1 - pow1) % pow2 == 0 {
          index := exp1;
        } else {
          pow1, pow2, exp1, q := pow2, 2 * pow2, exp1 + 1, q / 2;
        }
      }
    }
  }

  /** The loop's view of the next count: 2^`e` times `q`. */
  ghost predicate Factored(n: nat, e: nat, p: nat, q: nat) {
    e >= 1 && q > 0 && p == Pow2(e) && n == p * q
  }

  /** The loop's test stops it at the exponent of 2, and otherwise halves what is left. */
  lemma FrontierTest(n: nat, e: nat, p: nat, q: nat)
    requires Factored(n, e, p, q)
    ensures p > 0 && n >= p && e >= 1 && q > 0
    ensures (n - p) % (2 * p) == 0 ==> n > 0 && Exponent(n) == e
    ensures (n - p) % (2 * p) != 0 ==> q / 2 < q && Factored(n, e + 1, 2 * p, q / 2)
  {
    OddMultiple(p, q);
    if q % 2 == 1 {
      ExponentOf(e, q);
    } else {
      HalveFactor(p, q);
    }
  }
}
