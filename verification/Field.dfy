/** The scalar field of BN254 with its canonical numeric order, and powers of two. */
module Field {

  const MODULUS: int := 21888242871839275222246405745257275088548364400416034343698204186575808495617

  /** A field element, identified with its canonical representative. */
  type Fr = x: int | 0 <= x < MODULUS

  function Add(a: Fr, b: Fr): Fr {
    (a + b) % MODULUS
  }

  /** The base field of the curve, in which every other level of circuits computes. */
  const FQ_MODULUS: int := 21888242871839275222246405745257275088696311157297823662689037894645226208583

  function Sub(a: Fr, b: Fr): Fr {
    (a - b) % MODULUS
  }

  function Mul(a: Fr, b: Fr): Fr {
    (a * b) % MODULUS
  }

  /** F::from for machine integers. */
  function FromInt(n: nat): Fr {
    n % MODULUS
  }

  function Pow2(n: nat): (r: nat)
    ensures r >= 1
  {
    if n == 0 then 1 else 2 * Pow2(n - 1)
  }

  lemma Doubles(n: nat)
    ensures Pow2(n + 1) == 2 * Pow2(n)
  {
  }

  lemma {:induction false} Pow2Add(a: nat, b: nat)
    ensures Pow2(a + b) == Pow2(a) * Pow2(b)
  {
    if a > 0 {
      Pow2Add(a - 1, b);
      assert a + b - 1 == (a - 1) + b;
      assert 2 * (Pow2(a - 1) * Pow2(b)) == (2 * Pow2(a - 1)) * Pow2(b);
    }
  }

  lemma {:induction false} Pow2Monotone(a: nat, b: nat)
    requires a <= b
    ensures Pow2(a) <= Pow2(b)
  {
    if a < b {
      Pow2Monotone(a, b - 1);
    }
  }

  /** The number of leaves in `k` sub-trees of the given height: k * 2^height. */
  function Offset(k: nat, height: nat): nat {
    if k == 0 then 0 else Offset(k - 1, height) + Pow2(height)
  }

  lemma {:induction false} OffsetIsProduct(k: nat, height: nat)
    ensures Offset(k, height) == k * Pow2(height)
  {
    if k > 0 {
      OffsetIsProduct(k - 1, height);
    }
  }

  lemma {:induction false} OffsetAdd(a: nat, b: nat, height: nat)
    ensures Offset(a + b, height) == Offset(a, height) + Offset(b, height)
  {
    if b > 0 {
      OffsetAdd(a, b - 1, height);
      assert a + b - 1 == a + (b - 1);
    }
  }

  lemma OffsetMonotone(a: nat, b: nat, height: nat)
    requires a <= b
    ensures Offset(a, height) <= Offset(b, height)
    ensures a < b ==> Offset(a, height) + Pow2(height) <= Offset(b, height)
  {
    OffsetAdd(a, b - a, height);
  }

  lemma OffsetFull(levels: nat, height: nat)
    ensures Offset(Pow2(levels), height) == Pow2(levels + height)
  {
    OffsetIsProduct(Pow2(levels), height);
    Pow2Add(levels, height);
  }

  lemma {:induction false} OffsetHalf(k: nat, height: nat)
    requires height > 0
    ensures Offset(k, height) == 2 * Offset(k, height - 1)
  {
    if k > 0 {
      OffsetHalf(k - 1, height);
    }
  }
}
