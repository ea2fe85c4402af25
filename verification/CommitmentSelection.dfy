/**
 Selecting one or two commitments to pay a value: the change is to be as small as possible, and
 on equal change two small commitments go before one large one. Values are field elements and the
 arithmetic is that of the field: it is proved exactly when a choice is found, and, where no two values
 below the target sum past the field, exactly when it is the best one.
 */
module CommitmentSelection {
  import opened Field
  import opened Sorting

  datatype Preimage = Preimage(value: Fr, tokenId: Fr, slotId: Fr, salt: Fr, publicKey: Fr)

  const DEFAULT_PREIMAGE := Preimage(0, 0, 0, 0, 0)
  const MAX_POSSIBLE_COMMITMENTS := 2
  const HALF: Fr := (MODULUS - 1) / 2

  datatype Error = NoCommitments | NotEnough | NoMatch | NoSubset

  datatype Result<+T> = Ok(value: T) | Err(error: Error) {
    predicate IsFailure() {
      Err?
    }
    function PropagateFailure<U>(): Result<U>
      requires Err?
    {
      Err(error)
    }
    function Extract(): T
      requires Ok?
    {
      value
    }
  }

  // ---------------------------------------------------------------- sums and sorting

  function FieldSum(s: seq<Preimage>): Fr {
    if s == [] then 0 else Add(FieldSum(s[..|s| - 1]), s[|s| - 1].value)
  }

  /** The values can be added up without leaving the field. */
  ghost predicate NoWrap(s: seq<Preimage>) {
    SumBy(s, Value) < MODULUS
  }

  /** No two values add up past the field. */
  ghost predicate PairsFit(s: seq<Preimage>) {
    forall i, j :: 0 <= i < j < |s| ==> s[i].value + s[j].value < MODULUS
  }

  /** No two values below the target add up past the field. */
  ghost predicate SmallPairsFit(s: seq<Preimage>, target: Fr) {
    forall i, j :: 0 <= i < j < |s| && s[i].value < target && s[j].value < target ==> s[i].value + s[j].value < MODULUS
  }

  ghost predicate Sorted(s: seq<Preimage>) {
    forall i, j :: 0 <= i <= j < |s| ==> s[i].value <= s[j].value
  }

  function Value(p: Preimage): int {
    p.value
  }

  function SortByValue(s: seq<Preimage>): (r: seq<Preimage>)
    ensures multiset(r) == multiset(s) && |r| == |s| && Sorted(r)
  {
    var r := SortBy(s, Value);
    ByValueIsSorted(r);
    r
  }

  lemma ByValueIsSorted(s: seq<Preimage>)
    requires SortedBy(s, Value)
    ensures Sorted(s)
  {
    forall i, j | 0 <= i <= j < |s|
      ensures s[i].value <= s[j].value
    {
      assert Value(s[i]) <= Value(s[j]);
    }
  }

  lemma SumBoundsElement(s: seq<Preimage>, i: nat)
    requires i < |s|
    ensures s[i].value <= SumBy(s, Value)
  {
    SumRemove(s, i, Value);
    SumIsNonNegative(RemoveAt(s, i), Value);
  }

  lemma {:induction false} SumBoundsPair(s: seq<Preimage>, i: nat, j: nat)
    requires i < j < |s|
    ensures s[i].value + s[j].value <= SumBy(s, Value)
  {
    if j < |s| - 1 {
      SumBoundsPair(s[..|s| - 1], i, j);
    } else {
      SumBoundsElement(s[..|s| - 1], i);
    }
  }

  lemma NoWrapPairsFit(s: seq<Preimage>)
    requires NoWrap(s)
    ensures PairsFit(s)
  {
    forall i, j | 0 <= i < j < |s|
      ensures s[i].value + s[j].value < MODULUS
    {
      SumBoundsPair(s, i, j);
    }
  }

  lemma PairsFitAreSmall(s: seq<Preimage>, target: Fr)
    requires PairsFit(s)
    ensures SmallPairsFit(s, target)
  {
  }

  lemma {:induction false} FieldSumIsSum(s: seq<Preimage>)
    requires NoWrap(s)
    ensures FieldSum(s) == SumBy(s, Value)
  {
    if s != [] {
      FieldSumIsSum(s[..|s| - 1]);
    }
  }

  // ---------------------------------------------------------------- choices

  /** One commitment, or two different ones; equal commitments count by multiplicity. */
  datatype Choice = One(x: Preimage) | Two(x: Preimage, y: Preimage) {
    ghost function Worth(): nat {
      match this
      case One(x) => x.value
      case Two(x, y) => x.value + y.value
    }

    ghost predicate From(available: multiset<Preimage>) {
      match this
      case One(x) => x in available
      case Two(x, y) => multiset{x, y} <= available
    }

    /** Two commitments each too small alone. */
    ghost predicate IsDust(target: Fr) {
      Two? && x.value < target && y.value < target
    }

    function AsPair(): (Preimage, Preimage) {
      match this
      case One(x) => (x, DEFAULT_PREIMAGE)
      case Two(x, y) => (x, y)
    }

    function AsSeq(): seq<Preimage> {
      match this
      case One(x) => [x]
      case Two(x, y) => [x, y]
    }
  }

  /** `c` covers the target with the least change, and is a pair of small ones if any such pair is as good. */
  ghost predicate IsBestChoice(available: multiset<Preimage>, target: Fr, c: Choice) {
    && c.From(available) && c.Worth() >= target
    && (forall d: Choice :: d.From(available) && d.Worth() >= target ==> c.Worth() <= d.Worth())
    && ((exists d: Choice :: d.From(available) && d.IsDust(target) && d.Worth() == c.Worth()) ==> c.IsDust(target))
  }

  ghost predicate Coverable(available: multiset<Preimage>, target: Fr) {
    exists d: Choice :: d.From(available) && d.Worth() >= target
  }

  lemma PairAt(s: seq<Preimage>, i: nat, j: nat)
    requires i < j < |s|
    ensures multiset{s[i], s[j]} <= multiset(s)
  {
    assert s == s[..i] + [s[i]] + s[i + 1..j] + [s[j]] + s[j + 1..];
  }

  lemma PairPositions(s: seq<Preimage>, x: Preimage, y: Preimage) returns (i: nat, j: nat)
    requires multiset{x, y} <= multiset(s)
    ensures i < j < |s| && multiset{s[i], s[j]} == multiset{x, y}
  {
    assert x in multiset(s);
    var p := PositionOf(s, x);
    var rest := RemoveAt(s, p);
    RemoveAtMultiset(s, p);
    assert multiset{x, y} == multiset{x} + multiset{y};
    assert y in multiset(rest);
    var q := PositionOf(rest, y);
    if q < p {
      i, j := q, p;
    } else {
      i, j := p, q + 1;
    }
  }

  // ---------------------------------------------------------------- the smallest number that can cover

  /** No choice is worth more than the largest one or two values of its size. */
  lemma TopTwoBound(s: seq<Preimage>, d: Choice)
    requires Sorted(s) && d.From(multiset(s))
    ensures d.One? ==> |s| >= 1 && d.Worth() <= s[|s| - 1].value
    ensures d.Two? ==> |s| >= 2 && d.Worth() <= s[|s| - 1].value + s[|s| - 2].value
  {
    match d
    case One(x) =>
      var i := PositionOf(s, x);
      assert s[i].value <= s[|s| - 1].value;
    case Two(x, y) =>
      var i, j := PairPositions(s, x, y);
      SamePair(s[i], s[j], x, y);
      assert s[i].value <= s[|s| - 2].value && s[j].value <= s[|s| - 1].value;
  }

  lemma SamePair(a: Preimage, b: Preimage, x: Preimage, y: Preimage)
    requires multiset{a, b} == multiset{x, y}
    ensures (a == x && b == y) || (a == y && b == x)
  {
    assert a in multiset{x, y};
    if a == x {
      assert multiset{a, b} - multiset{a} == multiset{b} && multiset{x, y} - multiset{x} == multiset{y};
      assert b in multiset{y};
    } else {
      assert multiset{a, b} - multiset{a} == multiset{b} && multiset{x, y} - multiset{y} == multiset{x};
      assert b in multiset{x};
    }
  }

  ghost predicate OneCovers(available: multiset<Preimage>, target: Fr) {
    exists x :: x in available && x.value >= target
  }

  lemma PairsFitPermuted(s: seq<Preimage>, t: seq<Preimage>, target: Fr)
    requires multiset(s) == multiset(t)
    ensures PairsFit(s) ==> PairsFit(t)
    ensures SmallPairsFit(s, target) ==> SmallPairsFit(t, target)
  {
    forall i, j | 0 <= i < j < |t|
      ensures PairsFit(s) ==> t[i].value + t[j].value < MODULUS
      ensures SmallPairsFit(s, target) && t[i].value < target && t[j].value < target ==> t[i].value + t[j].value < MODULUS
    {
      PairAt(t, i, j);
      var p, q := PairPositions(s, t[i], t[j]);
      SamePair(s[p], s[q], t[i], t[j]);
    }
  }

  /** One if a single commitment reaches the target, else two if some pair does, else an error. */
  ghost predicate IsMinimum(available: multiset<Preimage>, target: Fr, r: Result<nat>) {
    if !Coverable(available, target) then r.Err?
    else r == if OneCovers(available, target) then Ok(1) else Ok(2)
  }

  /**
   The answer is right if and only if one commitment covers or no two sum past the field. Otherwise
   the sum of the two largest wraps to below the target, and two that cover are taken for too few.
   */
  method CalculateMinimumCommitments(commitments: seq<Preimage>, target: Fr) returns (r: Result<nat>)
    ensures IsMinimum(multiset(commitments), target, r) <==> OneCovers(multiset(commitments), target) || PairsFit(commitments)
    ensures !OneCovers(multiset(commitments), target) && !PairsFit(commitments) ==> r.Err? && Coverable(multiset(commitments), target)
  {
    hide SortByValue, PairsFit, SmallPairsFit, Sorted, Add, SumBy, SortBy, IsMinimum, OneCovers, Coverable;
    var s := SortByValue(commitments);
    PairsFitPermuted(commitments, s, target);
    PairsFitPermuted(s, commitments, target);
    MinimumOf(s, target);
    var n := |s|;
    var sum: Fr, count: nat := 0, 0;
    while count < MAX_POSSIBLE_COMMITMENTS && count < n
      invariant count <= 2 && count <= n
      invariant count == 0 ==> sum == 0
      invariant count == 1 ==> sum == s[n - 1].value < target
      invariant count == 2 ==> s[n - 1].value < target && Add(s[n - 1].value, s[n - 2].value) < target
    {
      AddZero(s[n - 1 - count].value);
      sum := Add(sum, s[n - 1 - count].value);
      count := count + 1;
      if sum >= target {
        if count == 2 {
          TopTwoReach(s, target);
        }
        MinimumByTop(s, target, Ok(count));
        return Ok(count);
      }
    }
    r := Err(NotEnough);
    if n >= 2 {
      TopTwoReach(s, target);
    } else {
      FewFit(s);
    }
    if PairsFit(s) {
      MinimumByTop(s, target, r);
    } else {
      NotMinimum(multiset(s), target, r);
    }
  }

  lemma AddZero(a: Fr)
    ensures Add(0, a) == a
  {
  }

  lemma FewFit(s: seq<Preimage>)
    requires |s| < 2
    ensures PairsFit(s)
  {
  }

  lemma NotMinimum(available: multiset<Preimage>, target: Fr, r: Result<nat>)
    requires Coverable(available, target) && r.Err?
    ensures !IsMinimum(available, target, r)
  {
  }

  /** Of values below the target, the two largest decide whether a pair leaves the field; a sum that does is below the target. */
  lemma TopTwoReach(s: seq<Preimage>, target: Fr)
    requires |s| >= 2 && Sorted(s) && s[|s| - 1].value < target
    ensures var sum := s[|s| - 1].value + s[|s| - 2].value;
            && (PairsFit(s) <==> sum < MODULUS)
            && (Add(s[|s| - 1].value, s[|s| - 2].value) >= target <==> target <= sum < MODULUS)
            && (sum >= MODULUS ==> sum >= target)
  {
    forall i, j | 0 <= i < j < |s|
      ensures s[i].value <= s[|s| - 2].value && s[j].value <= s[|s| - 1].value
    {
    }
  }

  lemma MinimumByTop(s: seq<Preimage>, target: Fr, r: Result<nat>)
    requires Sorted(s)
    requires if |s| >= 1 && s[|s| - 1].value >= target then r == Ok(1)
             else if |s| >= 2 && s[|s| - 1].value + s[|s| - 2].value >= target then r == Ok(2)
             else r.Err?
    ensures IsMinimum(multiset(s), target, r)
  {
    MinimumOf(s, target);
    hide OneCovers, Coverable, Sorted;
  }

  lemma MinimumOf(s: seq<Preimage>, target: Fr)
    requires Sorted(s)
    ensures OneCovers(multiset(s), target) <==> |s| >= 1 && s[|s| - 1].value >= target
    ensures Coverable(multiset(s), target) <==>
              || OneCovers(multiset(s), target)
              || (|s| >= 2 && s[|s| - 1].value + s[|s| - 2].value >= target)
  {
    hide Coverable, OneCovers, Sorted;
    OneCoversByTop(s, target);
    CoverableByTop(s, target);
  }

  lemma OneCoversByTop(s: seq<Preimage>, target: Fr)
    requires Sorted(s)
    ensures OneCovers(multiset(s), target) <==> |s| >= 1 && s[|s| - 1].value >= target
  {
    forall x | x in multiset(s)
      ensures |s| >= 1 && x.value <= s[|s| - 1].value
    {
      TopTwoBound(s, One(x));
    }
    if |s| >= 1 && s[|s| - 1].value >= target {
      assert s[|s| - 1] in multiset(s);
    }
  }

  lemma CoverableByTop(s: seq<Preimage>, target: Fr)
    requires Sorted(s)
    ensures Coverable(multiset(s), target) <==>
              || (|s| >= 1 && s[|s| - 1].value >= target)
              || (|s| >= 2 && s[|s| - 1].value + s[|s| - 2].value >= target)
  {
    forall d: Choice | d.From(multiset(s)) && d.Worth() >= target
      ensures (|s| >= 1 && s[|s| - 1].value >= target) || (|s| >= 2 && s[|s| - 1].value + s[|s| - 2].value >= target)
    {
      TopTwoBound(s, d);
    }
    if |s| >= 1 && s[|s| - 1].value >= target {
      var d := One(s[|s| - 1]);
      assert s[|s| - 1] in multiset(s);
      assert d.From(multiset(s)) && d.Worth() >= target;
    }
    if |s| >= 2 && s[|s| - 1].value + s[|s| - 2].value >= target {
      PairAt(s, |s| - 2, |s| - 1);
      var d := Two(s[|s| - 2], s[|s| - 1]);
      assert d.From(multiset(s)) && d.Worth() >= target;
    }
  }

  // ---------------------------------------------------------------- two pointers

  /** Positions `i` < `j` cover the target with the least sum of all pairs that do. */
  ghost predicate BestPair(s: seq<Preimage>, target: Fr, i: int, j: int) {
    && 0 <= i < j < |s| && s[i].value + s[j].value >= target
    && forall p, q :: 0 <= p < q < |s| && s[p].value + s[q].value >= target ==>
         s[i].value + s[j].value <= s[p].value + s[q].value
  }

  /**
   The state of the search: `found` is the pair at `i`, `j` with change `change`, or empty; every pair outside
   the window from `lhs` to `rhs` misses the target or has no less change.
   */
  ghost predicate Window(s: seq<Preimage>, target: Fr, lhs: int, rhs: int, found: seq<Preimage>, i: int, j: int, change: int) {
    && 0 <= lhs <= rhs < |s|
    && (found == [] ==> change == HALF)
    && (found != [] ==> 0 <= i < j < |s| && found == [s[i], s[j]] && s[i].value + s[j].value == target + change)
    && forall p, q :: 0 <= p < q < |s| && (p < lhs || q > rhs) && s[p].value + s[q].value >= target ==>
         found != [] && target + change <= s[p].value + s[q].value
  }

  /** The pair at the ends overshoots: no pair with the right end is better than the better of it and `found`. */
  lemma DropRight(s: seq<Preimage>, target: Fr, lhs: int, rhs: int, found: seq<Preimage>, i: int, j: int, change: int)
    requires Sorted(s) && Window(s, target, lhs, rhs, found, i, j, change) && lhs < rhs
    requires target < s[lhs].value + s[rhs].value
    ensures var over := s[lhs].value + s[rhs].value - target;
            && (over < change ==> Window(s, target, lhs, rhs - 1, [s[lhs], s[rhs]], lhs, rhs, over))
            && (over >= change && found != [] ==> Window(s, target, lhs, rhs - 1, found, i, j, change))
  {
    forall q | lhs <= q < rhs
      ensures s[lhs].value <= s[q].value
    {
    }
  }

  /** The pair at the ends falls short: no pair with the left end reaches the target. */
  lemma DropLeft(s: seq<Preimage>, target: Fr, lhs: int, rhs: int, found: seq<Preimage>, i: int, j: int, change: int)
    requires Sorted(s) && Window(s, target, lhs, rhs, found, i, j, change) && lhs < rhs
    requires s[lhs].value + s[rhs].value < target
    ensures Window(s, target, lhs + 1, rhs, found, i, j, change)
  {
    forall q | lhs < q <= rhs
      ensures s[q].value <= s[rhs].value
    {
    }
  }

  /** A field sum of two values below the target reaches it only if it did not wrap. */
  lemma ReachedHonestly(s: seq<Preimage>, target: Fr, i: nat, j: nat)
    requires i < j < |s| && s[i].value < target && s[j].value < target && Add(s[i].value, s[j].value) >= target
    ensures s[i].value + s[j].value >= target
  {
  }

  /** Two values below the target overshoot it by less than half the field. */
  lemma PairFits(s: seq<Preimage>, target: Fr, i: nat, j: nat)
    requires PairsFit(s) && i < j < |s| && s[i].value < target && s[j].value < target
    ensures var sum := Add(s[i].value, s[j].value);
            sum == s[i].value + s[j].value && sum - target < HALF && (sum >= target ==> Sub(sum, target) == sum - target)
  {
    assert s[i].value + s[j].value < MODULUS;
  }

  /** Closing in from both ends: the best pair below the target, or nothing when no pair reaches it. */
  method FindSubsetTwoCommitments(target: Fr, s: seq<Preimage>) returns (r: seq<Preimage>, ghost i: int, ghost j: int)
    requires |s| >= 2 && Sorted(s) && forall k :: 0 <= k < |s| ==> s[k].value < target
    ensures r != [] ==> 0 <= i < j < |s| && r == [s[i], s[j]] && s[i].value + s[j].value >= target
    ensures PairsFit(s) && r == [] ==> forall p, q :: 0 <= p < q < |s| ==> s[p].value + s[q].value < target
    ensures PairsFit(s) && r != [] ==> BestPair(s, target, i, j)
  {
    hide Sorted, PairsFit, Add, Sub;
    ghost var fits := PairsFit(s);
    var lhs, rhs := 0, |s| - 1;
    var change := HALF;
    r, i, j := [], 0, 0;
    while lhs < rhs
      invariant 0 <= lhs <= rhs < |s|
      invariant r == [] ==> change == HALF
      invariant r != [] ==> 0 <= i < j < |s| && r == [s[i], s[j]] && s[i].value + s[j].value >= target
      invariant fits ==> Window(s, target, lhs, rhs, r, i, j, change)
    {
      hide Window;
      if fits {
        PairFits(s, target, lhs, rhs);
      }
      var twoSum := Add(s[lhs].value, s[rhs].value);
      if twoSum >= target {
        ReachedHonestly(s, target, lhs, rhs);
      }
      if twoSum == target {
        return [s[lhs], s[rhs]], lhs, rhs;
      }
      if twoSum > target {
        if fits {
          DropRight(s, target, lhs, rhs, r, i, j, change);
        }
        var tempChange := Sub(twoSum, target);
        if tempChange < change {
          change := tempChange;
          r, i, j := [s[lhs], s[rhs]], lhs, rhs;
        }
        rhs := rhs - 1;
      } else {
        if fits {
          DropLeft(s, target, lhs, rhs, r, i, j, change);
        }
        lhs := lhs + 1;
      }
    }
  }

  // ---------------------------------------------------------------- candidates

  /** In a sorted sequence the values below the target are a prefix. */
  function CountBelow(s: seq<Preimage>, target: Fr): (k: nat)
    requires Sorted(s)
    ensures k <= |s|
    ensures forall i :: 0 <= i < |s| ==> (s[i].value < target <==> i < k)
  {
    if s == [] then 0
    else if s[|s| - 1].value < target then |s|
    else CountBelow(s[..|s| - 1], target)
  }

  function Filter(s: seq<Preimage>, target: Fr): seq<Preimage> {
    if s == [] then []
    else Filter(s[..|s| - 1], target) + if s[|s| - 1].value < target then [s[|s| - 1]] else []
  }

  lemma {:induction false} FilterIsPrefix(s: seq<Preimage>, target: Fr)
    requires Sorted(s)
    ensures Filter(s, target) == s[..CountBelow(s, target)]
  {
    if s != [] {
      var init := s[..|s| - 1];
      FilterIsPrefix(init, target);
      if s[|s| - 1].value < target {
        assert CountBelow(init, target) == |init|;
        assert init[..|init|] + [s[|s| - 1]] == s;
      } else {
        assert init[..CountBelow(init, target)] == s[..CountBelow(init, target)];
      }
    }
  }

  function FirstAtLeast(s: seq<Preimage>, target: Fr): (r: Result<Preimage>)
  {
    if s == [] then Err(NoMatch) else if s[0].value >= target then Ok(s[0]) else FirstAtLeast(s[1..], target)
  }

  lemma {:induction false} FirstIsNext(s: seq<Preimage>, target: Fr, k: nat)
    requires k <= |s| && forall i :: 0 <= i < |s| ==> (s[i].value < target <==> i < k)
    ensures FirstAtLeast(s, target) == if k < |s| then Ok(s[k]) else Err(NoMatch)
  {
    if k > 0 {
      FirstIsNext(s[1..], target, k - 1);
    }
  }

  lemma PrefixFits(s: seq<Preimage>, target: Fr, k: nat)
    requires k <= |s| && Sorted(s) && forall i :: 0 <= i < |s| ==> (s[i].value < target <==> i < k)
    ensures Sorted(s[..k]) && (PairsFit(s[..k]) <==> SmallPairsFit(s, target))
  {
  }

  ghost predicate NoPairReaches(s: seq<Preimage>, target: Fr, k: nat)
    requires k <= |s|
  {
    forall p, q :: 0 <= p < q < k ==> s[p].value + s[q].value < target
  }

  /** The answer for `n` commitments when the first `k` are below the target. */
  ghost predicate IsSubsetFor(s: seq<Preimage>, target: Fr, k: nat, n: nat, r: Result<seq<Preimage>>, i: int, j: int)
    requires k <= |s|
  {
    if k <= 1 || n == 1 then r == (if k < |s| then Ok([s[k]]) else Err(NoMatch))
    else if FieldSum(s[..k]) < target then r == Ok([])
    else && r.Ok?
         && (r.value == [] ==> NoPairReaches(s, target, k))
         && (r.value != [] ==> BestPair(s[..k], target, i, j) && r.value == [s[i], s[j]])
  }

  /** What is left of that when values below the target sum past the field: a pair that is returned still covers. */
  ghost predicate IsRoughSubsetFor(s: seq<Preimage>, target: Fr, k: nat, n: nat, r: Result<seq<Preimage>>, i: int, j: int)
    requires k <= |s|
  {
    if k <= 1 || n == 1 then r == (if k < |s| then Ok([s[k]]) else Err(NoMatch))
    else && r.Ok?
         && (r.value != [] ==> 0 <= i < j < k && r.value == [s[i], s[j]] && s[i].value + s[j].value >= target)
  }

  /** The candidate for `n` commitments: a smallest sufficient one, or a best pair of small ones, or nothing. */
  method FindSubsetCommitments(s: seq<Preimage>, target: Fr, n: nat) returns (r: Result<seq<Preimage>>, ghost i: int, ghost j: int)
    requires Sorted(s) && (n == 1 || n == 2)
    ensures SmallPairsFit(s, target) ==> IsSubsetFor(s, target, CountBelow(s, target), n, r, i, j)
    ensures IsRoughSubsetFor(s, target, CountBelow(s, target), n, r, i, j)
    ensures r.Err? <==> CountBelow(s, target) == |s| && (n == 1 || |s| <= 1)
    ensures r.Ok? && r.value != [] ==> Covers(multiset(s), target, Resize(r.value))
  {
    hide Filter, FirstAtLeast, BestPair, Sorted, PairsFit, SmallPairsFit, CountBelow, FieldSum, Covers, Resize;
    i, j := 0, 0;
    var below := Filter(s, target);
    ghost var k := CountBelow(s, target);
    FilterIsPrefix(s, target);
    FirstIsNext(s, target, k);
    PrefixFits(s, target, k);
    if |below| <= 1 || n == 1 {
      var found :- FirstAtLeast(s, target);
      r := Ok([found]);
    } else if FieldSum(below) >= target {
      var pair;
      pair, i, j := FindSubsetTwoCommitments(target, below);
      r := Ok(pair);
    } else {
      r := Ok([]);
    }
    RoughCovers(s, target, k, n, r, i, j);
  }

  /** The first of the candidates in the order of change, longer ones first on equal change. */
  function Preferred(subsets: seq<seq<Preimage>>, target: Fr): (r: seq<Preimage>)
    requires subsets != []
    ensures r in subsets
    ensures forall t :: t in subsets ==> !Before(t, r, target)
  {
    if |subsets| == 1 then subsets[0] else
    var best := Preferred(subsets[..|subsets| - 1], target);
    var next := subsets[|subsets| - 1];
    assert subsets == subsets[..|subsets| - 1] + [next];
    if Before(next, best, target) then next else best
  }

  predicate Before(a: seq<Preimage>, b: seq<Preimage>, target: Fr) {
    var changeA, changeB := Sub(FieldSum(a), target), Sub(FieldSum(b), target);
    if changeA == changeB then |a| > |b| else changeA < changeB
  }

  // ---------------------------------------------------------------- the best choice

  /** Every covering choice is matched by a candidate: a pair from the prefix of small values, or the first sufficient value. */
  lemma ChoiceMeetsCandidate(s: seq<Preimage>, target: Fr, d: Choice) returns (p: int, q: int)
    requires Sorted(s) && d.From(multiset(s)) && d.Worth() >= target
    ensures var k := CountBelow(s, target);
            if d.IsDust(target) then 0 <= p < q < k && s[p].value + s[q].value == d.Worth()
            else k < |s| && s[k].value <= d.Worth()
  {
    var k := CountBelow(s, target);
    p, q := 0, 0;
    match d
    case One(x) =>
      var i := PositionOf(s, x);
      assert k <= i;
    case Two(x, y) =>
      p, q := PairPositions(s, x, y);
      SamePair(s[p], s[q], x, y);
      assert d.IsDust(target) <==> q < k;
      if q >= k {
        assert s[k].value <= s[q].value;
      }
  }

  lemma SingleIsBest(s: seq<Preimage>, target: Fr, k: nat)
    requires Sorted(s) && k == CountBelow(s, target) < |s|
    requires forall p, q :: 0 <= p < q < k && s[p].value + s[q].value >= target ==> s[p].value + s[q].value > s[k].value
    ensures IsBestChoice(multiset(s), target, One(s[k]))
  {
    assert s[k] in multiset(s);
    forall d: Choice | d.From(multiset(s)) && d.Worth() >= target
      ensures s[k].value <= d.Worth() && (d.IsDust(target) ==> s[k].value < d.Worth())
    {
      var p, q := ChoiceMeetsCandidate(s, target, d);
    }
  }

  lemma PairIsBest(s: seq<Preimage>, target: Fr, k: nat, i: int, j: int)
    requires Sorted(s) && k == CountBelow(s, target) && BestPair(s[..k], target, i, j)
    requires k < |s| ==> s[i].value + s[j].value <= s[k].value
    ensures IsBestChoice(multiset(s), target, Two(s[i], s[j]))
  {
    PairAt(s, i, j);
    forall d: Choice | d.From(multiset(s)) && d.Worth() >= target
      ensures s[i].value + s[j].value <= d.Worth()
    {
      var p, q := ChoiceMeetsCandidate(s, target, d);
      if d.IsDust(target) {
        assert s[..k][p].value + s[..k][q].value >= target;
      }
    }
  }

  lemma FieldWorth(c: Choice, target: Fr)
    requires c.Worth() < MODULUS && target <= c.Worth()
    ensures Sub(FieldSum(c.AsSeq()), target) == c.Worth() - target
  {
    match c
    case One(x) =>
      assert [x][..0] == [];
      assert FieldSum([]) == 0;
    case Two(x, y) =>
      assert [x, y][..1] == [x] && [x][..0] == [];
      assert FieldSum([x]) == x.value;
  }

  /** What the candidates can be, `k` being the number of values below the target. */
  ghost predicate Candidates(s: seq<Preimage>, target: Fr, k: nat, subsets: seq<seq<Preimage>>, i: int, j: int) {
    && k <= |s|
    && if k < |s| then
         || (NoPairReaches(s, target, k) && (subsets == [[s[k]]] || subsets == [[s[k]], [s[k]]]))
         || (BestPair(s[..k], target, i, j) && subsets == [[s[k]], [s[i], s[j]]])
       else
         BestPair(s, target, i, j) && subsets == [[s[i], s[j]]]
  }

  lemma PreferredIsBest(s: seq<Preimage>, target: Fr, k: nat, subsets: seq<seq<Preimage>>, i: int, j: int) returns (c: Choice)
    requires Sorted(s) && SmallPairsFit(s, target) && k == CountBelow(s, target)
    requires Candidates(s, target, k, subsets, i, j)
    ensures IsBestChoice(multiset(s), target, c)
    ensures c.AsSeq() == Preferred(subsets, target)
  {
    hide IsBestChoice, FieldSum;
    if k < |s| {
      FieldWorth(One(s[k]), target);
      if NoPairReaches(s, target, k) {
        c := One(s[k]);
        SingleIsBest(s, target, k);
      } else {
        FieldWorth(Two(s[i], s[j]), target);
        PreferredOfTwo([s[k]], [s[i], s[j]], target);
        if s[k].value < s[i].value + s[j].value {
          c := One(s[k]);
          PairsAreWorse(s, target, k, i, j);
          SingleIsBest(s, target, k);
        } else {
          c := Two(s[i], s[j]);
          PairIsBest(s, target, k, i, j);
        }
      }
    } else {
      assert s[..k] == s;
      c := Two(s[i], s[j]);
      PairIsBest(s, target, k, i, j);
    }
  }

  lemma PairsAreWorse(s: seq<Preimage>, target: Fr, k: nat, i: int, j: int)
    requires k < |s| && BestPair(s[..k], target, i, j) && s[k].value < s[i].value + s[j].value
    ensures forall p, q :: 0 <= p < q < k && s[p].value + s[q].value >= target ==> s[p].value + s[q].value > s[k].value
  {
    forall p, q | 0 <= p < q < k && s[p].value + s[q].value >= target
      ensures s[p].value + s[q].value > s[k].value
    {
      assert s[..k][p].value + s[..k][q].value >= target;
    }
  }

  lemma PreferredOfTwo(a: seq<Preimage>, b: seq<Preimage>, target: Fr)
    ensures Preferred([a, b], target) == if Before(b, a, target) then b else a
  {
    assert [a, b][..1] == [a];
  }

  /** The pairs of small values are looked at, or none of them reaches the target. */
  ghost predicate PairsSeen(s: seq<Preimage>, target: Fr, k: nat)
    requires k <= |s|
  {
    k <= 1 || FieldSum(s[..k]) >= target || NoPairReaches(s, target, k)
  }

  /** Two subsets asked for, the empty one left out. */
  lemma BothSizes(s: seq<Preimage>, target: Fr, k: nat, r: Result<seq<Preimage>>, i: int, j: int)
    requires k < |s| && IsSubsetFor(s, target, k, 2, r, i, j)
    ensures r.Ok?
    ensures PairsSeen(s, target, k) ==> Candidates(s, target, k, [[s[k]]] + if r.value != [] then [r.value] else [], i, j)
    ensures !PairsSeen(s, target, k) ==> r.value == []
  {
  }

  /** One subset asked for: all are small, or there is only one commitment. */
  lemma OneSize(s: seq<Preimage>, target: Fr, min: nat, r: Result<seq<Preimage>>, i: int, j: int)
    requires Sorted(s) && Coverable(multiset(s), target)
    requires min == if OneCovers(multiset(s), target) then 1 else 2
    requires min == 2 || |s| == 1
    requires IsSubsetFor(s, target, CountBelow(s, target), min, r, i, j)
    ensures r.Ok?
    ensures PairsSeen(s, target, CountBelow(s, target)) ==> Candidates(s, target, CountBelow(s, target), [r.value], i, j)
    ensures !PairsSeen(s, target, CountBelow(s, target)) ==> CountBelow(s, target) == |s| && r.value == []
  {
    hide Coverable, OneCovers, BestPair;
    var k := CountBelow(s, target);
    MinimumOf(s, target);
    if min == 2 {
      assert k == |s| && s[..k] == s;
      assert s[k - 2].value + s[k - 1].value >= target;
    } else {
      assert k == 0;
    }
  }

  lemma SomeSuffices(s: seq<Preimage>, target: Fr)
    requires Sorted(s) && OneCovers(multiset(s), target)
    ensures CountBelow(s, target) < |s|
  {
    MinimumOf(s, target);
  }

  /** Vec::resize to two with default commitments, as a pair. */
  function Resize(subset: seq<Preimage>): (Preimage, Preimage) {
    (if |subset| > 0 then subset[0] else DEFAULT_PREIMAGE, if |subset| > 1 then subset[1] else DEFAULT_PREIMAGE)
  }

  /** A pair of small values would be at least as good, but their sum wraps to below the target. */
  ghost predicate Overlooks(s: seq<Preimage>, target: Fr)
    requires Sorted(s)
  {
    var k := CountBelow(s, target);
    && k >= 2 && FieldSum(s[..k]) < target
    && exists p, q :: 0 <= p < q < k && target <= s[p].value + s[q].value && (k < |s| ==> s[p].value + s[q].value <= s[k].value)
  }

  ghost predicate IsBestPair(available: multiset<Preimage>, target: Fr, pair: (Preimage, Preimage)) {
    exists c: Choice :: IsBestChoice(available, target, c) && c.AsPair() == pair
  }

  /** What is selected when the pairs are not looked at is a best choice exactly when none was overlooked. */
  lemma UnseenPairs(s: seq<Preimage>, target: Fr, k: nat)
    requires Sorted(s) && k == CountBelow(s, target) && !PairsSeen(s, target, k)
    ensures IsBestPair(multiset(s), target, Resize(if k < |s| then [s[k]] else [])) <==> !Overlooks(s, target)
  {
    if Overlooks(s, target) {
      OverlookedIsNotBest(s, target, k);
    } else {
      var p, q :| 0 <= p < q < k && s[p].value + s[q].value >= target;
      assert k < |s|;
      hide IsBestChoice, FieldSum;
      SingleIsBest(s, target, k);
      assert One(s[k]).AsPair() == Resize([s[k]]);
    }
  }

  lemma OverlookedIsNotBest(s: seq<Preimage>, target: Fr, k: nat)
    requires Sorted(s) && k == CountBelow(s, target) && Overlooks(s, target)
    ensures !IsBestPair(multiset(s), target, Resize(if k < |s| then [s[k]] else []))
  {
    var p, q :| 0 <= p < q < k && target <= s[p].value + s[q].value && (k < |s| ==> s[p].value + s[q].value <= s[k].value);
    hide Overlooks, IsBestChoice, FieldSum, Sorted;
    forall c: Choice | c.AsPair() == Resize(if k < |s| then [s[k]] else [])
      ensures !IsBestChoice(multiset(s), target, c)
    {
      OverlookedPairIsBetter(s, target, if k < |s| then [s[k]] else [], p, q, c);
    }
  }

  lemma OverlookedPairIsBetter(s: seq<Preimage>, target: Fr, subset: seq<Preimage>, p: nat, q: nat, c: Choice)
    requires p < q < |s| && s[p].value < target && s[q].value < target && target <= s[p].value + s[q].value
    requires |subset| <= 1 && forall x :: x in subset ==> x.value >= target && s[p].value + s[q].value <= x.value
    requires c.AsPair() == Resize(subset)
    ensures !IsBestChoice(multiset(s), target, c)
  {
    PairAt(s, p, q);
    assert subset != [] ==> subset[0] in subset;
    NotBestBeside(multiset(s), target, c, Two(s[p], s[q]));
  }

  /** A choice that is short of the target, or no better than a pair of small ones without being one, is not best. */
  lemma NotBestBeside(available: multiset<Preimage>, target: Fr, c: Choice, d: Choice)
    requires d.From(available) && d.IsDust(target) && d.Worth() >= target
    requires c.Worth() < target || (d.Worth() <= c.Worth() && !c.IsDust(target))
    ensures !IsBestChoice(available, target, c)
  {
  }

  lemma SeenPairs(s: seq<Preimage>, target: Fr, k: nat, subsets: seq<seq<Preimage>>, i: int, j: int)
    requires Sorted(s) && SmallPairsFit(s, target) && k == CountBelow(s, target) && PairsSeen(s, target, k)
    requires Candidates(s, target, k, subsets, i, j)
    ensures IsBestPair(multiset(s), target, Resize(Preferred(subsets, target))) && !Overlooks(s, target)
  {
    var c := PreferredIsBest(s, target, k, subsets, i, j);
    assert c.AsPair() == Resize(c.AsSeq());
  }

  /** The pair, without its defaults, is one or two of the available commitments that cover the target. */
  ghost predicate Covers(available: multiset<Preimage>, target: Fr, pair: (Preimage, Preimage)) {
    exists c: Choice :: c.From(available) && c.Worth() >= target && c.AsPair() == pair
  }

  /** Every subset is a choice that covers the target. */
  ghost predicate AllCover(available: multiset<Preimage>, target: Fr, subsets: seq<seq<Preimage>>) {
    forall t :: t in subsets ==> Covers(available, target, Resize(t))
  }

  lemma RoughCovers(s: seq<Preimage>, target: Fr, k: nat, n: nat, r: Result<seq<Preimage>>, i: int, j: int)
    requires Sorted(s) && k == CountBelow(s, target) && IsRoughSubsetFor(s, target, k, n, r, i, j)
    ensures r.Ok? && r.value != [] ==> Covers(multiset(s), target, Resize(r.value))
  {
    if r.Ok? && r.value != [] {
      if k <= 1 || n == 1 {
        assert s[k] in multiset(s);
        assert One(s[k]).From(multiset(s)) && One(s[k]).Worth() >= target && One(s[k]).AsPair() == Resize([s[k]]);
      } else {
        PairAt(s, i, j);
        var c := Two(s[i], s[j]);
        assert c.From(multiset(s)) && c.Worth() >= target && c.AsPair() == Resize([s[i], s[j]]);
      }
    }
  }

  /** With small values that fit: what is selected is best exactly when no pair was overlooked. */
  lemma SelectedIsBestIff(s: seq<Preimage>, target: Fr, k: nat, subsets: seq<seq<Preimage>>, i: int, j: int)
    requires Sorted(s) && SmallPairsFit(s, target) && k == CountBelow(s, target) && subsets != []
    requires if PairsSeen(s, target, k) then Candidates(s, target, k, subsets, i, j)
             else subsets == [if k < |s| then [s[k]] else []]
    ensures IsBestPair(multiset(s), target, Resize(Preferred(subsets, target))) <==> !Overlooks(s, target)
  {
    hide BestPair, IsBestChoice, CountBelow, Preferred, Candidates, NoPairReaches, PairsSeen, Overlooks, IsBestPair;
    if PairsSeen(s, target, k) {
      SeenPairs(s, target, k, subsets, i, j);
    } else {
      UnseenPairs(s, target, k);
      OneCandidate(subsets, target);
    }
  }

  /**
   Up to two candidates, one of one commitment and one of two; the preferred one, filled up with default
   commitments, is a best choice unless a pair was overlooked.
   */
  method SelectCommitment(s: seq<Preimage>, target: Fr, min: nat, max: nat) returns (r: Result<(Preimage, Preimage)>)
    requires Sorted(s) && Coverable(multiset(s), target) && (OneCovers(multiset(s), target) || PairsFit(s))
    requires min == if OneCovers(multiset(s), target) then 1 else 2
    requires max == if |s| < MAX_POSSIBLE_COMMITMENTS then |s| else MAX_POSSIBLE_COMMITMENTS
    ensures r.Ok?
    ensures SmallPairsFit(s, target) ==> (IsBestPair(multiset(s), target, r.value) <==> !Overlooks(s, target))
    ensures Overlooks(s, target) && !OneCovers(multiset(s), target) ==> r.value == Resize([])
    ensures OneCovers(multiset(s), target) || !Overlooks(s, target) ==> Covers(multiset(s), target, r.value)
  {
    ghost var k := CountBelow(s, target);
    ghost var seen, small := PairsSeen(s, target, k), SmallPairsFit(s, target);
    ghost var i, j := 0, 0;
    var subsets: seq<seq<Preimage>> := [];
    if PairsFit(s) {
      PairsFitAreSmall(s, target);
    }
    hide PairsFit, SmallPairsFit, BestPair, IsBestChoice, Coverable, OneCovers, CountBelow, Preferred, Sorted, Candidates,
         NoPairReaches, PairsSeen, Overlooks, IsBestPair, IsSubsetFor, IsRoughSubsetFor, Covers, Resize;
    if min == MAX_POSSIBLE_COMMITMENTS || max == 1 {
      var subset;
      subset, i, j := FindSubsetCommitments(s, target, min);
      SmallEnough(s, target);
      OneSize(s, target, min, subset, i, j);
      if subset.Err? {
        return Err(NoMatch);
      }
      subsets := [subset.value];
    } else {
      SomeSuffices(s, target);
      for n := min to MAX_POSSIBLE_COMMITMENTS + 1
        invariant n == 1 ==> subsets == []
        invariant n == 2 ==> subsets == [[s[k]]]
        invariant n == 3 ==> subsets != [] && (small ==> if seen then Candidates(s, target, k, subsets, i, j) else subsets == [[s[k]]])
        invariant AllCover(multiset(s), target, subsets)
      {
        var subset;
        subset, i, j := FindSubsetCommitments(s, target, n);
        if small && n == 2 {
          BothSizes(s, target, k, subset, i, j);
        }
        RoughSizes(s, target, k, n, subset, i, j);
        if subset.Err? {
          return Err(NoMatch);
        }
        if subset.value != [] {
          subsets := subsets + [subset.value];
        }
      }
    }
    if subsets == [] {
      return Err(NoSubset);
    }
    if small {
      SelectedIsBestIff(s, target, k, subsets, i, j);
    }
    r := Ok(Resize(Preferred(subsets, target)));
  }

  lemma SmallEnough(s: seq<Preimage>, target: Fr)
    ensures |s| == 1 ==> SmallPairsFit(s, target)
  {
  }

  lemma RoughSizes(s: seq<Preimage>, target: Fr, k: nat, n: nat, r: Result<seq<Preimage>>, i: int, j: int)
    requires k < |s| && IsRoughSubsetFor(s, target, k, n, r, i, j)
    ensures r.Ok? && (n == 1 ==> r == Ok([s[k]]))
  {
  }

  lemma MinimumMeans(available: multiset<Preimage>, target: Fr)
    ensures forall r :: IsMinimum(available, target, r) && r.Ok? ==>
              Coverable(available, target) && r.value == if OneCovers(available, target) then 1 else 2
    ensures forall r :: IsMinimum(available, target, r) && r.Err? ==> !Coverable(available, target)
  {
  }

  lemma OneCandidate(subsets: seq<seq<Preimage>>, target: Fr)
    ensures |subsets| == 1 ==> Preferred(subsets, target) == subsets[0]
  {
  }

  /**
   Fetches, sorts, checks that one or two commitments suffice, and selects. It succeeds if and only if some
   do, and, where it takes two, no two sum past the field. Where no two values below the target do, what
   it returns is a best choice if and only if no pair was overlooked.
   */
  method FindUsableCommitments(fetched: Result<seq<Preimage>>, target: Fr) returns (r: Result<(Preimage, Preimage)>)
    ensures fetched.Err? ==> r == Err(fetched.error)
    ensures fetched.Ok? ==>
              (r.Ok? <==> && Coverable(multiset(fetched.value), target)
                          && (OneCovers(multiset(fetched.value), target) || PairsFit(fetched.value)))
    ensures r.Ok? ==>
              && fetched.Ok?
              && (SmallPairsFit(fetched.value, target) ==>
                    (IsBestPair(multiset(fetched.value), target, r.value) <==> !Overlooks(SortByValue(fetched.value), target)))
              && (OneCovers(multiset(fetched.value), target) || !Overlooks(SortByValue(fetched.value), target) ==>
                    Covers(multiset(fetched.value), target, r.value))
              && (Overlooks(SortByValue(fetched.value), target) && !OneCovers(multiset(fetched.value), target) ==>
                    r.value == (DEFAULT_PREIMAGE, DEFAULT_PREIMAGE))
    ensures r.Ok? && NoWrap(fetched.value) ==> IsBestPair(multiset(fetched.value), target, r.value)
  {
    var available :- fetched;
    var s := SortByValue(available);
    PairsFitPermuted(available, s, target);
    PairsFitPermuted(s, available, target);
    if NoWrap(available) {
      NoWrapPairsFit(available);
      PairsFitAreSmall(available, target);
      SumOfPermutation(available, s, Value);
      NothingOverlooked(s, target);
    }
    hide SortByValue, OneCovers, Coverable, Sorted, IsBestPair, Overlooks, PairsFit, SmallPairsFit, NoWrap, Covers;
    MinimumMeans(multiset(s), target);
    var min :- CalculateMinimumCommitments(s, target);
    var max := if |s| < MAX_POSSIBLE_COMMITMENTS then |s| else MAX_POSSIBLE_COMMITMENTS;
    r := SelectCommitment(s, target, min, max);
  }

  lemma NothingOverlooked(s: seq<Preimage>, target: Fr)
    requires Sorted(s) && NoWrap(s)
    ensures !Overlooks(s, target)
  {
    var k := CountBelow(s, target);
    SumOfPrefix(s, k, Value);
    FieldSumIsSum(s[..k]);
    forall p, q | 0 <= p < q < k
      ensures s[p].value + s[q].value <= SumBy(s[..k], Value)
    {
      SumBoundsPair(s[..k], p, q);
    }
  }

  /** An instance: of three halves of the field any two cover the target, but two defaults are returned. */
  lemma ThreeHalvesAreOverlooked(p: Preimage)
    requires p.value == HALF
    ensures var s := [p, p, p];
            && PairsFit(s) && Coverable(multiset(s), HALF + 1)
            && !OneCovers(multiset(s), HALF + 1) && Overlooks(SortByValue(s), HALF + 1)
  {
    var s := [p, p, p];
    ThreeHalvesAreSorted(p);
    ThreeHalvesWrap(p);
    PairAt(s, 0, 1);
    assert Two(p, p).From(multiset(s)) && Two(p, p).Worth() >= HALF + 1;
    hide FieldSum, SortByValue;
    assert CountBelow(s, HALF + 1) == 3 && s[..3] == s;
    assert s[0].value + s[1].value >= HALF + 1;
  }

  lemma ThreeHalvesAreSorted(p: Preimage)
    ensures SortByValue([p, p, p]) == [p, p, p]
  {
    var s := [p, p, p];
    var t := SortByValue(s);
    hide SortByValue;
    forall i | 0 <= i < 3
      ensures t[i] == p
    {
      assert t[i] in multiset(t);
      assert t[i] in s;
    }
  }

  lemma ThreeHalvesWrap(p: Preimage)
    requires p.value == HALF
    ensures FieldSum([p, p, p]) < HALF + 1
  {
    assert [p, p, p][..2] == [p, p] && [p, p][..1] == [p] && [p][..0] == [];
    assert FieldSum([p]) == HALF;
    assert FieldSum([p, p]) == MODULUS - 1;
  }
}
