/**
 Filling a block: deposits already on chain are dropped, the others are grouped by four in the order
 of their fees, and the groups and client transactions with the highest fees are taken.
 */
module BlockAssembly {
  import opened Field
  import opened Sorting

  datatype Deposit = Deposit(fee: Fr, tokenId: Fr, slotId: Fr, value: Fr, secretHash: Fr)

  const DEFAULT_DEPOSIT := Deposit(0, 0, 0, 0, 0)
  const GROUP := 4

  datatype ClientTx = ClientTx(fee: Fr, commitments: seq<Fr>, hash: seq<nat>)

  /** One transaction of the block: four deposits, or one from a client. */
  datatype Item = Deposits(group: seq<Deposit>, total: Fr) | Client(tx: ClientTx)

  datatype Error = BadBlockSize | InsufficientTransactions | BadGroup

  datatype Result<+T> = Ok(value: T) | Err(error: Error)

  function DepositFee(d: Deposit): int {
    d.fee
  }

  function TxFee(t: ClientTx): int {
    t.fee
  }

  function ItemFee(x: Item): int {
    match x
    case Deposits(_, total) => total
    case Client(tx) => tx.fee
  }

  /** std::cmp::Reverse on the fee. */
  function DepositRank(d: Deposit): int {
    -DepositFee(d)
  }

  function ItemRank(x: Item): int {
    -ItemFee(x)
  }

  predicate BlockSizeAllowed(n: nat) {
    n == 64 || n == 256 || n == 1024
  }

  // ---------------------------------------------------------------- filters

  function Flatten<T>(s: seq<seq<T>>): seq<T> {
    if s == [] then [] else s[0] + Flatten(s[1..])
  }

  /** The partition step: elements that satisfy `p`, in order. */
  function Keep<T>(s: seq<T>, p: T -> bool): seq<T> {
    if s == [] then [] else (if p(s[0]) then [s[0]] else []) + Keep(s[1..], p)
  }

  lemma {:induction false} KeepCounts<T>(s: seq<T>, p: T -> bool, x: T)
    ensures multiset(Keep(s, p))[x] == if p(x) then multiset(s)[x] else 0
  {
    if s != [] {
      assert s == [s[0]] + s[1..];
      KeepCounts(s[1..], p, x);
    }
  }

  lemma {:induction false} FlattenConcat<T>(a: seq<seq<T>>, b: seq<seq<T>>)
    ensures Flatten(a + b) == Flatten(a) + Flatten(b)
  {
    if a == [] {
      assert a + b == b;
    } else {
      assert (a + b)[1..] == a[1..] + b;
      FlattenConcat(a[1..], b);
    }
  }

  lemma FlattenSnoc<T>(a: seq<seq<T>>, x: seq<T>)
    ensures Flatten(a + [x]) == Flatten(a) + x
  {
    FlattenConcat(a, [x]);
    assert Flatten([x]) == x + Flatten([]);
  }

  // ---------------------------------------------------------------- groups of four

  function Pads(n: nat): (r: seq<Deposit>)
    ensures |r| == n && forall i :: 0 <= i < n ==> r[i] == DEFAULT_DEPOSIT
  {
    seq(n, i => DEFAULT_DEPOSIT)
  }

  function GroupsOf(s: seq<Deposit>): (r: seq<seq<Deposit>>)
  {
    if s == [] then []
    else if |s| < GROUP then [s + Pads(GROUP - |s|)]
    else [s[..GROUP]] + GroupsOf(s[GROUP..])
  }

  ghost predicate AllOfFour(groups: seq<seq<Deposit>>) {
    forall i :: 0 <= i < |groups| ==> |groups[i]| == GROUP
  }

  /** The groups hold the deposits in order, followed by fewer than four defaults. */
  lemma {:induction false} GroupsFlatten(s: seq<Deposit>) returns (n: nat)
    ensures n < GROUP && Flatten(GroupsOf(s)) == s + Pads(n)
    ensures AllOfFour(GroupsOf(s))
    ensures GROUP * |GroupsOf(s)| == |s| + n
  {
    if s == [] {
      n := 0;
    } else if |s| < GROUP {
      n := GROUP - |s|;
      assert Flatten([s + Pads(n)]) == s + Pads(n) + Flatten([]);
    } else {
      n := GroupsFlatten(s[GROUP..]);
      assert s == s[..GROUP] + s[GROUP..];
    }
  }

  lemma FullGroup(current: seq<Deposit>, rest: seq<Deposit>)
    requires |current| == GROUP
    ensures GroupsOf(current + rest) == [current] + GroupsOf([] + rest)
  {
    assert (current + rest)[..GROUP] == current && (current + rest)[GROUP..] == [] + rest;
  }

  lemma LastGroup(current: seq<Deposit>)
    requires |current| < GROUP
    ensures GroupsOf(current + []) == if current == [] then [] else [current + Pads(GROUP - |current|)]
  {
    assert current + [] == current;
  }

  method GroupDeposits(sorted: seq<Deposit>) returns (groups: seq<seq<Deposit>>)
    ensures groups == GroupsOf(sorted)
  {
    hide GroupsOf;
    groups := [];
    var current: seq<Deposit> := [];
    assert current + sorted[0..] == sorted;
    for i := 0 to |sorted|
      invariant |current| < GROUP
      invariant GroupsOf(sorted) == groups + GroupsOf(current + sorted[i..])
    {
      assert current + sorted[i..] == (current + [sorted[i]]) + sorted[i + 1..];
      current := current + [sorted[i]];
      if |current| == GROUP {
        FullGroup(current, sorted[i + 1..]);
        groups := groups + [current];
        current := [];
      }
    }
    assert sorted[|sorted|..] == [];
    LastGroup(current);
    if current != [] {
      ghost var short := current;
      while |current| < GROUP
        invariant |short| <= |current| <= GROUP && current == short + Pads(|current| - |short|)
      {
        current := current + [DEFAULT_DEPOSIT];
      }
      groups := groups + [current];
    }
  }

  function GroupTotal(group: seq<Deposit>): Fr {
    if group == [] then 0 else Add(GroupTotal(group[..|group| - 1]), group[|group| - 1].fee)
  }

  lemma {:induction false} GroupTotalIsSum(group: seq<Deposit>)
    requires SumBy(group, DepositFee) < MODULUS
    ensures GroupTotal(group) == SumBy(group, DepositFee)
  {
    if group != [] {
      SumIsNonNegative(group[..|group| - 1], DepositFee);
      GroupTotalIsSum(group[..|group| - 1]);
    }
  }

  function AsItems(groups: seq<seq<Deposit>>): (r: seq<Item>)
    ensures |r| == |groups|
    ensures forall i :: 0 <= i < |r| ==> r[i] == Deposits(groups[i], GroupTotal(groups[i]))
  {
    seq(|groups|, i requires 0 <= i < |groups| => Deposits(groups[i], GroupTotal(groups[i])))
  }

  function AsClients(txs: seq<ClientTx>): (r: seq<Item>)
    ensures |r| == |txs|
    ensures forall i :: 0 <= i < |r| ==> r[i] == Client(txs[i])
  {
    seq(|txs|, i requires 0 <= i < |txs| => Client(txs[i]))
  }

  /** The filter_map that picks the deposit groups. */
  function DepositGroups(items: seq<Item>): seq<seq<Deposit>> {
    if items == [] then [] else
    var front, last := DepositGroups(items[..|items| - 1]), items[|items| - 1];
    if last.Deposits? then front + [last.group] else front
  }

  /** The filter_map that picks the client transactions. */
  function ClientTxs(items: seq<Item>): seq<ClientTx> {
    if items == [] then [] else
    var front, last := ClientTxs(items[..|items| - 1]), items[|items| - 1];
    if last.Client? then front + [last.tx] else front
  }

  lemma {:induction false} PickConcat(a: seq<Item>, b: seq<Item>)
    ensures DepositGroups(a + b) == DepositGroups(a) + DepositGroups(b)
    ensures ClientTxs(a + b) == ClientTxs(a) + ClientTxs(b)
  {
    if b == [] {
      assert a + b == a;
    } else {
      assert (a + b)[..|a + b| - 1] == a + b[..|b| - 1];
      PickConcat(a, b[..|b| - 1]);
    }
  }

  lemma {:induction false} PickGroups(groups: seq<seq<Deposit>>)
    ensures DepositGroups(AsItems(groups)) == groups && ClientTxs(AsItems(groups)) == []
  {
    if groups != [] {
      var init := groups[..|groups| - 1];
      assert AsItems(groups)[..|init|] == AsItems(init);
      PickGroups(init);
    }
  }

  lemma {:induction false} PickClients(txs: seq<ClientTx>)
    ensures DepositGroups(AsClients(txs)) == [] && ClientTxs(AsClients(txs)) == txs
  {
    if txs != [] {
      var init := txs[..|txs| - 1];
      assert AsClients(txs)[..|init|] == AsClients(init);
      PickClients(init);
    }
  }

  lemma GroupsOfItems(groups: seq<seq<Deposit>>, txs: seq<ClientTx>)
    ensures DepositGroups(AsItems(groups) + AsClients(txs)) == groups
    ensures ClientTxs(AsItems(groups) + AsClients(txs)) == txs
  {
    PickConcat(AsItems(groups), AsClients(txs));
    PickGroups(groups);
    PickClients(txs);
  }

  // ---------------------------------------------------------------- what is selected

  /** All candidates in the order of falling fee. */
  function Ranked(deposits: seq<Deposit>, txs: seq<ClientTx>): (r: seq<Item>)
  {
    SortBy(AsItems(GroupsOf(SortBy(deposits, DepositRank))) + AsClients(txs), ItemRank)
  }

  function Take<T>(s: seq<T>, n: nat): (r: seq<T>)
    ensures |r| <= n && r <= s
  {
    if |s| <= n then s else s[..n]
  }

  function Selected(deposits: seq<Deposit>, txs: seq<ClientTx>, blockSize: nat): (r: seq<Item>)
    ensures |r| <= blockSize && r <= Ranked(deposits, txs)
  {
    Take(Ranked(deposits, txs), blockSize)
  }

  // ---------------------------------------------------------------- conservation

  function CountDeposit(d: Deposit): Item -> int {
    (x: Item) => if x.Deposits? then multiset(x.group)[d] else 0
  }

  function CountTx(t: ClientTx): Item -> int {
    (x: Item) => if x == Client(t) then 1 else 0
  }

  lemma {:induction false} DepositsCounted(items: seq<Item>, d: Deposit)
    ensures multiset(Flatten(DepositGroups(items)))[d] == SumBy(items, CountDeposit(d))
  {
    if items != [] {
      var init, last := items[..|items| - 1], items[|items| - 1];
      DepositsCounted(init, d);
      assert CountDeposit(d)(last) == if last.Deposits? then multiset(last.group)[d] else 0;
      if last.Deposits? {
        FlattenSnoc(DepositGroups(init), last.group);
      }
    }
  }

  lemma {:induction false} TxsCounted(items: seq<Item>, t: ClientTx)
    ensures multiset(ClientTxs(items))[t] == SumBy(items, CountTx(t))
  {
    if items != [] {
      TxsCounted(items[..|items| - 1], t);
    }
  }

  /** Parts of a permutation of the items hold what the items hold. */
  lemma SplitConserves(a: seq<Item>, b: seq<Item>, items: seq<Item>)
    requires multiset(a + b) == multiset(items)
    ensures multiset(Flatten(DepositGroups(a))) + multiset(Flatten(DepositGroups(b))) == multiset(Flatten(DepositGroups(items)))
    ensures multiset(ClientTxs(a)) + multiset(ClientTxs(b)) == multiset(ClientTxs(items))
  {
    hide *;
    forall d
      ensures multiset(Flatten(DepositGroups(a)))[d] + multiset(Flatten(DepositGroups(b)))[d] == multiset(Flatten(DepositGroups(items)))[d]
    {
      DepositsCounted(a, d);
      DepositsCounted(b, d);
      DepositsCounted(items, d);
      SumOfConcat(a, b, CountDeposit(d));
      SumOfPermutation(a + b, items, CountDeposit(d));
    }
    forall t
      ensures multiset(ClientTxs(a))[t] + multiset(ClientTxs(b))[t] == multiset(ClientTxs(items))[t]
    {
      TxsCounted(a, t);
      TxsCounted(b, t);
      TxsCounted(items, t);
      SumOfConcat(a, b, CountTx(t));
      SumOfPermutation(a + b, items, CountTx(t));
    }
  }

  /**
   Conservation: the selected and the remaining candidates together hold each fresh deposit once, with
   fewer than four defaults, and each fresh client transaction once; all groups have four deposits.
   */
  lemma SelectionConserves(deposits: seq<Deposit>, txs: seq<ClientTx>, blockSize: nat) returns (pads: nat)
    ensures var all, chosen := Ranked(deposits, txs), Selected(deposits, txs, blockSize);
            var rest := all[|chosen|..];
            && pads < GROUP
            && multiset(Flatten(DepositGroups(chosen))) + multiset(Flatten(DepositGroups(rest)))
               == multiset(deposits) + multiset(Pads(pads))
            && multiset(ClientTxs(chosen)) + multiset(ClientTxs(rest)) == multiset(txs)
            && (blockSize < |all| ==> |chosen| == blockSize)
  {
    var all, chosen := Ranked(deposits, txs), Selected(deposits, txs, blockSize);
    var rest := all[|chosen|..];
    var sorted := SortBy(deposits, DepositRank);
    var items := AsItems(GroupsOf(sorted)) + AsClients(txs);
    pads := GroupsFlatten(sorted);
    GroupsOfItems(GroupsOf(sorted), txs);
    assert all == chosen + rest;
    assert blockSize < |all| ==> |chosen| == blockSize;
    assert multiset(all) == multiset(items) && multiset(sorted) == multiset(deposits);
    hide *;
    SplitConserves(chosen, rest, items);
    assert multiset(sorted + Pads(pads)) == multiset(sorted) + multiset(Pads(pads));
  }

  // ---------------------------------------------------------------- optimality

  /** A way to fill at most `blockSize` slots, each with up to four fresh deposits or one fresh client transaction. */
  ghost predicate Feasible(deposits: seq<Deposit>, txs: seq<ClientTx>, blockSize: nat, groups: seq<seq<Deposit>>, clients: seq<ClientTx>) {
    && |groups| + |clients| <= blockSize
    && (forall i :: 0 <= i < |groups| ==> |groups[i]| <= GROUP)
    && multiset(Flatten(groups)) <= multiset(deposits)
    && multiset(clients) <= multiset(txs)
  }

  ghost function TotalFee(groups: seq<seq<Deposit>>, clients: seq<ClientTx>): int {
    SumBy(Flatten(groups), DepositFee) + SumBy(clients, TxFee)
  }

  ghost predicate GroupsFit(groups: seq<seq<Deposit>>) {
    forall i :: 0 <= i < |groups| ==> SumBy(groups[i], DepositFee) < MODULUS
  }

  /** No four deposits that are grouped have fees that add up past the field. */
  ghost predicate NoWrap(deposits: seq<Deposit>) {
    GroupsFit(GroupsOf(SortBy(deposits, DepositRank)))
  }

  function Min(a: nat, b: nat): nat {
    if a <= b then a else b
  }

  lemma {:induction false} PadsAreFree(n: nat)
    ensures SumBy(Pads(n), DepositFee) == 0
  {
    if n > 0 {
      assert Pads(n)[..n - 1] == Pads(n - 1);
      PadsAreFree(n - 1);
    }
  }

  lemma {:induction false} GroupsPrefix(s: seq<Deposit>, n: nat)
    requires n <= |GroupsOf(s)|
    ensures GroupsOf(s)[..n] == GroupsOf(s[..Min(GROUP * n, |s|)])
  {
    var k := Min(GROUP * n, |s|);
    if n > 0 && |s| >= GROUP {
      GroupsPrefix(s[GROUP..], n - 1);
      assert s[..k][..GROUP] == s[..GROUP];
      assert s[..k][GROUP..] == s[GROUP..][..k - GROUP];
    } else if n > 0 {
      assert s[..k] == s;
    }
  }

  lemma {:induction false} ItemsWorth(groups: seq<seq<Deposit>>)
    requires GroupsFit(groups)
    ensures SumBy(AsItems(groups), ItemFee) == SumBy(Flatten(groups), DepositFee)
  {
    if groups != [] {
      var init, last := groups[..|groups| - 1], groups[|groups| - 1];
      assert groups == init + [last];
      FlattenSnoc(init, last);
      SumOfConcat(Flatten(init), last, DepositFee);
      ItemsWorth(init);
      GroupTotalIsSum(last);
      assert AsItems(groups)[..|init|] == AsItems(init);
    }
  }

  /** The first `n` groups hold the deposits with the highest fees. */
  lemma FirstGroupsWorth(sorted: seq<Deposit>, n: nat)
    requires n <= |GroupsOf(sorted)| && GroupsFit(GroupsOf(sorted))
    ensures SumBy(AsItems(GroupsOf(sorted))[..n], ItemFee) == SumBy(sorted[..Min(GROUP * n, |sorted|)], DepositFee)
  {
    var front := sorted[..Min(GROUP * n, |sorted|)];
    GroupsPrefix(sorted, n);
    assert AsItems(GroupsOf(sorted))[..n] == AsItems(GroupsOf(front));
    var pads := GroupsFlatten(front);
    SumOfConcat(front, Pads(pads), DepositFee);
    PadsAreFree(pads);
    assert GroupsFit(GroupsOf(front));
    ItemsWorth(GroupsOf(front));
  }

  lemma {:induction false} ClientsWorth(txs: seq<ClientTx>)
    ensures SumBy(AsClients(txs), ItemFee) == SumBy(txs, TxFee)
  {
    if txs != [] {
      var init := txs[..|txs| - 1];
      assert AsClients(txs)[..|init|] == AsClients(init);
      ClientsWorth(init);
    }
  }

  lemma {:induction false} ClientsCounted(txs: seq<ClientTx>, x: Item)
    ensures multiset(AsClients(txs))[x] == if x.Client? then multiset(txs)[x.tx] else 0
  {
    if txs != [] {
      var init := txs[..|txs| - 1];
      assert AsClients(txs) == AsClients(init) + [Client(txs[|init|])];
      assert txs == init + [txs[|init|]];
      ClientsCounted(init, x);
    }
  }

  lemma FewerClients(clients: seq<ClientTx>, txs: seq<ClientTx>)
    requires multiset(clients) <= multiset(txs)
    ensures multiset(AsClients(clients)) <= multiset(AsClients(txs))
  {
    forall x: Item
      ensures multiset(AsClients(clients))[x] <= multiset(AsClients(txs))[x]
    {
      ClientsCounted(clients, x);
      ClientsCounted(txs, x);
    }
  }

  lemma {:induction false} FlattenLength<T>(groups: seq<seq<T>>)
    requires forall i :: 0 <= i < |groups| ==> |groups[i]| <= GROUP
    ensures |Flatten(groups)| <= GROUP * |groups|
  {
    if groups != [] {
      FlattenLength(groups[1..]);
    }
  }

  /** The fee of some items is that of the deposits and transactions in them. */
  lemma {:induction false} ItemsFee(items: seq<Item>)
    requires forall x :: x in items && x.Deposits? ==> x.total == SumBy(x.group, DepositFee)
    ensures SumBy(items, ItemFee) == TotalFee(DepositGroups(items), ClientTxs(items))
  {
    if items != [] {
      var init, last := items[..|items| - 1], items[|items| - 1];
      assert last in items;
      ItemsFee(init);
      if last.Deposits? {
        FlattenSnoc(DepositGroups(init), last.group);
        SumOfConcat(Flatten(DepositGroups(init)), last.group, DepositFee);
      }
    }
  }

  /** The candidates' totals are sums, and their fees do not wrap. */
  lemma CandidatesAreHonest(deposits: seq<Deposit>, txs: seq<ClientTx>, x: Item)
    requires NoWrap(deposits) && x in Ranked(deposits, txs) && x.Deposits?
    ensures x.total == SumBy(x.group, DepositFee)
  {
    var sorted := SortBy(deposits, DepositRank);
    var groups := GroupsOf(sorted);
    assert x in multiset(AsItems(groups) + AsClients(txs));
    var i :| 0 <= i < |groups| && x == Deposits(groups[i], GroupTotal(groups[i]));
    assert SumBy(groups[i], DepositFee) < MODULUS;
    hide *;
    GroupTotalIsSum(groups[i]);
  }

  /** The fees of any feasible deposits are at most those of the first groups, of the same number if there are as many. */
  lemma GroupsBound(deposits: seq<Deposit>, groups: seq<seq<Deposit>>) returns (n: nat)
    requires NoWrap(deposits) && multiset(Flatten(groups)) <= multiset(deposits)
    requires forall i :: 0 <= i < |groups| ==> |groups[i]| <= GROUP
    ensures var items := AsItems(GroupsOf(SortBy(deposits, DepositRank)));
            n <= |items| && n <= |groups| && SumBy(Flatten(groups), DepositFee) <= SumBy(items[..n], ItemFee)
  {
    var sorted := SortBy(deposits, DepositRank);
    var flat := Flatten(groups);
    var pads := GroupsFlatten(sorted);
    n := Min(|groups|, |GroupsOf(sorted)|);
    FlattenLength(groups);
    SubsetIsSmaller(flat, sorted);
    hide SumBy, SortBy, Flatten, GroupsOf;
    LongerFrontIsWorthMost(sorted, flat, Min(GROUP * n, |sorted|), DepositRank, DepositFee);
    FirstGroupsWorth(sorted, n);
  }

  lemma FeesAreNonNegative(items: seq<Item>)
    ensures NonNegative(items, ItemFee)
  {
    forall x | x in items
      ensures ItemFee(x) >= 0
    {
      match x
      case Deposits(_, total) =>
      case Client(tx) =>
    }
  }

  /** The selected part is worth at least any part of the candidates that fits. */
  lemma SelectedIsWorthMost(deposits: seq<Deposit>, txs: seq<ClientTx>, blockSize: nat, t: seq<Item>)
    requires |t| <= blockSize && multiset(t) <= multiset(Ranked(deposits, txs))
    ensures SumBy(t, ItemFee) <= SumBy(Selected(deposits, txs, blockSize), ItemFee)
  {
    var all := Ranked(deposits, txs);
    FeesAreNonNegative(all);
    RankIsFee(all);
    SubsetIsSmaller(t, all);
    hide SortBy, SumBy, GroupsOf;
    LongerFrontIsWorthMost(all, t, Min(blockSize, |all|), ItemRank, ItemFee);
    assert all[..|all|] == all;
  }

  lemma RankIsFee(items: seq<Item>)
    ensures forall x :: x in items ==> ItemRank(x) == -ItemFee(x)
  {
  }

  lemma PlanIsCandidates(deposits: seq<Deposit>, txs: seq<ClientTx>, n: nat, clients: seq<ClientTx>)
    requires n <= |AsItems(GroupsOf(SortBy(deposits, DepositRank)))| && multiset(clients) <= multiset(txs)
    ensures var items := AsItems(GroupsOf(SortBy(deposits, DepositRank)));
            multiset(items[..n] + AsClients(clients)) <= multiset(Ranked(deposits, txs))
  {
    var items := AsItems(GroupsOf(SortBy(deposits, DepositRank)));
    assert Ranked(deposits, txs) == SortBy(items + AsClients(txs), ItemRank);
    FewerClients(clients, txs);
    PartOfConcat(items, n, AsClients(clients), AsClients(txs));
    hide *;
  }

  lemma PartOfConcat(a: seq<Item>, n: nat, b: seq<Item>, c: seq<Item>)
    requires n <= |a| && multiset(b) <= multiset(c)
    ensures multiset(a[..n] + b) <= multiset(a + c)
  {
    assert a == a[..n] + a[n..];
  }

  /**
   Optimality: no way to fill the slots, whatever its grouping, earns more than sorting, grouping by
   four, sorting again and taking the first `blockSize`.
   */
  lemma SelectionIsOptimal(deposits: seq<Deposit>, txs: seq<ClientTx>, blockSize: nat, groups: seq<seq<Deposit>>, clients: seq<ClientTx>)
    requires NoWrap(deposits) && Feasible(deposits, txs, blockSize, groups, clients)
    ensures var chosen := Selected(deposits, txs, blockSize);
            TotalFee(groups, clients) <= TotalFee(DepositGroups(chosen), ClientTxs(chosen))
  {
    var chosen := Selected(deposits, txs, blockSize);
    var items := AsItems(GroupsOf(SortBy(deposits, DepositRank)));
    var n := GroupsBound(deposits, groups);
    var t := items[..n] + AsClients(clients);
    PlanIsCandidates(deposits, txs, n, clients);
    assert |t| <= blockSize;
    hide SumBy, SortBy, GroupsOf, AsItems, AsClients, Selected, Ranked, ItemFee, Flatten, DepositGroups, ClientTxs,
         NoWrap;
    SumOfConcat(items[..n], AsClients(clients), ItemFee);
    ClientsWorth(clients);
    SelectedIsWorthMost(deposits, txs, blockSize, t);
    forall x | x in chosen && x.Deposits?
      ensures x.total == SumBy(x.group, DepositFee)
    {
      CandidatesAreHonest(deposits, txs, x);
    }
    ItemsFee(chosen);
  }

  // ---------------------------------------------------------------- the mempool

  function NotIn<T, K(==)>(key: T -> K, out: set<K>): T -> bool {
    (x: T) => key(x) !in out
  }

  function KeysOf<T(==), K(==)>(s: seq<T>, key: T -> K): set<K> {
    set x | x in s :: key(x)
  }

  /** What the deposits of the mempool are deleted by. */
  function DepositKey(d: Deposit): (Fr, Fr) {
    (d.secretHash, d.slotId)
  }

  function TxKey(t: ClientTx): seq<nat> {
    t.hash
  }

  /** What is left of `all` when the stale and the used elements are deleted by key. */
  function Remaining<T(==), K(==)>(all: seq<T>, key: T -> K, stale: seq<T>, used: seq<T>): seq<T> {
    Keep(Keep(all, NotIn(key, KeysOf(stale, key))), NotIn(key, KeysOf(used, key)))
  }

  /** No fresh element that was not used shares its key with one that is deleted. */
  ghost predicate KeysSeparate<T(!new), K(!new)>(left: multiset<T>, key: T -> K, stale: seq<T>, used: seq<T>) {
    forall x :: x in left ==> key(x) !in KeysOf(stale, key) && key(x) !in KeysOf(used, key)
  }

  lemma RemainingCounts<T(!new), K(!new)>(all: seq<T>, key: T -> K, stale: seq<T>, used: seq<T>, x: T)
    ensures multiset(Remaining(all, key, stale, used))[x] ==
              if key(x) in KeysOf(stale, key) || key(x) in KeysOf(used, key) then 0 else multiset(all)[x]
  {
    KeepCounts(Keep(all, NotIn(key, KeysOf(stale, key))), NotIn(key, KeysOf(used, key)), x);
    KeepCounts(all, NotIn(key, KeysOf(stale, key)), x);
  }

  /**
   Deleting by key leaves exactly the unused fresh elements if and only if their keys separate them
   from the deleted ones.
   */
  lemma RemovalIsExact<T(!new), K(!new)>(all: seq<T>, key: T -> K, isFresh: T -> bool, stale: seq<T>, used: seq<T>)
    requires forall x :: x in stale <==> x in all && !isFresh(x)
    ensures var left := multiset(Keep(all, isFresh)) - multiset(used);
            multiset(Remaining(all, key, stale, used)) == left <==> KeysSeparate(left, key, stale, used)
  {
    var left := multiset(Keep(all, isFresh)) - multiset(used);
    var after := multiset(Remaining(all, key, stale, used));
    hide Keep, Remaining, NotIn;
    if KeysSeparate(left, key, stale, used) {
      forall x
        ensures after[x] == left[x]
      {
        RemainingCounts(all, key, stale, used, x);
        KeepCounts(all, isFresh, x);
        assert x in all <==> multiset(all)[x] > 0;
        assert x in used ==> key(x) in KeysOf(used, key);
        assert x in stale ==> key(x) in KeysOf(stale, key);
      }
    } else {
      var x :| x in left && (key(x) in KeysOf(stale, key) || key(x) in KeysOf(used, key));
      RemainingCounts(all, key, stale, used, x);
      assert after[x] == 0;
    }
  }

  /** Different positions have different keys. */
  ghost predicate KeysDiffer<T(!new), K(!new)>(all: seq<T>, key: T -> K) {
    forall i, j :: 0 <= i < j < |all| ==> key(all[i]) != key(all[j])
  }

  lemma DistinctKeysSeparate<T(!new), K(!new)>(all: seq<T>, key: T -> K, isFresh: T -> bool, stale: seq<T>, used: seq<T>)
    requires forall x :: x in stale <==> x in all && !isFresh(x)
    requires KeysDiffer(all, key)
    requires forall x, y :: x in all && y in used && key(x) == key(y) ==> y in all
    ensures KeysSeparate(multiset(Keep(all, isFresh)) - multiset(used), key, stale, used)
  {
    var left := multiset(Keep(all, isFresh)) - multiset(used);
    forall x | x in left
      ensures key(x) !in KeysOf(stale, key) && key(x) !in KeysOf(used, key)
    {
      KeepCounts(all, isFresh, x);
      assert isFresh(x) && x in multiset(all);
      if y :| y in stale && key(y) == key(x) {
        SameKeySame(all, key, x, y);
      }
      if y :| y in used && key(y) == key(x) {
        SameKeySame(all, key, x, y);
      }
    }
  }

  lemma SameKeySame<T(!new), K(!new)>(all: seq<T>, key: T -> K, x: T, y: T)
    requires KeysDiffer(all, key) && x in all && y in all && key(x) == key(y)
    ensures x == y && multiset(all)[x] == 1
  {
    var i := PositionOf(all, x);
    var j := PositionOf(all, y);
    assert !(i < j) && !(j < i);
    forall k | 0 <= k < |all| && k != i
      ensures all[k] != x
    {
      assert key(all[k]) != key(all[i]);
    }
    hide KeysDiffer;
    OnlyOnce(all, i);
  }

  lemma OnlyOnce<T>(all: seq<T>, i: nat)
    requires i < |all| && forall k :: 0 <= k < |all| && k != i ==> all[k] != all[i]
    ensures multiset(all)[all[i]] == 1
  {
    RemoveAtMultiset(all, i);
    assert all[i] !in RemoveAt(all, i);
    assert multiset(RemoveAt(all, i))[all[i]] == 0;
    hide *;
  }

  /**
   When no two deposits of the mempool share secret hash and slot, and none has those of the default
   deposit, each fresh one is in the selection or still in the mempool, and nothing else is there.
   */
  lemma DistinctDepositsAreConserved(all: seq<Deposit>, isFresh: Deposit -> bool, stale: seq<Deposit>, txs: seq<ClientTx>, blockSize: nat)
    requires forall x :: x in stale <==> x in all && !isFresh(x)
    requires KeysDiffer(all, DepositKey) && DepositKey(DEFAULT_DEPOSIT) !in KeysOf(all, DepositKey)
    ensures var pending := Keep(all, isFresh);
            var used := Flatten(DepositGroups(Selected(pending, txs, blockSize)));
            multiset(Remaining(all, DepositKey, stale, used)) == multiset(pending) - multiset(used)
  {
    var pending := Keep(all, isFresh);
    var used := Flatten(DepositGroups(Selected(pending, txs, blockSize)));
    var pads := SelectionConserves(pending, txs, blockSize);
    UsedIsRealOrPad(pending, txs, blockSize, pads);
    forall x, y | x in all && y in used && DepositKey(x) == DepositKey(y)
      ensures y in all
    {
      KeepCounts(all, isFresh, y);
      assert DepositKey(x) in KeysOf(all, DepositKey);
      assert y in multiset(all) || y == DEFAULT_DEPOSIT;
    }
    hide Selected, Remaining;
    DistinctKeysSeparate(all, DepositKey, isFresh, stale, used);
    RemovalIsExact(all, DepositKey, isFresh, stale, used);
  }

  /**
   When no two client transactions marked in the mempool have the same hash, each fresh one is in the
   selection or still marked, and no other is.
   */
  lemma DistinctTransactionsAreConserved(all: seq<ClientTx>, isFresh: ClientTx -> bool, stale: seq<ClientTx>, deposits: seq<Deposit>, blockSize: nat)
    requires forall x :: x in stale <==> x in all && !isFresh(x)
    requires KeysDiffer(all, TxKey)
    ensures var pending := Keep(all, isFresh);
            var used := ClientTxs(Selected(deposits, pending, blockSize));
            multiset(Remaining(all, TxKey, stale, used)) == multiset(pending) - multiset(used)
  {
    var pending := Keep(all, isFresh);
    var used := ClientTxs(Selected(deposits, pending, blockSize));
    var pads := SelectionConserves(deposits, pending, blockSize);
    forall y | y in used
      ensures y in all
    {
      assert y in multiset(used);
      KeepCounts(all, isFresh, y);
      assert y in multiset(all);
    }
    hide Selected, Remaining, Keep;
    DistinctKeysSeparate(all, TxKey, isFresh, stale, used);
    RemovalIsExact(all, TxKey, isFresh, stale, used);
  }

  lemma UsedIsRealOrPad(pending: seq<Deposit>, txs: seq<ClientTx>, blockSize: nat, pads: nat)
    requires var used := Flatten(DepositGroups(Selected(pending, txs, blockSize)));
             multiset(used) <= multiset(pending) + multiset(Pads(pads))
    ensures forall y :: y in Flatten(DepositGroups(Selected(pending, txs, blockSize))) ==> y in multiset(pending) || y == DEFAULT_DEPOSIT
  {
    forall y | y in Flatten(DepositGroups(Selected(pending, txs, blockSize)))
      ensures y in multiset(pending) || y == DEFAULT_DEPOSIT
    {
      assert y in multiset(Flatten(DepositGroups(Selected(pending, txs, blockSize))));
    }
  }

  /**
   With more than four deposits per slot under one key, some are in no block, yet all leave the mempool:
   the deletion by secret hash and slot is not exact.
   */
  lemma SharedKeyLosesDeposits(all: seq<Deposit>, blockSize: nat)
    requires forall i :: 0 <= i < |all| ==> DepositKey(all[i]) == DepositKey(all[0])
    requires |all| > GROUP * blockSize > 0
    ensures var used := Flatten(DepositGroups(Selected(all, [], blockSize)));
            |used| < |all| && Remaining(all, DepositKey, [], used) == []
  {
    var chosen := Selected(all, [], blockSize);
    var used := Flatten(DepositGroups(chosen));
    var pads := SelectionConserves(all, [], blockSize);
    SelectionFits(all, [], blockSize);
    FlattenOfFours(DepositGroups(chosen));
    PickedSize(chosen);
    NoClients(all, blockSize);
    SomeGroup(all);
    var d := RealOne(used, all, pads);
    KeepAll(all, NotIn(DepositKey, KeysOf([], DepositKey)));
    assert DepositKey(d) in KeysOf(used, DepositKey);
    KeepNone(all, NotIn(DepositKey, KeysOf(used, DepositKey)));
  }

  lemma {:induction false} FlattenOfFours(groups: seq<seq<Deposit>>)
    requires AllOfFour(groups)
    ensures |Flatten(groups)| == GROUP * |groups|
  {
    if groups != [] {
      FlattenOfFours(groups[1..]);
    }
  }

  lemma NoClients(deposits: seq<Deposit>, blockSize: nat)
    ensures ClientTxs(Selected(deposits, [], blockSize)) == []
  {
    var pads := SelectionConserves(deposits, [], blockSize);
    assert |multiset(ClientTxs(Selected(deposits, [], blockSize)))| == 0;
  }

  lemma SomeGroup(deposits: seq<Deposit>)
    ensures deposits != [] ==> |Ranked(deposits, [])| > 0
  {
    var sorted := SortBy(deposits, DepositRank);
    var pads := GroupsFlatten(sorted);
  }

  lemma RealOne(used: seq<Deposit>, all: seq<Deposit>, pads: nat) returns (d: Deposit)
    requires multiset(used) <= multiset(all) + multiset(Pads(pads)) && pads < |used|
    ensures d in used && d in all
  {
    if forall x :: x in used ==> x !in all {
      OnlyPads(used, all, pads);
      assert false;
    }
    d :| d in used && d in all;
  }

  lemma OnlyPads(used: seq<Deposit>, all: seq<Deposit>, pads: nat)
    requires multiset(used) <= multiset(all) + multiset(Pads(pads))
    requires forall x :: x in used ==> x !in all
    ensures |used| <= pads
  {
    forall x
      ensures multiset(used)[x] <= multiset(Pads(pads))[x]
    {
      if x in used {
        assert x !in multiset(all);
      }
    }
    SubsetIsSmaller(used, Pads(pads));
  }

  lemma {:induction false} KeepNone<T>(s: seq<T>, p: T -> bool)
    requires forall x :: x in s ==> !p(x)
    ensures Keep(s, p) == []
  {
    if s != [] {
      KeepNone(s[1..], p);
    }
  }

  function FreshDeposit(commitment: Deposit -> Fr, onChain: set<Fr>): Deposit -> bool {
    NotIn(commitment, onChain)
  }

  /** None of the commitments in use is on chain. */
  function FreshTx(onChain: set<Fr>): ClientTx -> bool {
    (t: ClientTx) => forall c :: c in t.commitments && c != 0 ==> c !in onChain
  }

  function Not<T>(p: T -> bool): T -> bool {
    (x: T) => !p(x)
  }

  lemma RemovedByKey<T(!new), K(!new)>(s: seq<T>, key: T -> K, used: seq<T>)
    ensures forall x :: multiset(Keep(s, NotIn(key, KeysOf(used, key))))[x] ==
              if exists u :: u in used && key(u) == key(x) then 0 else multiset(s)[x]
  {
    forall x
      ensures multiset(Keep(s, NotIn(key, KeysOf(used, key))))[x] ==
                if exists u :: u in used && key(u) == key(x) then 0 else multiset(s)[x]
    {
      KeepCounts(s, NotIn(key, KeysOf(used, key)), x);
    }
  }

  lemma KeptAre<T(!new)>(s: seq<T>, p: T -> bool)
    ensures forall x :: x in Keep(s, p) <==> x in s && p(x)
  {
    forall x
      ensures x in Keep(s, p) <==> x in s && p(x)
    {
      KeepCounts(s, p, x);
      assert x in Keep(s, p) <==> x in multiset(Keep(s, p));
      assert x in s <==> x in multiset(s);
    }
  }

  /** A part of what is kept is a part of the whole in which all satisfy `p`. */
  lemma PartOfKept<T(!new)>(q: seq<T>, s: seq<T>, p: T -> bool)
    ensures multiset(q) <= multiset(Keep(s, p)) <==> multiset(q) <= multiset(s) && forall x :: x in q ==> p(x)
  {
    forall x
      ensures multiset(Keep(s, p))[x] == if p(x) then multiset(s)[x] else 0
    {
      KeepCounts(s, p, x);
    }
    assert forall x :: x in q <==> multiset(q)[x] > 0;
  }

  class Mempool {
    var deposits: seq<Deposit>
    /** Those marked as in the mempool. */
    var transactions: seq<ClientTx>

    constructor (deposits: seq<Deposit>, transactions: seq<ClientTx>)
      ensures this.deposits == deposits && this.transactions == transactions
    {
      this.deposits := deposits;
      this.transactions := transactions;
    }

    /** Deletes every deposit with the secret hash and slot of one in the list. */
    method RemoveDeposits(used: seq<Deposit>)
      modifies this`deposits
      ensures deposits == Keep(old(deposits), NotIn(DepositKey, KeysOf(used, DepositKey)))
      ensures forall d :: multiset(deposits)[d] ==
                if exists u :: u in used && u.secretHash == d.secretHash && u.slotId == d.slotId then 0 else multiset(old(deposits))[d]
    {
      RemovedByKey(deposits, DepositKey, used);
      deposits := Keep(deposits, NotIn(DepositKey, KeysOf(used, DepositKey)));
    }

    /** Unmarks every transaction with the hash of one in the list. */
    method UnsetInMempool(used: seq<ClientTx>)
      modifies this`transactions
      ensures transactions == Keep(old(transactions), NotIn(TxKey, KeysOf(used, TxKey)))
      ensures forall t :: multiset(transactions)[t] ==
                if exists u :: u in used && u.hash == t.hash then 0 else multiset(old(transactions))[t]
    {
      RemovedByKey(transactions, TxKey, used);
      transactions := Keep(transactions, NotIn(TxKey, KeysOf(used, TxKey)));
    }

    /**
     Chooses the next block's content. The stale items leave the mempool in any case; the selected ones
     when there is something to select.
     */
    method PrepareBlockData(blockSize: nat, commitment: Deposit -> Fr, onChain: set<Fr>)
      returns (r: Result<(seq<seq<Deposit>>, seq<ClientTx>)>)
      modifies this
      ensures r.Ok? <==>
                && (blockSize == 64 || blockSize == 256 || blockSize == 1024)
                && ((exists d :: d in old(deposits) && commitment(d) !in onChain)
                    || exists t :: t in old(transactions) && forall c :: c in t.commitments && c != 0 ==> c !in onChain)
      ensures r.Ok? ==>
                && (forall d :: d in Flatten(r.value.0) ==> d == DEFAULT_DEPOSIT || (d in old(deposits) && commitment(d) !in onChain))
                && (forall t :: t in r.value.1 ==> t in old(transactions) && forall c :: c in t.commitments && c != 0 ==> c !in onChain)
      ensures !BlockSizeAllowed(blockSize) ==> r == Err(BadBlockSize) && unchanged(this)
      ensures BlockSizeAllowed(blockSize) ==>
                var freshDeposits := Keep(old(deposits), FreshDeposit(commitment, onChain));
                var freshTxs := Keep(old(transactions), FreshTx(onChain));
                var staleDeposits := Keep(old(deposits), Not(FreshDeposit(commitment, onChain)));
                var staleTxs := Keep(old(transactions), Not(FreshTx(onChain)));
                var chosen := Selected(freshDeposits, freshTxs, blockSize);
                var usedDeposits, usedTxs := DepositGroups(chosen), ClientTxs(chosen);
                && (r.Err? <==> freshDeposits == [] && freshTxs == [])
                && (r.Err? ==> r.error == InsufficientTransactions)
                && (r.Ok? ==> r.value == (usedDeposits, usedTxs))
                && deposits == Remaining(old(deposits), DepositKey, staleDeposits, if r.Ok? then Flatten(usedDeposits) else [])
                && transactions == Remaining(old(transactions), TxKey, staleTxs, if r.Ok? then usedTxs else [])
    {
      if !BlockSizeAllowed(blockSize) {
        return Err(BadBlockSize);
      }
      hide FreshDeposit, FreshTx, Flatten, Keep, KeysOf, NotIn, DepositGroups, ClientTxs, GroupsOf, SortBy;
      SomethingFresh(deposits, transactions, commitment, onChain);
      SelectedAreFresh(deposits, transactions, commitment, onChain, blockSize);
      var pendingDeposits := Keep(deposits, FreshDeposit(commitment, onChain));
      var staleDeposits := Keep(deposits, Not(FreshDeposit(commitment, onChain)));
      var pendingTxs := Keep(transactions, FreshTx(onChain));
      var staleTxs := Keep(transactions, Not(FreshTx(onChain)));
      RemoveDeposits(staleDeposits);
      UnsetInMempool(staleTxs);
      if pendingDeposits == [] && pendingTxs == [] {
        NothingRemoved(deposits, DepositKey);
        NothingRemoved(transactions, TxKey);
        return Err(InsufficientTransactions);
      }
      var sorted := SortBy(pendingDeposits, DepositRank);
      var groups := GroupDeposits(sorted);
      var all := SortBy(AsItems(groups) + AsClients(pendingTxs), ItemRank);
      var selected := Take(all, blockSize);
      var usedDeposits, usedTxs := DepositGroups(selected), ClientTxs(selected);
      RemoveDeposits(Flatten(usedDeposits));
      UnsetInMempool(usedTxs);
      r := Ok((usedDeposits, usedTxs));
    }
  }

  /** What is selected comes from the candidates, but for defaults. */
  lemma SelectedAre(deposits: seq<Deposit>, txs: seq<ClientTx>, blockSize: nat)
    ensures forall d :: d in Flatten(DepositGroups(Selected(deposits, txs, blockSize))) ==> d in deposits || d == DEFAULT_DEPOSIT
    ensures forall t :: t in ClientTxs(Selected(deposits, txs, blockSize)) ==> t in txs
  {
    var pads := SelectionConserves(deposits, txs, blockSize);
    UsedIsRealOrPad(deposits, txs, blockSize, pads);
    forall t | t in ClientTxs(Selected(deposits, txs, blockSize))
      ensures t in txs
    {
      assert t in multiset(ClientTxs(Selected(deposits, txs, blockSize)));
      assert t in multiset(txs);
    }
  }

  lemma SomethingFresh(deposits: seq<Deposit>, txs: seq<ClientTx>, commitment: Deposit -> Fr, onChain: set<Fr>)
    ensures Keep(deposits, FreshDeposit(commitment, onChain)) != [] <==> exists d :: d in deposits && commitment(d) !in onChain
    ensures Keep(txs, FreshTx(onChain)) != []
       <==> exists t :: t in txs && forall c :: c in t.commitments && c != 0 ==> c !in onChain
  {
    var d, t := Keep(deposits, FreshDeposit(commitment, onChain)), Keep(txs, FreshTx(onChain));
    KeptAre(deposits, FreshDeposit(commitment, onChain));
    KeptAre(txs, FreshTx(onChain));
    assert d != [] ==> d[0] in d;
    assert t != [] ==> t[0] in t;
  }

  lemma SelectedAreFresh(deposits: seq<Deposit>, txs: seq<ClientTx>, commitment: Deposit -> Fr, onChain: set<Fr>, blockSize: nat)
    ensures var chosen := Selected(Keep(deposits, FreshDeposit(commitment, onChain)), Keep(txs, FreshTx(onChain)), blockSize);
            && (forall d :: d in Flatten(DepositGroups(chosen)) ==> d == DEFAULT_DEPOSIT || (d in deposits && commitment(d) !in onChain))
            && (forall t :: t in ClientTxs(chosen) ==> t in txs && forall c :: c in t.commitments && c != 0 ==> c !in onChain)
  {
    KeptAre(deposits, FreshDeposit(commitment, onChain));
    KeptAre(txs, FreshTx(onChain));
    SelectedAre(Keep(deposits, FreshDeposit(commitment, onChain)), Keep(txs, FreshTx(onChain)), blockSize);
    hide Selected;
  }

  lemma NothingRemoved<T(!new), K(!new)>(s: seq<T>, key: T -> K)
    ensures Keep(s, NotIn(key, KeysOf([], key))) == s
  {
    KeepAll(s, NotIn(key, KeysOf([], key)));
  }

  lemma {:induction false} KeepAll<T>(s: seq<T>, p: T -> bool)
    requires forall x :: x in s ==> p(x)
    ensures Keep(s, p) == s
  {
    if s != [] {
      KeepAll(s[1..], p);
    }
  }

  // ---------------------------------------------------------------- the block

  /** The deposit proofs' inputs and the client transactions; default deposits fill the block up. */
  method MakeBlock(groups: seq<seq<Deposit>>, clients: seq<ClientTx>, blockSize: nat)
    returns (r: Result<(seq<seq<Deposit>>, seq<ClientTx>)>)
    ensures r.Ok? <==> AllOfFour(groups) && BlockSizeAllowed(blockSize)
    ensures r == Err(BadGroup) <==> !AllOfFour(groups)
    ensures r.Ok? ==>
              && AllOfFour(r.value.0) && r.value.1 == clients && groups <= r.value.0
              && (forall i :: |groups| <= i < |r.value.0| ==> r.value.0[i] == Pads(GROUP))
              && (|groups| + |clients| <= blockSize ==> |r.value.0| + |clients| == blockSize)
              && (|groups| + |clients| > blockSize ==> r.value.0 == groups)
  {
    for i := 0 to |groups|
      invariant AllOfFour(groups[..i])
    {
      if |groups[i]| != GROUP {
        return Err(BadGroup);
      }
      assert groups[..i + 1] == groups[..i] + [groups[i]];
    }
    assert groups[..|groups|] == groups;
    if !BlockSizeAllowed(blockSize) {
      return Err(BadBlockSize);
    }
    var proofs := groups;
    var count := |groups| + |clients|;
    if count < blockSize {
      for i := 0 to blockSize - count
        invariant groups <= proofs && |proofs| == |groups| + i
        invariant forall k :: |groups| <= k < |proofs| ==> proofs[k] == Pads(GROUP)
      {
        proofs := proofs + [Pads(GROUP)];
      }
    }
    r := Ok((proofs, clients));
  }

  /**
   No block that could have been filled from the items of the mempool with no commitment on chain, in groups of up to
   four, is worth more, unless the fees of some four deposits among them sum past the field.
   */
  ghost predicate NoBetterBlock(ds: seq<Deposit>, ts: seq<ClientTx>, commitment: Deposit -> Fr, onChain: set<Fr>, blockSize: nat,
                                block: seq<seq<Deposit>>, blockTxs: seq<ClientTx>)
  {
    (forall four: seq<Deposit> ::
      (|four| <= 4 && multiset(four) <= multiset(ds) && forall d :: d in four ==> commitment(d) !in onChain)
      ==> SumBy(four, DepositFee) < MODULUS) ==>
      forall groups: seq<seq<Deposit>>, clients: seq<ClientTx> ::
        (&& |groups| + |clients| <= blockSize && (forall i :: 0 <= i < |groups| ==> |groups[i]| <= 4)
         && multiset(Flatten(groups)) <= multiset(ds) && multiset(clients) <= multiset(ts)
         && (forall d :: d in Flatten(groups) ==> commitment(d) !in onChain)
         && (forall t :: t in clients ==> forall c :: c in t.commitments && c != 0 ==> c !in onChain))
        ==> TotalFee(groups, clients) <= TotalFee(block, blockTxs)
  }

  /**
   When no two deposits of the mempool share secret hash and slot, and none has zero for both, those left are
   those not used with no commitment on chain, each once.
   */
  ghost predicate DepositsLeft(ds: seq<Deposit>, commitment: Deposit -> Fr, onChain: set<Fr>, used: seq<Deposit>, left: seq<Deposit>) {
    (forall i, j :: 0 <= i < j < |ds| ==> ds[i].secretHash != ds[j].secretHash || ds[i].slotId != ds[j].slotId)
    && (forall d :: d in ds ==> d.secretHash != 0 || d.slotId != 0) ==>
      forall d :: multiset(left)[d] == if d in ds && commitment(d) !in onChain && d !in used then 1 else 0
  }

  /** When no two transactions have the same hash, those left are those not used with no commitment on chain, each once. */
  ghost predicate TransactionsLeft(ts: seq<ClientTx>, onChain: set<Fr>, used: seq<ClientTx>, left: seq<ClientTx>) {
    (forall i, j :: 0 <= i < j < |ts| ==> ts[i].hash != ts[j].hash) ==>
      forall t :: multiset(left)[t] ==
        if t in ts && (forall c :: c in t.commitments && c != 0 ==> c !in onChain) && t !in used then 1 else 0
  }

  /**
   A block assembled from the mempool has exactly `blockSize` transactions; nothing in it but the padding has a commitment
   that is on chain. No block that could have been filled from the other items of the mempool has a higher total fee,
   unless the fees of some four deposits sum past the field. When the items have different keys, each that is
   not on chain is in the block or still in the mempool, and nothing else is left there.
   */
  method AssembleBlock(mempool: Mempool, blockSize: nat, commitment: Deposit -> Fr, onChain: set<Fr>)
    returns (r: Result<(seq<seq<Deposit>>, seq<ClientTx>)>)
    modifies mempool
    ensures r.Ok? <==>
              && (blockSize == 64 || blockSize == 256 || blockSize == 1024)
              && ((exists d :: d in old(mempool.deposits) && commitment(d) !in onChain)
                  || exists t :: t in old(mempool.transactions) && forall c :: c in t.commitments && c != 0 ==> c !in onChain)
    ensures r.Err? ==>
              r.error == if blockSize == 64 || blockSize == 256 || blockSize == 1024 then InsufficientTransactions else BadBlockSize
    ensures r.Ok? ==> |r.value.0| + |r.value.1| == blockSize && forall i :: 0 <= i < |r.value.0| ==> |r.value.0[i]| == 4
    ensures r.Ok? ==>
              && (forall d :: d in Flatten(r.value.0) ==> d == DEFAULT_DEPOSIT || (d in old(mempool.deposits) && commitment(d) !in onChain))
              && (forall t :: t in r.value.1 ==>
                    t in old(mempool.transactions) && forall c :: c in t.commitments && c != 0 ==> c !in onChain)
    ensures r.Ok? ==> NoBetterBlock(old(mempool.deposits), old(mempool.transactions), commitment, onChain, blockSize, r.value.0, r.value.1)
    ensures r.Err? && r.error == BadBlockSize ==> unchanged(mempool)
    ensures r.Ok? || r.error == InsufficientTransactions ==>
              && DepositsLeft(old(mempool.deposits), commitment, onChain, if r.Ok? then Flatten(r.value.0) else [], mempool.deposits)
              && TransactionsLeft(old(mempool.transactions), onChain, if r.Ok? then r.value.1 else [], mempool.transactions)
  {
    ghost var ds, ts := mempool.deposits, mempool.transactions;
    hide *;
    r := AssembleSelection(mempool, blockSize, commitment, onChain);
    AllowedSizes(blockSize);
    if r.Ok? {
      DistinctAreLeft(ds, ts, commitment, onChain, blockSize, r.value.0);
      BlockIsBest(ds, ts, commitment, onChain, blockSize, r.value.0);
    } else if BlockSizeAllowed(blockSize) {
      NothingFresh(ds, ts, commitment, onChain);
    }
  }

  /** The same in terms of the selection. */
  method AssembleSelection(mempool: Mempool, blockSize: nat, commitment: Deposit -> Fr, onChain: set<Fr>)
    returns (r: Result<(seq<seq<Deposit>>, seq<ClientTx>)>)
    modifies mempool
    ensures var freshDeposits := Keep(old(mempool.deposits), FreshDeposit(commitment, onChain));
            var freshTxs := Keep(old(mempool.transactions), FreshTx(onChain));
            var staleDeposits := Keep(old(mempool.deposits), Not(FreshDeposit(commitment, onChain)));
            var staleTxs := Keep(old(mempool.transactions), Not(FreshTx(onChain)));
            var chosen := Selected(freshDeposits, freshTxs, blockSize);
            && (r.Ok? <==> BlockSizeAllowed(blockSize) && (freshDeposits != [] || freshTxs != []))
            && (r.Err? ==> r.error == if BlockSizeAllowed(blockSize) then InsufficientTransactions else BadBlockSize)
            && (r.Ok? ==> PaddedBy(DepositGroups(chosen), r.value.0) && r.value.1 == ClientTxs(chosen))
            && (BlockSizeAllowed(blockSize) ==>
                  && mempool.deposits == Remaining(old(mempool.deposits), DepositKey, staleDeposits,
                                                   if r.Ok? then Flatten(DepositGroups(chosen)) else [])
                  && mempool.transactions == Remaining(old(mempool.transactions), TxKey, staleTxs, if r.Ok? then ClientTxs(chosen) else []))
    ensures !BlockSizeAllowed(blockSize) ==> unchanged(mempool)
    ensures r.Ok? <==>
              && (blockSize == 64 || blockSize == 256 || blockSize == 1024)
              && ((exists d :: d in old(mempool.deposits) && commitment(d) !in onChain)
                  || exists t :: t in old(mempool.transactions) && forall c :: c in t.commitments && c != 0 ==> c !in onChain)
    ensures r.Ok? ==> |r.value.0| + |r.value.1| == blockSize && forall i :: 0 <= i < |r.value.0| ==> |r.value.0[i]| == 4
    ensures r.Ok? ==>
              && (forall d :: d in Flatten(r.value.0) ==> d == DEFAULT_DEPOSIT || (d in old(mempool.deposits) && commitment(d) !in onChain))
              && (forall t :: t in r.value.1 ==>
                    t in old(mempool.transactions) && forall c :: c in t.commitments && c != 0 ==> c !in onChain)
  {
    hide Selected, Keep, Remaining, FreshDeposit, FreshTx, Flatten, DepositGroups, ClientTxs;
    ghost var d, t := Keep(mempool.deposits, FreshDeposit(commitment, onChain)), Keep(mempool.transactions, FreshTx(onChain));
    var data := mempool.PrepareBlockData(blockSize, commitment, onChain);
    if data.Err? {
      return data;
    }
    SelectionFits(d, t, blockSize);
    r := MakeBlock(data.value.0, data.value.1, blockSize);
    PaddedAre(data.value.0, r.value.0);
  }

  /** The block holds the groups, and behind them groups of defaults. */
  ghost predicate PaddedBy(groups: seq<seq<Deposit>>, block: seq<seq<Deposit>>) {
    groups <= block && forall i :: |groups| <= i < |block| ==> block[i] == Pads(GROUP)
  }

  lemma BlockIsBest(ds: seq<Deposit>, ts: seq<ClientTx>, commitment: Deposit -> Fr, onChain: set<Fr>, blockSize: nat,
                    block: seq<seq<Deposit>>)
    requires PaddedBy(DepositGroups(Selected(Keep(ds, FreshDeposit(commitment, onChain)), Keep(ts, FreshTx(onChain)), blockSize)), block)
    ensures var chosen := Selected(Keep(ds, FreshDeposit(commitment, onChain)), Keep(ts, FreshTx(onChain)), blockSize);
            NoBetterBlock(ds, ts, commitment, onChain, blockSize, block, ClientTxs(chosen))
  {
    hide Selected, Keep, FreshDeposit, FreshTx, Flatten, DepositGroups, ClientTxs, TotalFee, SumBy, NoWrap;
    var chosen := Selected(Keep(ds, FreshDeposit(commitment, onChain)), Keep(ts, FreshTx(onChain)), blockSize);
    PaddingIsFree(DepositGroups(chosen), block, ClientTxs(chosen));
    if forall four: seq<Deposit> ::
        (|four| <= 4 && multiset(four) <= multiset(ds) && forall x :: x in four ==> commitment(x) !in onChain)
        ==> SumBy(four, DepositFee) < MODULUS {
      FoursFit(ds, commitment, onChain);
      forall groups: seq<seq<Deposit>>, clients: seq<ClientTx> |
        && |groups| + |clients| <= blockSize && (forall i :: 0 <= i < |groups| ==> |groups[i]| <= 4)
        && multiset(Flatten(groups)) <= multiset(ds) && multiset(clients) <= multiset(ts)
        && (forall x :: x in Flatten(groups) ==> commitment(x) !in onChain)
        && (forall x :: x in clients ==> forall c :: c in x.commitments && c != 0 ==> c !in onChain)
        ensures TotalFee(groups, clients) <= TotalFee(block, ClientTxs(chosen))
      {
        NoneBetter(ds, ts, commitment, onChain, blockSize, groups, clients);
      }
    }
  }

  lemma AllowedSizes(blockSize: nat)
    ensures BlockSizeAllowed(blockSize) <==> blockSize == 64 || blockSize == 256 || blockSize == 1024
  {
  }

  /** No two deposits share secret hash and slot, and none has those of the default deposit. */
  ghost predicate DistinctDeposits(all: seq<Deposit>) {
    KeysDiffer(all, DepositKey) && DepositKey(DEFAULT_DEPOSIT) !in KeysOf(all, DepositKey)
  }

  /** If no four deposits that are not on chain have fees that sum past the field, no group's total wraps. */
  lemma FoursFit(all: seq<Deposit>, commitment: Deposit -> Fr, onChain: set<Fr>)
    requires forall four: seq<Deposit> ::
      (|four| <= 4 && multiset(four) <= multiset(all) && forall x :: x in four ==> commitment(x) !in onChain)
      ==> SumBy(four, DepositFee) < MODULUS
    ensures NoWrap(Keep(all, FreshDeposit(commitment, onChain)))
  {
    var d := Keep(all, FreshDeposit(commitment, onChain));
    var sorted := SortBy(d, DepositRank);
    hide SumBy, SortBy, Keep;
    forall four: seq<Deposit> | |four| <= 4 && multiset(four) <= multiset(sorted)
      ensures SumBy(four, DepositFee) < MODULUS
    {
      PartOfKept(four, all, FreshDeposit(commitment, onChain));
    }
    PartsFit(sorted);
  }

  /** No four of these deposits have fees that sum past the field. */
  ghost predicate NoFourWrap(s: seq<Deposit>) {
    forall four: seq<Deposit> :: |four| <= 4 && multiset(four) <= multiset(s) ==> SumBy(four, DepositFee) < MODULUS
  }

  lemma NoFourWrapOf(s: seq<Deposit>, part: seq<Deposit>)
    requires NoFourWrap(s) && multiset(part) <= multiset(s)
    ensures NoFourWrap(part) && (|part| <= 4 ==> SumBy(part, DepositFee) < MODULUS)
  {
    hide SumBy;
  }

  lemma PartsOfSplit(front: seq<Deposit>, rest: seq<Deposit>)
    ensures multiset(front) <= multiset(front + rest) && multiset(rest) <= multiset(front + rest)
  {
  }

  lemma {:induction false} PartsFit(s: seq<Deposit>)
    requires NoFourWrap(s)
    ensures GroupsFit(GroupsOf(s))
  {
    hide SumBy, NoFourWrap;
    if s != [] && |s| < GROUP {
      NoFourWrapOf(s, s);
      SumOfConcat(s, Pads(GROUP - |s|), DepositFee);
      PadsAreFree(GROUP - |s|);
    } else if s != [] {
      var front, rest := s[..GROUP], s[GROUP..];
      assert s == front + rest;
      PartsOfSplit(front, rest);
      NoFourWrapOf(s, front);
      NoFourWrapOf(s, rest);
      PartsFit(rest);
      FirstFits(front, GroupsOf(rest));
    }
  }

  lemma FirstFits(front: seq<Deposit>, groups: seq<seq<Deposit>>)
    requires SumBy(front, DepositFee) < MODULUS && GroupsFit(groups)
    ensures GroupsFit([front] + groups)
  {
    hide SumBy;
  }

  /** Nothing that could fill a block from the items not on chain is worth more than the selection. */
  lemma NoneBetter(ds: seq<Deposit>, ts: seq<ClientTx>, commitment: Deposit -> Fr, onChain: set<Fr>, blockSize: nat,
                   groups: seq<seq<Deposit>>, clients: seq<ClientTx>)
    requires NoWrap(Keep(ds, FreshDeposit(commitment, onChain)))
    requires |groups| + |clients| <= blockSize && forall i :: 0 <= i < |groups| ==> |groups[i]| <= 4
    requires multiset(Flatten(groups)) <= multiset(ds) && multiset(clients) <= multiset(ts)
    requires forall x :: x in Flatten(groups) ==> commitment(x) !in onChain
    requires forall x :: x in clients ==> forall c :: c in x.commitments && c != 0 ==> c !in onChain
    ensures var chosen := Selected(Keep(ds, FreshDeposit(commitment, onChain)), Keep(ts, FreshTx(onChain)), blockSize);
            TotalFee(groups, clients) <= TotalFee(DepositGroups(chosen), ClientTxs(chosen))
  {
    hide Selected, Keep, Flatten, DepositGroups, ClientTxs, TotalFee, NoWrap;
    PartOfKept(Flatten(groups), ds, FreshDeposit(commitment, onChain));
    PartOfKept(clients, ts, FreshTx(onChain));
    SelectionIsOptimal(Keep(ds, FreshDeposit(commitment, onChain)), Keep(ts, FreshTx(onChain)), blockSize, groups, clients);
  }

  /** With distinct keys, what is left of the fresh elements are those not used, each once. */
  lemma RestOfDistinct<T(!new), K(!new)>(all: seq<T>, key: T -> K, isFresh: T -> bool, used: seq<T>)
    requires KeysDiffer(all, key)
    ensures forall x :: (multiset(Keep(all, isFresh)) - multiset(used))[x] == if x in all && isFresh(x) && x !in used then 1 else 0
  {
    forall x
      ensures (multiset(Keep(all, isFresh)) - multiset(used))[x] == if x in all && isFresh(x) && x !in used then 1 else 0
    {
      KeepCounts(all, isFresh, x);
      assert x in all <==> multiset(all)[x] > 0;
      assert x in used <==> multiset(used)[x] > 0;
      if x in all {
        SameKeySame(all, key, x, x);
      }
    }
  }

  /** What is left in the mempool after a block, when the keys are distinct. */
  lemma DistinctAreLeft(ds: seq<Deposit>, ts: seq<ClientTx>, commitment: Deposit -> Fr, onChain: set<Fr>, blockSize: nat,
                        block: seq<seq<Deposit>>)
    requires PaddedBy(DepositGroups(Selected(Keep(ds, FreshDeposit(commitment, onChain)), Keep(ts, FreshTx(onChain)), blockSize)), block)
    ensures var chosen := Selected(Keep(ds, FreshDeposit(commitment, onChain)), Keep(ts, FreshTx(onChain)), blockSize);
            && DepositsLeft(ds, commitment, onChain, Flatten(block),
                            Remaining(ds, DepositKey, Keep(ds, Not(FreshDeposit(commitment, onChain))), Flatten(DepositGroups(chosen))))
            && TransactionsLeft(ts, onChain, ClientTxs(chosen), Remaining(ts, TxKey, Keep(ts, Not(FreshTx(onChain))), ClientTxs(chosen)))
  {
    var freshDeposit, freshTx := FreshDeposit(commitment, onChain), FreshTx(onChain);
    var chosen := Selected(Keep(ds, freshDeposit), Keep(ts, freshTx), blockSize);
    hide Selected, Keep, Remaining, Flatten, DepositGroups, ClientTxs;
    MempoolKeepsRest(ds, freshDeposit, ts, freshTx, blockSize, block);
    if KeysDiffer(ts, TxKey) {
      RestOfDistinct(ts, TxKey, freshTx, ClientTxs(chosen));
    }
    if DistinctDeposits(ds) {
      RestOfDistinct(ds, DepositKey, freshDeposit, Flatten(block));
    }
    hide FreshDeposit, FreshTx, DepositsLeft, TransactionsLeft, KeysDiffer, DistinctDeposits;
    LeftDeposits(ds, commitment, onChain, Flatten(block),
                 Remaining(ds, DepositKey, Keep(ds, Not(freshDeposit)), Flatten(DepositGroups(chosen))));
    LeftTransactions(ts, onChain, ClientTxs(chosen), Remaining(ts, TxKey, Keep(ts, Not(freshTx)), ClientTxs(chosen)));
  }

  lemma LeftDeposits(ds: seq<Deposit>, commitment: Deposit -> Fr, onChain: set<Fr>, used: seq<Deposit>, left: seq<Deposit>)
    requires DistinctDeposits(ds) ==>
               forall d :: multiset(left)[d] == if d in ds && FreshDeposit(commitment, onChain)(d) && d !in used then 1 else 0
    ensures DepositsLeft(ds, commitment, onChain, used, left)
  {
    if (forall i, j :: 0 <= i < j < |ds| ==> ds[i].secretHash != ds[j].secretHash || ds[i].slotId != ds[j].slotId)
      && forall d :: d in ds ==> d.secretHash != 0 || d.slotId != 0 {
      assert DistinctDeposits(ds);
    }
  }

  lemma LeftTransactions(ts: seq<ClientTx>, onChain: set<Fr>, used: seq<ClientTx>, left: seq<ClientTx>)
    requires KeysDiffer(ts, TxKey) ==>
               forall t :: multiset(left)[t] == if t in ts && FreshTx(onChain)(t) && t !in used then 1 else 0
    ensures TransactionsLeft(ts, onChain, used, left)
  {
    if forall i, j :: 0 <= i < j < |ts| ==> ts[i].hash != ts[j].hash {
      assert KeysDiffer(ts, TxKey);
    }
  }

  /** When every item has a commitment on chain, all go. */
  lemma NothingFresh(ds: seq<Deposit>, ts: seq<ClientTx>, commitment: Deposit -> Fr, onChain: set<Fr>)
    requires Keep(ds, FreshDeposit(commitment, onChain)) == [] && Keep(ts, FreshTx(onChain)) == []
    ensures Remaining(ds, DepositKey, Keep(ds, Not(FreshDeposit(commitment, onChain))), []) == []
    ensures Remaining(ts, TxKey, Keep(ts, Not(FreshTx(onChain))), []) == []
    ensures DepositsLeft(ds, commitment, onChain, [], []) && TransactionsLeft(ts, onChain, [], [])
  {
    NothingSelected(ds, DepositKey, FreshDeposit(commitment, onChain));
    NothingSelected(ts, TxKey, FreshTx(onChain));
    SomethingFresh(ds, ts, commitment, onChain);
    hide Keep, Remaining;
  }

  /** When nothing is fresh, everything is stale and goes. */
  lemma NothingSelected<T(!new), K(!new)>(all: seq<T>, key: T -> K, isFresh: T -> bool)
    ensures Keep(all, isFresh) == [] ==> Remaining(all, key, Keep(all, Not(isFresh)), []) == []
  {
    if Keep(all, isFresh) == [] {
      KeptAre(all, Not(isFresh));
      forall x | x in all
        ensures !NotIn(key, KeysOf(Keep(all, Not(isFresh)), key))(x)
      {
        KeepCounts(all, isFresh, x);
        assert x in multiset(all);
      }
      KeepNone(all, NotIn(key, KeysOf(Keep(all, Not(isFresh)), key)));
    }
  }

  /** The mempool after the deletions, with default groups added to what was selected. */
  lemma MempoolKeepsRest(deposits: seq<Deposit>, freshDeposit: Deposit -> bool, txs: seq<ClientTx>, freshTx: ClientTx -> bool,
                         blockSize: nat, block: seq<seq<Deposit>>)
    requires var groups := DepositGroups(Selected(Keep(deposits, freshDeposit), Keep(txs, freshTx), blockSize));
             groups <= block && forall i :: |groups| <= i < |block| ==> block[i] == Pads(GROUP)
    ensures var d, t := Keep(deposits, freshDeposit), Keep(txs, freshTx);
            var chosen := Selected(d, t, blockSize);
            && (DistinctDeposits(deposits) ==>
                  multiset(Remaining(deposits, DepositKey, Keep(deposits, Not(freshDeposit)), Flatten(DepositGroups(chosen))))
                  == multiset(d) - multiset(Flatten(block)))
            && (KeysDiffer(txs, TxKey) ==>
                  multiset(Remaining(txs, TxKey, Keep(txs, Not(freshTx)), ClientTxs(chosen))) == multiset(t) - multiset(ClientTxs(chosen)))
  {
    var d, t := Keep(deposits, freshDeposit), Keep(txs, freshTx);
    var groups := DepositGroups(Selected(d, t, blockSize));
    KeptAre(deposits, Not(freshDeposit));
    KeptAre(txs, Not(freshTx));
    if DistinctDeposits(deposits) {
      DistinctDepositsAreConserved(deposits, freshDeposit, Keep(deposits, Not(freshDeposit)), t, blockSize);
      DefaultIsNotFresh(deposits, freshDeposit);
      PaddedFlatten(d, groups, block);
    }
    if KeysDiffer(txs, TxKey) {
      DistinctTransactionsAreConserved(txs, freshTx, Keep(txs, Not(freshTx)), d, blockSize);
    }
    hide *;
  }

  lemma DefaultIsNotFresh(deposits: seq<Deposit>, freshDeposit: Deposit -> bool)
    requires DistinctDeposits(deposits)
    ensures DEFAULT_DEPOSIT !in multiset(Keep(deposits, freshDeposit))
  {
    KeepCounts(deposits, freshDeposit, DEFAULT_DEPOSIT);
    assert DEFAULT_DEPOSIT in multiset(deposits) <==> DEFAULT_DEPOSIT in deposits;
  }

  /** Filling a block up adds defaults only. */
  lemma {:induction false} PaddedAre(groups: seq<seq<Deposit>>, block: seq<seq<Deposit>>)
    requires PaddedBy(groups, block)
    ensures forall d :: d in Flatten(block) ==> d in Flatten(groups) || d == DEFAULT_DEPOSIT
    decreases |block|
  {
    if block != groups {
      var init := block[..|block| - 1];
      PaddedAre(groups, init);
      assert block == init + [Pads(GROUP)];
      FlattenSnoc(init, Pads(GROUP));
    }
  }

  /** Default groups take nothing from deposits that are no defaults. */
  lemma {:induction false} PaddedFlatten(d: seq<Deposit>, groups: seq<seq<Deposit>>, block: seq<seq<Deposit>>)
    requires groups <= block && forall i :: |groups| <= i < |block| ==> block[i] == Pads(GROUP)
    requires DEFAULT_DEPOSIT !in multiset(d)
    ensures multiset(d) - multiset(Flatten(block)) == multiset(d) - multiset(Flatten(groups))
    decreases |block|
  {
    if block != groups {
      var init := block[..|block| - 1];
      PaddedFlatten(d, groups, init);
      assert block == init + [Pads(GROUP)];
      FlattenSnoc(init, Pads(GROUP));
      OnlyDefaults(d, Flatten(init), GROUP);
    }
  }

  lemma OnlyDefaults(d: seq<Deposit>, used: seq<Deposit>, n: nat)
    requires DEFAULT_DEPOSIT !in multiset(d)
    ensures multiset(d) - multiset(used + Pads(n)) == multiset(d) - multiset(used)
  {
    assert multiset(used + Pads(n)) == multiset(used) + multiset(Pads(n));
    forall x
      ensures (multiset(d) - multiset(used + Pads(n)))[x] == (multiset(d) - multiset(used))[x]
    {
      if x != DEFAULT_DEPOSIT {
        assert x !in Pads(n);
        assert multiset(Pads(n))[x] == 0;
      }
    }
  }

  lemma {:induction false} PaddingIsFree(groups: seq<seq<Deposit>>, padded: seq<seq<Deposit>>, clients: seq<ClientTx>)
    requires groups <= padded && forall i :: |groups| <= i < |padded| ==> padded[i] == Pads(GROUP)
    ensures TotalFee(padded, clients) == TotalFee(groups, clients)
    decreases |padded|
  {
    if padded != groups {
      var init := padded[..|padded| - 1];
      PaddingIsFree(groups, init, clients);
      assert padded == init + [Pads(GROUP)];
      FlattenSnoc(init, Pads(GROUP));
      SumOfConcat(Flatten(init), Pads(GROUP), DepositFee);
      PadsAreFree(GROUP);
    }
  }

  lemma {:induction false} PickedSize(items: seq<Item>)
    ensures |DepositGroups(items)| + |ClientTxs(items)| == |items|
  {
    if items != [] {
      PickedSize(items[..|items| - 1]);
    }
  }

  lemma {:induction false} PickedGroup(items: seq<Item>, i: nat) returns (x: Item)
    requires i < |DepositGroups(items)|
    ensures x in items && x.Deposits? && x.group == DepositGroups(items)[i]
  {
    var init, last := items[..|items| - 1], items[|items| - 1];
    if i < |DepositGroups(init)| {
      x := PickedGroup(init, i);
    } else {
      x := last;
    }
  }

  lemma SelectionFits(deposits: seq<Deposit>, txs: seq<ClientTx>, blockSize: nat)
    ensures var chosen := Selected(deposits, txs, blockSize);
            |DepositGroups(chosen)| + |ClientTxs(chosen)| <= blockSize && AllOfFour(DepositGroups(chosen))
  {
    var chosen := Selected(deposits, txs, blockSize);
    var groups := GroupsOf(SortBy(deposits, DepositRank));
    PickedSize(chosen);
    var pads := GroupsFlatten(SortBy(deposits, DepositRank));
    forall i | 0 <= i < |DepositGroups(chosen)|
      ensures |DepositGroups(chosen)[i]| == GROUP
    {
      var x := PickedGroup(chosen, i);
      assert x in Ranked(deposits, txs);
      assert x in multiset(AsItems(groups) + AsClients(txs));
    }
  }
}
