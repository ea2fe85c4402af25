/**
 What deleting the deposits of a block from the mempool leaves, in terms of the mempool alone: of the
 fresh deposits in the order of their fees, a block takes the first groups of four.
 */
module DepositRemoval {
  import opened Field
  import opened Sorting
  import opened BlockAssembly

  // ---------------------------------------------------------------- the groups taken are the first ones

  lemma {:induction false} InsertAtEnd<T>(s: seq<T>, x: T, key: T -> int)
    requires forall y :: y in s ==> key(y) <= key(x)
    ensures InsertBy(s, x, key) == s + [x]
  {
    if s != [] {
      InsertAtEnd(s[1..], x, key);
      assert s == [s[0]] + s[1..];
    }
  }

  /** What is sorted stays as it is. */
  lemma {:induction false} SortedStays<T>(s: seq<T>, key: T -> int)
    requires SortedBy(s, key)
    ensures SortBy(s, key) == s
  {
    if s != [] {
      var init := s[..|s| - 1];
      SortedStays(init, key);
      InsertAtEnd(init, s[|s| - 1], key);
    }
  }

  lemma {:induction false} ClientInserted(s: seq<Item>, t: ClientTx)
    ensures DepositGroups(InsertBy(s, Client(t), ItemRank)) == DepositGroups(s)
  {
    var x := Client(t);
    assert [x][..0] == [] && DepositGroups([x]) == [];
    if s != [] {
      var front, rest := [s[0]], s[1..];
      assert s == front + rest;
      hide DepositGroups;
      PickConcat(front, rest);
      if ItemRank(x) < ItemRank(s[0]) {
        PickConcat([x], s);
      } else {
        ClientInserted(rest, t);
        PickConcat(front, InsertBy(rest, x, ItemRank));
      }
    }
  }

  /** Sorting client transactions in among groups keeps the groups in order. */
  lemma {:induction false} GroupsKeepOrder(groups: seq<seq<Deposit>>, txs: seq<ClientTx>)
    requires SortedBy(AsItems(groups), ItemRank)
    ensures DepositGroups(SortBy(AsItems(groups) + AsClients(txs), ItemRank)) == groups
    decreases |txs|
  {
    var items := AsItems(groups);
    if txs == [] {
      assert items + AsClients(txs) == items;
      SortedStays(items, ItemRank);
      PickGroups(groups);
    } else {
      var init, last := txs[..|txs| - 1], txs[|txs| - 1];
      var all := items + AsClients(txs);
      assert all[..|all| - 1] == items + AsClients(init) && all[|all| - 1] == Client(last);
      GroupsKeepOrder(groups, init);
      ClientInserted(SortBy(items + AsClients(init), ItemRank), last);
    }
  }

  /** Deposit `k` of group `i`. */
  lemma {:induction false} GroupAt(s: seq<Deposit>, n: nat, i: nat, k: nat)
    requires n < GROUP && GROUP * |GroupsOf(s)| == |s| + n && i < |GroupsOf(s)| && k < GROUP
    ensures |GroupsOf(s)[i]| == GROUP && GroupsOf(s)[i][k] == (s + Pads(n))[GROUP * i + k]
  {
    if |s| >= GROUP && i > 0 {
      GroupAt(s[GROUP..], n, i - 1, k);
    }
  }

  lemma {:induction false} SumsCompare(a: seq<Deposit>, b: seq<Deposit>)
    requires |a| == |b| && forall k :: 0 <= k < |a| ==> DepositFee(a[k]) <= DepositFee(b[k])
    ensures SumBy(a, DepositFee) <= SumBy(b, DepositFee)
  {
    if a != [] {
      SumsCompare(a[..|a| - 1], b[..|b| - 1]);
    }
  }

  /** The groups formed in the order of falling fee have falling sums. */
  lemma GroupSumsFall(sorted: seq<Deposit>, i: nat, j: nat)
    requires SortedBy(sorted, DepositRank) && i <= j < |GroupsOf(sorted)|
    ensures SumBy(GroupsOf(sorted)[j], DepositFee) <= SumBy(GroupsOf(sorted)[i], DepositFee)
  {
    var groups := GroupsOf(sorted);
    var n := GroupsFlatten(sorted);
    hide SumBy, GroupsOf;
    forall k | 0 <= k < GROUP
      ensures |groups[i]| == |groups[j]| == GROUP && DepositFee(groups[j][k]) <= DepositFee(groups[i][k])
    {
      GroupAt(sorted, n, i, k);
      GroupAt(sorted, n, j, k);
      PaddedIsRanked(sorted, n, GROUP * i + k, GROUP * j + k);
    }
    SumsCompare(groups[j], groups[i]);
  }

  lemma GroupsAreRanked(deposits: seq<Deposit>)
    requires NoWrap(deposits)
    ensures SortedBy(AsItems(GroupsOf(SortBy(deposits, DepositRank))), ItemRank)
  {
    var sorted := SortBy(deposits, DepositRank);
    var groups := GroupsOf(sorted);
    hide SumBy, SortBy, GroupsOf, GroupTotal;
    forall i, j | 0 <= i <= j < |groups|
      ensures ItemRank(AsItems(groups)[i]) <= ItemRank(AsItems(groups)[j])
    {
      GroupTotalIsSum(groups[i]);
      GroupTotalIsSum(groups[j]);
      GroupSumsFall(sorted, i, j);
    }
  }

  /** Only the four highest fees matter for wrap-around. */
  lemma TopFourDecide(deposits: seq<Deposit>)
    ensures var groups := GroupsOf(SortBy(deposits, DepositRank));
            NoWrap(deposits) <==> groups == [] || SumBy(groups[0], DepositFee) < MODULUS
  {
    var sorted := SortBy(deposits, DepositRank);
    var groups := GroupsOf(sorted);
    hide SumBy, SortBy, GroupsOf;
    forall i | 0 <= i < |groups|
      ensures SumBy(groups[i], DepositFee) <= SumBy(groups[0], DepositFee)
    {
      GroupSumsFall(sorted, 0, i);
    }
  }

  lemma PaddedIsRanked(sorted: seq<Deposit>, n: nat, i: nat, j: nat)
    requires SortedBy(sorted, DepositRank) && i <= j < |sorted| + n
    ensures DepositFee((sorted + Pads(n))[j]) <= DepositFee((sorted + Pads(n))[i])
  {
    if j < |sorted| {
      assert DepositRank(sorted[i]) <= DepositRank(sorted[j]);
    }
  }

  /** Where the selection cuts the fresh deposits in the order of their fees. */
  function Cut(deposits: seq<Deposit>, txs: seq<ClientTx>, blockSize: nat): (c: nat)
    ensures c <= |deposits|
  {
    Min(GROUP * |DepositGroups(Selected(deposits, txs, blockSize))|, |deposits|)
  }

  /** The groups taken are the first of those formed. */
  lemma FirstGroupsTaken(deposits: seq<Deposit>, txs: seq<ClientTx>, blockSize: nat)
    requires NoWrap(deposits)
    ensures var groups, taken := GroupsOf(SortBy(deposits, DepositRank)), DepositGroups(Selected(deposits, txs, blockSize));
            taken <= groups
  {
    var groups := GroupsOf(SortBy(deposits, DepositRank));
    var ranked, chosen := Ranked(deposits, txs), Selected(deposits, txs, blockSize);
    assert ranked == SortBy(AsItems(groups) + AsClients(txs), ItemRank);
    hide *;
    GroupsAreRanked(deposits);
    GroupsKeepOrder(groups, txs);
    assert DepositGroups(ranked) == groups;
    assert ranked == chosen + ranked[|chosen|..];
    PickConcat(chosen, ranked[|chosen|..]);
  }

  /** The first `g` groups hold the front of the sequence. */
  lemma FrontOfGroups(sorted: seq<Deposit>, g: nat) returns (pads: nat)
    requires g <= |GroupsOf(sorted)|
    ensures var c := Min(GROUP * g, |sorted|);
            Flatten(GroupsOf(sorted)[..g]) == sorted[..c] + Pads(pads) && (pads > 0 ==> c == |sorted|)
  {
    GroupsPrefix(sorted, g);
    var front := sorted[..Min(GROUP * g, |sorted|)];
    hide GroupsOf, Flatten;
    pads := GroupsFlatten(front);
    assert |GroupsOf(front)| == g;
  }

  /** The block takes the deposits before the cut, and defaults only when these are all. */
  lemma BlockTakesFront(deposits: seq<Deposit>, txs: seq<ClientTx>, blockSize: nat) returns (pads: nat)
    requires NoWrap(deposits)
    ensures var sorted, c := SortBy(deposits, DepositRank), Cut(deposits, txs, blockSize);
            && Flatten(DepositGroups(Selected(deposits, txs, blockSize))) == sorted[..c] + Pads(pads)
            && (pads > 0 ==> c == |sorted|)
  {
    var sorted, taken := SortBy(deposits, DepositRank), DepositGroups(Selected(deposits, txs, blockSize));
    hide GroupsOf, Flatten, DepositGroups, Selected, NoWrap;
    FirstGroupsTaken(deposits, txs, blockSize);
    pads := FrontOfGroups(sorted, |taken|);
    assert GroupsOf(sorted)[..|taken|] == taken;
  }

  // ---------------------------------------------------------------- when nothing is lost

  /** Exactly the fresh deposits that are not in the block are left. */
  ghost predicate DepositsExact(all: seq<Deposit>, isFresh: Deposit -> bool, stale: seq<Deposit>, txs: seq<ClientTx>, blockSize: nat) {
    var pending := Keep(all, isFresh);
    var used := Flatten(DepositGroups(Selected(pending, txs, blockSize)));
    multiset(Remaining(all, DepositKey, stale, used)) == multiset(pending) - multiset(used)
  }

  /** What lies behind a cut shares no secret hash and slot with what lies before it, nor with a stale deposit. */
  ghost predicate CutSeparates(sorted: seq<Deposit>, c: nat, stale: seq<Deposit>)
    requires c <= |sorted|
  {
    forall x :: x in sorted[c..] ==> DepositKey(x) !in KeysOf(stale, DepositKey) && DepositKey(x) !in KeysOf(sorted[..c], DepositKey)
  }

  lemma RestOf(sorted: seq<Deposit>, c: nat)
    requires c <= |sorted|
    ensures multiset(sorted) - multiset(sorted[..c]) == multiset(sorted[c..])
  {
    assert sorted == sorted[..c] + sorted[c..];
    hide *;
  }

  lemma SeparateRest(rest: seq<Deposit>, front: seq<Deposit>, stale: seq<Deposit>)
    ensures KeysSeparate(multiset(rest), DepositKey, stale, front)
            <==> forall x :: x in rest ==> DepositKey(x) !in KeysOf(stale, DepositKey) && DepositKey(x) !in KeysOf(front, DepositKey)
  {
    assert forall x :: x in multiset(rest) <==> x in rest;
    hide KeysOf, DepositKey;
  }

  lemma LeftBehindCut(sorted: seq<Deposit>, c: nat, pads: nat, stale: seq<Deposit>)
    requires c <= |sorted| && (pads > 0 ==> c == |sorted|)
    ensures var used := sorted[..c] + Pads(pads);
            KeysSeparate(multiset(sorted) - multiset(used), DepositKey, stale, used) <==> CutSeparates(sorted, c, stale)
  {
    hide KeysOf, DepositKey, KeysSeparate;
    SeparateRest(sorted[c..], sorted[..c], stale);
    if pads == 0 {
      assert sorted[..c] + Pads(0) == sorted[..c];
      RestOf(sorted, c);
    } else {
      NothingLeft(sorted, pads, stale);
    }
  }

  lemma NothingLeft(sorted: seq<Deposit>, pads: nat, stale: seq<Deposit>)
    ensures sorted[..|sorted|] == sorted && sorted[|sorted|..] == []
    ensures KeysSeparate(multiset(sorted) - multiset(sorted + Pads(pads)), DepositKey, stale, sorted + Pads(pads))
  {
    assert multiset(sorted) - multiset(sorted + Pads(pads)) == multiset{};
  }

  /**
   Deleting by secret hash and slot leaves exactly the fresh deposits that are not in the block if and
   only if, in the order of fees, no deposit behind the last one taken shares both with one taken or stale.
   */
  lemma DepositsConservedIff(all: seq<Deposit>, isFresh: Deposit -> bool, stale: seq<Deposit>, txs: seq<ClientTx>, blockSize: nat)
    requires forall x :: x in stale <==> x in all && !isFresh(x)
    requires NoWrap(Keep(all, isFresh))
    ensures var pending := Keep(all, isFresh);
            DepositsExact(all, isFresh, stale, txs, blockSize)
            <==> CutSeparates(SortBy(pending, DepositRank), Cut(pending, txs, blockSize), stale)
  {
    var pending := Keep(all, isFresh);
    var sorted, c := SortBy(pending, DepositRank), Cut(pending, txs, blockSize);
    var pads := BlockTakesFront(pending, txs, blockSize);
    var used := sorted[..c] + Pads(pads);
    assert multiset(sorted) == multiset(pending);
    hide SortBy, Cut, Keep, Remaining, Selected, DepositGroups, Flatten, CutSeparates, KeysSeparate;
    RemovalIsExact(all, DepositKey, isFresh, stale, used);
    LeftBehindCut(sorted, c, pads, stale);
  }

  /** No two groups of four share a secret hash and slot, and none shares one with a stale deposit. */
  ghost predicate GroupsSeparate(sorted: seq<Deposit>, stale: seq<Deposit>) {
    forall g: nat :: g <= |GroupsOf(sorted)| ==> CutSeparates(sorted, Min(GROUP * g, |sorted|), stale)
  }

  /** Without competing client transactions, a block of `g` takes `g` groups. */
  lemma SomeBlockCuts(deposits: seq<Deposit>, g: nat)
    requires g <= |GroupsOf(SortBy(deposits, DepositRank))|
    ensures Cut(deposits, [], g) == Min(GROUP * g, |deposits|)
  {
    var chosen := Selected(deposits, [], g);
    NoClients(deposits, g);
    PickedSize(chosen);
    assert |Ranked(deposits, [])| == |GroupsOf(SortBy(deposits, DepositRank))|;
  }

  /** Whatever transactions compete for whatever number of places: nothing is lost if and only if the groups are separate. */
  lemma AlwaysConservedIff(all: seq<Deposit>, isFresh: Deposit -> bool, stale: seq<Deposit>)
    requires forall x :: x in stale <==> x in all && !isFresh(x)
    requires NoWrap(Keep(all, isFresh))
    ensures (forall txs, blockSize: nat :: DepositsExact(all, isFresh, stale, txs, blockSize))
            <==> GroupsSeparate(SortBy(Keep(all, isFresh), DepositRank), stale)
  {
    hide DepositsExact, CutSeparates, NoWrap, Keep, SortBy, GroupsOf;
    var pending := Keep(all, isFresh);
    var sorted := SortBy(pending, DepositRank);
    assert |sorted| == |pending|;
    if GroupsSeparate(sorted, stale) {
      forall txs, blockSize: nat
        ensures DepositsExact(all, isFresh, stale, txs, blockSize)
      {
        DepositsConservedIff(all, isFresh, stale, txs, blockSize);
        CutIsAtGroup(pending, txs, blockSize);
      }
    }
    if forall txs, blockSize: nat :: DepositsExact(all, isFresh, stale, txs, blockSize) {
      forall g: nat | g <= |GroupsOf(sorted)|
        ensures CutSeparates(sorted, Min(GROUP * g, |sorted|), stale)
      {
        assert DepositsExact(all, isFresh, stale, [], g);
        DepositsConservedIff(all, isFresh, stale, [], g);
        SomeBlockCuts(pending, g);
      }
    }
  }

  lemma CutIsAtGroup(deposits: seq<Deposit>, txs: seq<ClientTx>, blockSize: nat)
    ensures |DepositGroups(Selected(deposits, txs, blockSize))| <= |GroupsOf(SortBy(deposits, DepositRank))|
  {
    var all, chosen := Ranked(deposits, txs), Selected(deposits, txs, blockSize);
    var groups := GroupsOf(SortBy(deposits, DepositRank));
    var items := AsItems(groups) + AsClients(txs);
    GroupsOfItems(groups, txs);
    assert all == chosen + all[|chosen|..];
    assert multiset(all) == multiset(items);
    hide SortBy, GroupsOf, DepositGroups, Ranked, Selected, AsItems, AsClients;
    PickConcat(chosen, all[|chosen|..]);
    PermutedGroups(all, items);
  }

  /** Permuted items have as many groups. */
  lemma {:induction false} PermutedGroups(a: seq<Item>, b: seq<Item>)
    requires multiset(a) == multiset(b)
    ensures |DepositGroups(a)| == |DepositGroups(b)|
  {
    GroupCount(a);
    GroupCount(b);
    SumOfPermutation(a, b, IsGroup);
  }

  function IsGroup(x: Item): int {
    if x.Deposits? then 1 else 0
  }

  lemma {:induction false} GroupCount(items: seq<Item>)
    ensures |DepositGroups(items)| == SumBy(items, IsGroup)
  {
    if items != [] {
      GroupCount(items[..|items| - 1]);
    }
  }
}
