/**
 * The reads of the transaction controller: the filter and paging of the
 * history listing, and the per-type grouping behind the summary.
 */
module Queries {
  import opened Outcomes
  import opened Constants
  import opened TransactionModel

  function Abs(x: int): nat {
    if x < 0 then -x else x
  }

  function Min(a: int, b: int): int {
    if a <= b then a else b
  }

  // ---------------------------------------------------------------- listing

  /** The history filter: the caller, a type, and an optional creation-time range. */
  datatype Query = Query(user: UserId, txType: Option<TxType>, from: Option<int>, until: Option<int>)

  /**
   * The filter `getTransactions` builds: a type filter only when the parameter
   * is one of the four type names; anything else, the empty string included,
   * is ignored.
   */
  function BuildQuery(user: UserId, typeParam: string, startDate: Option<int>, endDate: Option<int>): (q: Query)
    ensures q.user == user && q.from == startDate && q.until == endDate
    ensures q.txType.Some? ==> TypeName(q.txType.value) == typeParam
    ensures q.txType.None? <==> forall t: TxType :: TypeName(t) != typeParam
  {
    Query(user, ParseType(typeParam), startDate, endDate)
  }

  predicate InRange(t: Tx, from: Option<int>, until: Option<int>) {
    && (from.None? || t.createdAt >= from.value)
    && (until.None? || t.createdAt <= until.value)
  }

  predicate Matches(t: Tx, q: Query) {
    && t.user == q.user
    && (q.txType.None? || t.txType == q.txType.value)
    && InRange(t, q.from, q.until)
  }

  /** The `find(query)` stage: the records matching `q`, in store order. */
  function Matching(txs: seq<Tx>, q: Query): (r: seq<Tx>)
    ensures |r| <= |txs|
    ensures forall t :: t in r <==> t in txs && Matches(t, q)
  {
    if txs == [] then []
    else
      var init, last := txs[..|txs| - 1], txs[|txs| - 1];
      assert txs == init + [last];
      var rest := Matching(init, q);
      if Matches(last, q) then rest + [last] else rest
  }

  /** Each matching record is kept as many times as it is stored, and no other record is. */
  lemma {:induction false} MatchingCounts(txs: seq<Tx>, q: Query)
    ensures forall t :: multiset(Matching(txs, q))[t] == if Matches(t, q) then multiset(txs)[t] else 0
  {
    if txs != [] {
      var init, last := txs[..|txs| - 1], txs[|txs| - 1];
      assert txs == init + [last];
      assert multiset(txs) == multiset(init) + multiset{last};
      MatchingCounts(init, q);
      var rest := Matching(init, q);
      if Matches(last, q) {
        assert multiset(rest + [last]) == multiset(rest) + multiset{last};
      }
    }
  }

  /** Each record is at least as recent as every record after it. */
  ghost predicate SortedNewestFirst(r: seq<Tx>) {
    forall i, j :: 0 <= i < j < |r| ==> r[i].createdAt >= r[j].createdAt
  }

  /** `x` placed before the first record of `s` that is not more recent than it. */
  function InsertNewest(x: Tx, s: seq<Tx>): (r: seq<Tx>)
    ensures |r| == |s| + 1
  {
    if s == [] || x.createdAt >= s[0].createdAt then [x] + s
    else [s[0]] + InsertNewest(x, s[1..])
  }

  /** Inserting adds `x` and nothing else. */
  lemma {:induction false} InsertNewestPermutes(x: Tx, s: seq<Tx>)
    ensures multiset(InsertNewest(x, s)) == multiset(s) + multiset{x}
  {
    if s != [] && x.createdAt < s[0].createdAt {
      InsertNewestPermutes(x, s[1..]);
      assert s == [s[0]] + s[1..];
    }
  }

  /** No record of `s` is more recent than `v`. */
  ghost predicate NoneAfter(s: seq<Tx>, v: int) {
    forall k :: 0 <= k < |s| ==> s[k].createdAt <= v
  }

  lemma {:induction false} InsertNewestBounded(x: Tx, s: seq<Tx>, v: int)
    requires x.createdAt <= v && NoneAfter(s, v)
    ensures NoneAfter(InsertNewest(x, s), v)
  {
    if s != [] && x.createdAt < s[0].createdAt {
      InsertNewestBounded(x, s[1..], v);
    }
  }

  /** Inserting into a listing sorted newest first keeps it sorted. */
  lemma {:induction false} InsertNewestKeepsOrder(x: Tx, s: seq<Tx>)
    requires SortedNewestFirst(s)
    ensures SortedNewestFirst(InsertNewest(x, s))
  {
    if s != [] && x.createdAt < s[0].createdAt {
      var tail := InsertNewest(x, s[1..]);
      InsertNewestKeepsOrder(x, s[1..]);
      InsertNewestBounded(x, s[1..], s[0].createdAt);
      var r := [s[0]] + tail;
      assert r == InsertNewest(x, s);
      forall i, j | 0 <= i < j < |r|
        ensures r[i].createdAt >= r[j].createdAt
      {
        assert r[j] == tail[j - 1];
        if i > 0 {
          assert r[i] == tail[i - 1];
        }
      }
    }
  }

  /** `sort({ createdAt: -1 })`: the same records, most recent first. */
  function SortNewest(s: seq<Tx>): (r: seq<Tx>)
    ensures |r| == |s|
    ensures SortedNewestFirst(r)
  {
    if s == [] then []
    else
      var sorted := SortNewest(s[..|s| - 1]);
      InsertNewestKeepsOrder(s[|s| - 1], sorted);
      InsertNewest(s[|s| - 1], sorted)
  }

  /** The sort neither drops nor adds a record. */
  lemma {:induction false} SortNewestPermutes(s: seq<Tx>)
    ensures multiset(SortNewest(s)) == multiset(s)
  {
    if s != [] {
      var init, last := s[..|s| - 1], s[|s| - 1];
      assert s == init + [last];
      SortNewestPermutes(init);
      InsertNewestPermutes(last, SortNewest(init));
    }
  }

  /**
   * The history listing before paging: each matching record of the store as
   * many times as it is stored and no other, most recent first.
   */
  function NewestFirst(txs: seq<Tx>, q: Query): (r: seq<Tx>)
    ensures |r| <= |txs|
    ensures forall t :: t in r <==> t in txs && Matches(t, q)
    ensures SortedNewestFirst(r)
  {
    var r := SortNewest(Matching(txs, q));
    SortNewestPermutes(Matching(txs, q));
    assert forall t :: t in r <==> t in multiset(r);
    r
  }

  /** The listing holds each matching record as many times as the store does, and no other record. */
  lemma NewestFirstCounts(txs: seq<Tx>, q: Query)
    ensures forall t :: multiset(NewestFirst(txs, q))[t] == if Matches(t, q) then multiset(txs)[t] else 0
  {
    MatchingCounts(txs, q);
    SortNewestPermutes(Matching(txs, q));
  }

  /**
   * `.skip(skip).limit(limit)`: the documents from position `skip` on, at most
   * `|limit|` of them (a negative limit is a one-batch limit of its absolute
   * value), all of them when the limit is 0.
   */
  function Window<T>(s: seq<T>, skip: nat, limit: int): (r: seq<T>)
    ensures |r| == (if skip >= |s| then 0 else if limit == 0 then |s| - skip else Min(Abs(limit), |s| - skip))
    ensures forall k :: 0 <= k < |r| ==> r[k] == s[skip + k]
  {
    if skip >= |s| then []
    else if limit == 0 then s[skip..]
    else s[skip..skip + Min(Abs(limit), |s| - skip)]
  }

  /** A page of the listing holds only matching records, most recent first. */
  lemma ListingPage(txs: seq<Tx>, q: Query, skip: nat, limit: int)
    ensures var all := NewestFirst(txs, q);
      var shown := Window(all, skip, limit);
      && (forall k :: 0 <= k < |shown| ==> skip + k < |all| && shown[k] == all[skip + k])
      && (forall t :: t in shown ==> t in txs && Matches(t, q))
      && SortedNewestFirst(shown)
  {
    var all := NewestFirst(txs, q);
    var shown := Window(all, skip, limit);
    forall i, j | 0 <= i < j < |shown|
      ensures shown[i].createdAt >= shown[j].createdAt
    {
      assert shown[i] == all[skip + i] && shown[j] == all[skip + j];
    }
    forall t | t in shown
      ensures t in txs && Matches(t, q)
    {
      var k :| 0 <= k < |shown| && shown[k] == t;
      assert all[skip + k] == t;
    }
  }

  /** Page 2 with a limit of 10 holds the 11th to the 20th matching records. */
  lemma SecondPageOfTen<T>(s: seq<T>)
    ensures var r := Window(s, (2 - 1) * 10, 10);
            |r| == (if |s| <= 10 then 0 else Min(10, |s| - 10))
            && forall k :: 0 <= k < |r| ==> r[k] == s[10 + k]
  {
  }

  /**
   * `Math.ceil(total / limit)`: none when the limit is 0 (the quotient is not
   * finite), otherwise the least whole number of pages of `limit` records that
   * covers `total` (for a negative limit, the ceiling of a negative quotient).
   */
  function PageCount(total: nat, limit: int): (p: Option<int>)
    ensures p.None? <==> limit == 0
    ensures limit > 0 ==> p.value >= 0 && p.value * limit >= total && (p.value - 1) * limit < total + (if total == 0 then limit else 0)
    ensures limit < 0 ==> p.value <= 0 && p.value * limit <= total < (p.value - 1) * limit
  {
    if limit == 0 then None
    else if limit > 0 then
      var q := (total + limit - 1) / limit;
      CeilFacts(total, limit, q);
      Some(q)
    else
      var q := total / (-limit);
      FloorFacts(total, -limit, q);
      Some(-q)
  }

  lemma CeilFacts(total: nat, limit: int, q: int)
    requires limit > 0 && q == (total + limit - 1) / limit
    ensures q >= 0 && q * limit >= total && (q - 1) * limit < total + (if total == 0 then limit else 0)
  {
    var n := total + limit - 1;
    assert n == q * limit + n % limit && 0 <= n % limit < limit;
    assert (q - 1) * limit == q * limit - limit;
  }

  lemma FloorFacts(total: nat, d: int, q: int)
    requires d > 0 && q == total / d
    ensures q >= 0 && (-q) * (-d) <= total < (-q - 1) * (-d)
  {
    assert total == q * d + total % d && 0 <= total % d < d;
    assert (-q) * (-d) == q * d;
    assert (-q - 1) * (-d) == q * d + d;
  }

  // ---------------------------------------------------------------- summary

  datatype Bucket = Bucket(count: int, totalAmount: int)

  /** One output document of the `$group` stage: a type with its count and summed amount. */
  datatype Group = Group(id: TxType, count: int, totalAmount: int)

  /** The summary: deposits, withdrawals, and the transfers of both directions together. */
  datatype Summary = Summary(deposits: Bucket, withdrawals: Bucket, transfers: Bucket)

  const Zero := Bucket(0, 0)

  function Plus(a: Bucket, b: Bucket): Bucket {
    Bucket(a.count + b.count, a.totalAmount + b.totalAmount)
  }

  /** Number of records of type `t`. */
  function CountOf(recs: seq<Tx>, t: TxType): nat {
    if recs == [] then 0
    else CountOf(recs[..|recs| - 1], t) + (if recs[|recs| - 1].txType == t then 1 else 0)
  }

  /** Sum of the amounts of the records of type `t`. */
  function SumOf(recs: seq<Tx>, t: TxType): int {
    if recs == [] then 0
    else SumOf(recs[..|recs| - 1], t) + (if recs[|recs| - 1].txType == t then recs[|recs| - 1].amount else 0)
  }

  function BucketOf(recs: seq<Tx>, t: TxType): Bucket {
    Bucket(CountOf(recs, t), SumOf(recs, t))
  }

  /** The `$match` stage of the summary: the caller's records created within the range, in store order. */
  function Selected(txs: seq<Tx>, user: UserId, from: Option<int>, until: Option<int>): (r: seq<Tx>)
    ensures |r| <= |txs|
    ensures forall t :: t in r <==> t in txs && t.user == user && InRange(t, from, until)
  {
    Matching(txs, Query(user, None, from, until))
  }

  /** The summary counts each selected record as many times as it is stored. */
  lemma SelectedCounts(txs: seq<Tx>, user: UserId, from: Option<int>, until: Option<int>)
    ensures forall t :: multiset(Selected(txs, user, from, until))[t]
                        == if t.user == user && InRange(t, from, until) then multiset(txs)[t] else 0
  {
    MatchingCounts(txs, Query(user, None, from, until));
  }

  function GroupFor(recs: seq<Tx>, t: TxType): seq<Group> {
    if CountOf(recs, t) > 0 then [Group(t, CountOf(recs, t), SumOf(recs, t))] else []
  }

  /** One group for each type of `types` present among `recs`, in the order of `types`. */
  function GroupsOver(recs: seq<Tx>, types: seq<TxType>): seq<Group> {
    if types == [] then []
    else GroupsOver(recs, types[..|types| - 1]) + GroupFor(recs, types[|types| - 1])
  }

  const AllTypes: seq<TxType> := [Deposit, Withdrawal, TransferIn, TransferOut]

  /**
   * The `$group` stage: one group for each type present among `recs`. The
   * order of groups is not specified by the database; this model lists them
   * in the order of the type enum.
   */
  function Aggregate(recs: seq<Tx>): seq<Group> {
    GroupsOver(recs, AllTypes)
  }

  /** What `formattedSummary[key] = item` leaves: the last group of type `t`, or the zero bucket. */
  function LastGroup(groups: seq<Group>, t: TxType): Bucket {
    if groups == [] then Zero
    else
      var g := groups[|groups| - 1];
      if g.id == t then Bucket(g.count, g.totalAmount) else LastGroup(groups[..|groups| - 1], t)
  }

  /** The counts of all groups of type `t` added together. */
  function CountIn(groups: seq<Group>, t: TxType): int {
    if groups == [] then 0
    else CountIn(groups[..|groups| - 1], t) + (if groups[|groups| - 1].id == t then groups[|groups| - 1].count else 0)
  }

  /** The amounts of all groups of type `t` added together. */
  function AmountIn(groups: seq<Group>, t: TxType): int {
    if groups == [] then 0
    else AmountIn(groups[..|groups| - 1], t) + (if groups[|groups| - 1].id == t then groups[|groups| - 1].totalAmount else 0)
  }

  /** All groups of type `t` added together. */
  function TotalOf(groups: seq<Group>, t: TxType): Bucket {
    Bucket(CountIn(groups, t), AmountIn(groups, t))
  }

  /** Extending the groups by one: how the last-group and total views change. */
  lemma GroupStep(groups: seq<Group>, i: nat, t: TxType)
    requires i < |groups|
    ensures LastGroup(groups[..i + 1], t)
            == if groups[i].id == t then Bucket(groups[i].count, groups[i].totalAmount) else LastGroup(groups[..i], t)
    ensures TotalOf(groups[..i + 1], t)
            == Plus(TotalOf(groups[..i], t), if groups[i].id == t then Bucket(groups[i].count, groups[i].totalAmount) else Zero)
  {
    assert groups[..i + 1][..i] == groups[..i];
  }

  /**
   * The `forEach` over the groups: deposits and withdrawals take their group,
   * and the transfers bucket accumulates the groups of both transfer types.
   */
  method FormatSummary(groups: seq<Group>) returns (s: Summary)
    ensures s.deposits == LastGroup(groups, Deposit)
    ensures s.withdrawals == LastGroup(groups, Withdrawal)
    ensures s.transfers == Plus(TotalOf(groups, TransferIn), TotalOf(groups, TransferOut))
  {
    var deposits, withdrawals, transfers := Zero, Zero, Zero;
    for i := 0 to |groups|
      invariant deposits == LastGroup(groups[..i], Deposit)
      invariant withdrawals == LastGroup(groups[..i], Withdrawal)
      invariant transfers == Plus(TotalOf(groups[..i], TransferIn), TotalOf(groups[..i], TransferOut))
    {
      var item := groups[i];
      GroupStep(groups, i, Deposit);
      GroupStep(groups, i, Withdrawal);
      GroupStep(groups, i, TransferIn);
      GroupStep(groups, i, TransferOut);
      if item.id == Deposit {
        deposits := Bucket(item.count, item.totalAmount);
      } else if item.id == Withdrawal {
        withdrawals := Bucket(item.count, item.totalAmount);
      } else {
        transfers := Plus(transfers, Bucket(item.count, item.totalAmount));
      }
    }
    assert groups[..|groups|] == groups;
    s := Summary(deposits, withdrawals, transfers);
  }

  /** No two groups share a type: what `$group` on `_id: '$type'` guarantees. */
  ghost predicate DistinctIds(groups: seq<Group>) {
    forall i, j :: 0 <= i < j < |groups| ==> groups[i].id != groups[j].id
  }

  /**
   * `groups` is a result of grouping `recs` by type, in any order: distinct
   * types, each group holding its type's positive count and summed amount,
   * and a group for every type present.
   */
  ghost predicate IsGrouping(groups: seq<Group>, recs: seq<Tx>) {
    && DistinctIds(groups)
    && (forall g :: g in groups ==> g.count == CountOf(recs, g.id) > 0 && g.totalAmount == SumOf(recs, g.id))
    && (forall t :: CountOf(recs, t) > 0 ==> exists g :: g in groups && g.id == t)
  }

  lemma {:induction false} LastGroupAbsent(groups: seq<Group>, t: TxType)
    requires forall g :: g in groups ==> g.id != t
    ensures LastGroup(groups, t) == Zero
  {
    if groups != [] {
      LastGroupAbsent(groups[..|groups| - 1], t);
    }
  }

  lemma {:induction false} LastGroupAt(groups: seq<Group>, k: nat)
    requires DistinctIds(groups) && k < |groups|
    ensures LastGroup(groups, groups[k].id) == Bucket(groups[k].count, groups[k].totalAmount)
  {
    if k < |groups| - 1 {
      LastGroupAt(groups[..|groups| - 1], k);
    }
  }

  /** With distinct types, adding up the groups of a type is taking its only group. */
  lemma {:induction false} TotalOfDistinct(groups: seq<Group>, t: TxType)
    requires DistinctIds(groups)
    ensures TotalOf(groups, t) == LastGroup(groups, t)
  {
    if groups != [] {
      var init, g := groups[..|groups| - 1], groups[|groups| - 1];
      TotalOfDistinct(init, t);
      if g.id == t {
        forall h | h in init
          ensures h.id != t
        {
          var k :| 0 <= k < |init| && init[k] == h;
          assert groups[k] == h;
        }
        LastGroupAbsent(init, t);
      }
    }
  }

  /**
   * Whatever order the database returns the groups in, the summary takes the
   * bucket of each type: the last group of a type and the total of its
   * groups are both that type's count and summed amount.
   */
  lemma GroupingBuckets(groups: seq<Group>, recs: seq<Tx>, t: TxType)
    requires IsGrouping(groups, recs)
    ensures LastGroup(groups, t) == BucketOf(recs, t)
    ensures TotalOf(groups, t) == BucketOf(recs, t)
  {
    TotalOfDistinct(groups, t);
    if k :| 0 <= k < |groups| && groups[k].id == t {
      LastGroupAt(groups, k);
    } else {
      assert forall g :: g in groups ==> g.id != t;
      NoneOfTypeSumsToZero(recs, t);
      LastGroupAbsent(groups, t);
    }
  }

  lemma {:induction false} NoneOfTypeSumsToZero(recs: seq<Tx>, t: TxType)
    requires CountOf(recs, t) == 0
    ensures SumOf(recs, t) == 0
  {
    if recs != [] {
      NoneOfTypeSumsToZero(recs[..|recs| - 1], t);
    }
  }

  /** Every group built over `types` is of a listed type and holds that type's positive count and summed amount. */
  lemma {:induction false} GroupsOverShape(recs: seq<Tx>, types: seq<TxType>)
    ensures forall g :: g in GroupsOver(recs, types) ==>
              g.id in types && g.count == CountOf(recs, g.id) > 0 && g.totalAmount == SumOf(recs, g.id)
  {
    if types != [] {
      var init := types[..|types| - 1];
      GroupsOverShape(recs, init);
      forall g | g in GroupsOver(recs, types)
        ensures g.id in types && g.count == CountOf(recs, g.id) > 0 && g.totalAmount == SumOf(recs, g.id)
      {
        if g in GroupsOver(recs, init) {
          var k :| 0 <= k < |init| && init[k] == g.id;
          assert types[k] == g.id;
        }
      }
    }
  }

  /** Over distinct types, no two groups share a type. */
  lemma {:induction false} GroupsOverDistinct(recs: seq<Tx>, types: seq<TxType>)
    requires forall i, j :: 0 <= i < j < |types| ==> types[i] != types[j]
    ensures DistinctIds(GroupsOver(recs, types))
  {
    if types != [] {
      var init, last := types[..|types| - 1], types[|types| - 1];
      GroupsOverDistinct(recs, init);
      GroupsOverShape(recs, init);
      var earlier, latest := GroupsOver(recs, init), GroupFor(recs, last);
      var all := earlier + latest;
      forall i, j | 0 <= i < j < |all|
        ensures all[i].id != all[j].id
      {
        if j >= |earlier| {
          assert all[j].id == last;
          assert all[i] in earlier;
          var k :| 0 <= k < |init| && init[k] == all[i].id;
          assert types[k] == all[i].id;
        }
      }
    }
  }

  /** Every listed type present among the records gets a group. */
  lemma {:induction false} GroupsOverComplete(recs: seq<Tx>, types: seq<TxType>, t: TxType)
    requires t in types && CountOf(recs, t) > 0
    ensures exists g :: g in GroupsOver(recs, types) && g.id == t
  {
    var init, last := types[..|types| - 1], types[|types| - 1];
    assert types == init + [last];
    if last == t {
      var g := GroupFor(recs, t)[0];
      assert g in GroupsOver(recs, types);
    } else {
      GroupsOverComplete(recs, init, t);
      var g :| g in GroupsOver(recs, init) && g.id == t;
      assert g in GroupsOver(recs, types);
    }
  }

  /** The aggregation this model fixes is a grouping of the records. */
  lemma AggregateIsGrouping(recs: seq<Tx>)
    ensures IsGrouping(Aggregate(recs), recs)
  {
    GroupsOverShape(recs, AllTypes);
    GroupsOverDistinct(recs, AllTypes);
    forall t | CountOf(recs, t) > 0
      ensures exists g :: g in Aggregate(recs) && g.id == t
    {
      GroupsOverComplete(recs, AllTypes, t);
    }
  }

  /**
   * The summary of a grouping: deposits and withdrawals are the count and
   * summed amount of their type, and transfers are the counts and amounts of
   * transfer_in and transfer_out ADDED together, a gross figure and not the
   * net of in minus out.
   */
  lemma SummaryOfGrouping(groups: seq<Group>, recs: seq<Tx>)
    requires IsGrouping(groups, recs)
    ensures LastGroup(groups, Deposit) == BucketOf(recs, Deposit)
    ensures LastGroup(groups, Withdrawal) == BucketOf(recs, Withdrawal)
    ensures Plus(TotalOf(groups, TransferIn), TotalOf(groups, TransferOut))
            == Plus(BucketOf(recs, TransferIn), BucketOf(recs, TransferOut))
  {
    GroupingBuckets(groups, recs, Deposit);
    GroupingBuckets(groups, recs, Withdrawal);
    GroupingBuckets(groups, recs, TransferIn);
    GroupingBuckets(groups, recs, TransferOut);
  }
}
