/**
 * The dashboard's aggregates: the monthly net and count series over the last
 * twelve months, the largest balances, the totals by kind and the aging of due
 * dates. Each is recomputed from the whole ledger on every call.
 */
module Dashboard {
  import opened Wrappers
  import opened Seqs
  import opened Sorting
  import opened Dates
  import opened Entities
  import opened Balance
  import opened Query

  predicate Distinct<T(==)>(s: seq<T>) {
    forall i, j :: 0 <= i < j < |s| ==> s[i] != s[j]
  }

  /* ---------- monthly series ---------- */

  /**
   * `monthsBackLabels(n)`: the month `i` months before `current`, for `i` from
   * `n - 1` down to 0. `current` is the month of `new Date()`.
   */
  method MonthsBackLabels(current: Month, n: nat) returns (labels: seq<Month>)
    ensures |labels| == n
    ensures forall j :: 0 <= j < n ==>
      1 <= labels[j].month <= 12 && MonthIndex(labels[j]) == MonthIndex(current) - (n - 1) + j
    ensures Distinct(labels)
    ensures 1 <= current.month <= 12 && n > 0 ==> labels[n - 1] == current
  {
    labels := [];
    var i := n;
    while i > 0
      invariant 0 <= i <= n
      invariant |labels| == n - i
      invariant forall j :: 0 <= j < |labels| ==>
        labels[j] == MonthAt(MonthIndex(current) - (n - 1) + j)
    {
      i := i - 1;
      labels := labels + [MonthAt(MonthIndex(current) - i)];
    }
    if 1 <= current.month <= 12 && n > 0 {
      MonthAtIndex(current);
    }
  }

  /**
   * Across a year boundary: in February 2025 the twelve labels run from 2024-03 to
   * 2025-02.
   */
  lemma MonthsBackRollover()
    ensures MonthAt(MonthIndex(Month(2025, 2)) - 11) == Month(2024, 3)
    ensures MonthAt(MonthIndex(Month(2025, 2)) - 2) == Month(2024, 12)
    ensures MonthAt(MonthIndex(Month(2025, 2)) - 1) == Month(2025, 1)
    ensures MonthLabel(Month(2024, 3)) == "2024-03" && MonthLabel(Month(2025, 2)) == "2025-02"
  {
    assert DecimalText(2) == "2";
    assert DecimalText(20) == "20";
    assert DecimalText(202) == "202";
  }

  /** `bucketMonth(t.date)`: the month of a date; none for a missing or invalid date. */
  function BucketMonth(d: Option<Date>): (r: Option<Month>)
    ensures r.Some? <==> d.Some? && ValidDate(d.value)
    ensures r.Some? ==> r.value.year == d.value.year && r.value.month == d.value.month
  {
    if d.Some? && ValidDate(d.value) then Some(MonthOf(d.value)) else None
  }

  function IsMonth(m: Month): Month -> bool {
    (l: Month) => l == m
  }

  /** `labels.indexOf(bucketMonth(...))`: the empty label of a missing date matches none. */
  function IndexOfMonth(labels: seq<Month>, m: Option<Month>): (r: int)
    ensures -1 <= r < |labels|
    ensures r >= 0 ==> m == Some(labels[r])
    ensures r == -1 ==> forall j :: 0 <= j < |labels| ==> m != Some(labels[j])
  {
    if m.None? then -1
    else
      var i := IndexWhere(labels, IsMonth(m.value));
      assert i >= 0 ==> IsMonth(m.value)(labels[i]);
      i
  }

  /** The transactions dated in month `m`. */
  function InMonth(m: Month): Tx -> bool {
    (t: Tx) => BucketMonth(t.date) == Some(m)
  }

  /** The loop's step: `t` adds to the first bucket labelled with its month, if any. */
  function AddToSeries(acc: (seq<int>, seq<int>), labels: seq<Month>, t: Tx): (r: (seq<int>, seq<int>))
    requires |acc.0| == |labels| && |acc.1| == |labels|
    ensures |r.0| == |labels| && |r.1| == |labels|
  {
    var i := IndexOfMonth(labels, BucketMonth(t.date));
    if i > -1 then (acc.0[i := acc.0[i] + t.signed], acc.1[i := acc.1[i] + 1]) else acc
  }

  /** The `net` and `count` arrays the loop has built after the transactions `txs`. */
  function Series(txs: seq<Tx>, labels: seq<Month>): (r: (seq<int>, seq<int>))
    ensures |r.0| == |labels| && |r.1| == |labels|
  {
    if txs == [] then (seq(|labels|, _ => 0), seq(|labels|, _ => 0))
    else AddToSeries(Series(txs[..|txs| - 1], labels), labels, txs[|txs| - 1])
  }

  /**
   * With distinct labels, each month's entries are the sum of `signed` and the
   * number of the transactions dated in that month.
   */
  lemma {:induction false} SeriesSpec(txs: seq<Tx>, labels: seq<Month>, j: nat)
    requires Distinct(labels) && j < |labels|
    ensures Series(txs, labels).1[j] == |Filter(txs, InMonth(labels[j]))|
    ensures Series(txs, labels).0[j] == SumOf(Filter(txs, InMonth(labels[j])), SignedOf)
  {
    if txs != [] {
      var prefix, t := txs[..|txs| - 1], txs[|txs| - 1];
      assert txs == prefix + [t];
      SeriesSpec(prefix, labels, j);
      FilterSumSnoc(prefix, t, InMonth(labels[j]), SignedOf);
      var i := IndexOfMonth(labels, BucketMonth(t.date));
      assert InMonth(labels[j])(t) <==> j == i;
    }
  }

  /**
   * `computeMonthlySeries()`: twelve consecutive months ending with the current one,
   * and for each the number of transactions dated in it and the sum of their
   * `signed` values.
   */
  method ComputeMonthlySeries(txs: seq<Tx>, current: Month)
      returns (labels: seq<Month>, net: seq<int>, count: seq<int>)
    ensures |labels| == 12 && |net| == 12 && |count| == 12
    ensures forall j :: 0 <= j < 12 ==>
      1 <= labels[j].month <= 12 && MonthIndex(labels[j]) == MonthIndex(current) - 11 + j
    ensures Distinct(labels)
    ensures 1 <= current.month <= 12 ==> labels[11] == current
    ensures forall j :: 0 <= j < 12 ==> count[j] == |Filter(txs, InMonth(labels[j]))|
    ensures forall j :: 0 <= j < 12 ==> net[j] == SumOf(Filter(txs, InMonth(labels[j])), SignedOf)
  {
    labels := MonthsBackLabels(current, 12);
    net := seq(12, _ => 0);
    count := seq(12, _ => 0);
    for k := 0 to |txs|
      invariant (net, count) == Series(txs[..k], labels)
    {
      var t := txs[k];
      assert txs[..k + 1][..k] == txs[..k];
      assert Series(txs[..k + 1], labels) == AddToSeries(Series(txs[..k], labels), labels, t);
      ghost var before := (net, count);
      var i := IndexOfMonth(labels, BucketMonth(t.date));
      if i > -1 {
        net := net[i := net[i] + t.signed];
        count := count[i := count[i] + 1];
      }
      assert (net, count) == AddToSeries(before, labels, t);
    }
    assert txs[..|txs|] == txs;
    forall j | 0 <= j < 12
      ensures count[j] == |Filter(txs, InMonth(labels[j]))|
      ensures net[j] == SumOf(Filter(txs, InMonth(labels[j])), SignedOf)
    {
      SeriesSpec(txs, labels, j);
    }
  }

  function SumInts(s: seq<int>): int {
    if s == [] then 0 else s[0] + SumInts(s[1..])
  }

  /** The transactions dated in one of the months `labels`. */
  function InWindow(labels: seq<Month>): Tx -> bool {
    (t: Tx) => BucketMonth(t.date).Some? && BucketMonth(t.date).value in labels
  }

  lemma {:induction false} NoneKept(s: seq<Tx>, p: Tx -> bool)
    requires forall x :: !p(x)
    ensures Filter(s, p) == []
  {
    if s != [] {
      NoneKept(s[1..], p);
    }
  }

  /**
   * The monthly buckets together hold exactly the transactions dated inside the
   * window: one dated outside it counts in no bucket, and none counts twice.
   */
  lemma {:induction false} MonthlyWindow(labels: seq<Month>, txs: seq<Tx>, net: seq<int>, count: seq<int>)
    requires Distinct(labels) && |net| == |labels| && |count| == |labels|
    requires forall j :: 0 <= j < |labels| ==> count[j] == |Filter(txs, InMonth(labels[j]))|
    requires forall j :: 0 <= j < |labels| ==> net[j] == SumOf(Filter(txs, InMonth(labels[j])), SignedOf)
    ensures SumInts(count) == |Filter(txs, InWindow(labels))|
    ensures SumInts(net) == SumOf(Filter(txs, InWindow(labels)), SignedOf)
  {
    if labels == [] {
      NoneKept(txs, InWindow(labels));
    } else {
      var l, ls := labels[0], labels[1..];
      assert Distinct(ls);
      MonthlyWindow(ls, txs, net[1..], count[1..]);
      forall x ensures InWindow(labels)(x) == (InMonth(l)(x) || InWindow(ls)(x)) {
        assert labels == [l] + ls;
      }
      assert l !in ls by {
        forall k | 0 <= k < |ls| ensures ls[k] != l {
          assert labels[k + 1] == ls[k];
        }
      }
      assert forall x :: !(InMonth(l)(x) && InWindow(ls)(x));
      FilterSplit(txs, InWindow(labels), InMonth(l), InWindow(ls), SignedOf);
    }
  }

  /* ---------- top balances ---------- */

  /** One bar of the top-balances chart: `{ name, bal }`. */
  datatype Exposure = Exposure(name: string, bal: int)

  /** `model.people.map(p => ({ name: p.name, bal: ... }))`, in `people` order. */
  function Exposures(people: seq<Person>, txs: seq<Tx>): (r: seq<Exposure>)
    ensures |r| == |people|
  {
    if people == [] then []
    else [Exposure(people[0].name, BalanceForPerson(txs, people[0].id))] + Exposures(people[1..], txs)
  }

  /** Row `i` names person `i` and carries that person's balance. */
  lemma {:induction false} ExposuresRows(people: seq<Person>, txs: seq<Tx>)
    ensures forall i :: 0 <= i < |people| ==>
      Exposures(people, txs)[i] == Exposure(people[i].name, BalanceForPerson(txs, people[i].id))
  {
    if people != [] {
      var r, rest := Exposures(people, txs), Exposures(people[1..], txs);
      ExposuresRows(people[1..], txs);
      forall i | 0 < i < |people|
        ensures r[i] == Exposure(people[i].name, BalanceForPerson(txs, people[i].id))
      {
        assert r[i] == rest[i - 1];
        assert people[1..][i - 1] == people[i];
      }
    }
  }

  function MagnitudeOf(e: Exposure): nat { Abs(e.bal) }

  predicate Greater(a: nat, b: nat) { a > b }

  lemma GreaterIsStrictTotalOrder()
    ensures StrictTotalOrder(Greater)
  {
  }

  function Min(a: nat, b: nat): nat { if a < b then a else b }

  /** `a.sort((x, y) => Math.abs(y.bal) - Math.abs(x.bal))`. */
  function SortByMagnitude(rows: seq<Exposure>): seq<Exposure> {
    SortDesc(rows, MagnitudeOf, Greater)
  }

  /** `a.slice(0, n)` of the sorted rows. */
  function TopOf(rows: seq<Exposure>, n: nat): seq<Exposure> {
    var sorted := SortByMagnitude(rows);
    sorted[..Min(n, |sorted|)]
  }

  /** `topBalances(n)`. */
  function TopBalances(people: seq<Person>, txs: seq<Tx>, n: nat): seq<Exposure> {
    TopOf(Exposures(people, txs), n)
  }

  /**
   * `topBalances(n)` has `min(n, |people|)` entries, the first entries of a
   * permutation of all persons' balances ordered by magnitude, largest first, so no
   * person left out has a larger balance than one shown.
   */
  lemma TopBalancesRanked(people: seq<Person>, txs: seq<Tx>, n: nat)
    ensures var rows, r := Exposures(people, txs), TopBalances(people, txs, n);
      var sorted := SortByMagnitude(rows);
      && |r| == Min(n, |people|)
      && r == sorted[..|r|]
      && multiset(sorted) == multiset(rows)
      && (forall i, j :: 0 <= i < j < |sorted| ==> Abs(sorted[i].bal) >= Abs(sorted[j].bal))
  {
    var rows := Exposures(people, txs);
    var sorted := SortByMagnitude(rows);
    GreaterIsStrictTotalOrder();
    SortDescSorted(rows, MagnitudeOf, Greater);
    forall i, j | 0 <= i < j < |sorted| ensures Abs(sorted[i].bal) >= Abs(sorted[j].bal) {
      assert !Greater(MagnitudeOf(sorted[j]), MagnitudeOf(sorted[i]));
    }
  }

  /** Persons with balances of equal magnitude keep their order in `people`. */
  lemma TopBalancesTies(people: seq<Person>, txs: seq<Tx>, k: nat)
    ensures var rows := Exposures(people, txs);
      Filter(SortByMagnitude(rows), HasKey(MagnitudeOf, k)) == Filter(rows, HasKey(MagnitudeOf, k))
  {
    SortDescStable(Exposures(people, txs), MagnitudeOf, Greater, k);
  }

  lemma SortTwoExample(b: Exposure, c: Exposure)
    requires MagnitudeOf(b) > MagnitudeOf(c)
    ensures SortByMagnitude([b, c]) == [b, c]
  {
    assert [b, c][1..] == [c];
    assert [c][1..] == [];
    assert SortDesc([c], MagnitudeOf, Greater) == [c];
  }

  lemma InsertSecondExample(a: Exposure, b: Exposure, c: Exposure)
    requires MagnitudeOf(b) > MagnitudeOf(a) > MagnitudeOf(c)
    ensures Insert(a, [b, c], MagnitudeOf, Greater) == [b, a, c]
  {
    assert [b, c][1..] == [c];
    assert Insert(a, [c], MagnitudeOf, Greater) == [a, c];
  }

  /** Balances +500, -700 and +10 with `n = 2` give the -700 and the +500, in that order. */
  lemma TopBalancesExample()
    ensures TopOf([Exposure("A", 500), Exposure("B", -700), Exposure("C", 10)], 2) ==
            [Exposure("B", -700), Exposure("A", 500)]
  {
    var a, b, c := Exposure("A", 500), Exposure("B", -700), Exposure("C", 10);
    assert MagnitudeOf(a) == 500 && MagnitudeOf(b) == 700 && MagnitudeOf(c) == 10;
    assert [a, b, c][1..] == [b, c];
    SortTwoExample(b, c);
    InsertSecondExample(a, b, c);
    assert SortByMagnitude([a, b, c]) == [b, a, c];
    assert [b, a, c][..2] == [b, a];
  }

  /* ---------- totals by kind ---------- */

  /** The chart's kinds, in its fixed order. */
  const ByTypeKinds: seq<TxKind> := [Lent, RepayToMe, Borrowed, RepayByMe]

  const ByTypeLabels: seq<string> := ["Lånt til dem", "Tilbage til mig", "Jeg har lånt", "Jeg har tilbagebetalt"]

  function HasKind(k: TxKind): Tx -> bool {
    (t: Tx) => t.kind == k
  }

  /** `model.tx.filter(t => t.type === tp).reduce((s, t) => s + Math.abs(t.amount||0), 0)`. */
  function KindTotal(txs: seq<Tx>, k: TxKind): (r: int)
    ensures r >= 0
  {
    var f := Filter(txs, HasKind(k));
    assert forall i :: 0 <= i < |f| ==> AbsAmountOf(f[i]) >= 0;
    SumOfNonNegative(f, AbsAmountOf);
    SumOf(Filter(txs, HasKind(k)), AbsAmountOf)
  }

  /** `byType()`: the four labels and four non-negative totals, in the order of `ByTypeKinds`. */
  function ByType(txs: seq<Tx>): (r: (seq<string>, seq<int>))
    ensures r.0 == ByTypeLabels && |r.0| == |r.1| == |ByTypeKinds| == 4
    ensures forall j :: 0 <= j < 4 ==> r.1[j] >= 0 && r.1[j] == KindTotal(txs, ByTypeKinds[j])
  {
    (ByTypeLabels, seq(4, j requires 0 <= j < 4 => KindTotal(txs, ByTypeKinds[j])))
  }

  lemma KindTotalHead(t: Tx, rest: seq<Tx>, k: TxKind)
    ensures KindTotal([t] + rest, k) == (if t.kind == k then AbsAmountOf(t) else 0) + KindTotal(rest, k)
  {
    FilterSumCons(t, rest, HasKind(k), AbsAmountOf);
  }

  /** Lent - repaid to me - borrowed + repaid by me. */
  function NetOfKinds(txs: seq<Tx>): int {
    KindTotal(txs, Lent) - KindTotal(txs, RepayToMe) - KindTotal(txs, Borrowed) + KindTotal(txs, RepayByMe)
  }

  lemma {:induction false} NetOfKindsIsSum(txs: seq<Tx>)
    requires forall i :: 0 <= i < |txs| ==> txs[i].signed == SignedAmount(txs[i].kind, txs[i].amount)
    ensures NetOfKinds(txs) == SumOf(txs, SignedOf)
  {
    if txs != [] {
      var t, rest := txs[0], txs[1..];
      assert txs == [t] + rest;
      NetOfKindsIsSum(rest);
      KindTotalHead(t, rest, Lent);
      KindTotalHead(t, rest, RepayToMe);
      KindTotalHead(t, rest, Borrowed);
      KindTotalHead(t, rest, RepayByMe);
      assert AbsAmountOf(t) == Abs(t.amount);
      assert SumOf(txs, SignedOf) == t.signed + SumOf(rest, SignedOf);
    }
  }

  /**
   * When every stored `signed` agrees with its kind and amount, the four kind
   * totals give back the summary's net: lent - repaid to me - borrowed + repaid by me.
   */
  lemma ByTypeGivesNet(txs: seq<Tx>)
    requires forall i :: 0 <= i < |txs| ==> txs[i].signed == SignedAmount(txs[i].kind, txs[i].amount)
    ensures var r := ByType(txs).1; r[0] - r[1] - r[2] + r[3] == Summary(txs).net
  {
    NetOfKindsIsSum(txs);
    var r := ByType(txs).1;
    assert r[0] - r[1] - r[2] + r[3] == NetOfKinds(txs);
  }

  /* ---------- aging ---------- */

  const AgingLabels: seq<string> := ["0\U{2013}7", "8\U{2013}30", "31\U{2013}60", "60+"]

  /**
   * The bucket of `agingBuckets` a transaction adds to at time `now` (milliseconds):
   * none without a due date or when `new Date(due) >= now`; otherwise by whole days
   * overdue, 0 to 7, 8 to 30, 31 to 60 and more. An Invalid Date passes every test
   * as NaN does and lands in the last bucket. The kind is not looked at.
   */
  function AgingIndex(t: Tx, now: int): (r: Option<nat>)
    ensures r.Some? ==> r.value < 4
  {
    if t.due.None? then None
    else
      match JsTime(t.due.value)
      case None => Some(3)
      case Some(due) =>
        if due >= now then None
        else
          var days := (now - due) / MsPerDay;
          Some(if days <= 7 then 0 else if days <= 30 then 1 else if days <= 60 then 2 else 3)
  }

  /** `t => AgingIndex(t, now)`. */
  function AgeOf(now: int): Tx -> Option<nat> {
    (t: Tx) => AgingIndex(t, now)
  }

  /** The transactions the index function `idx` puts in bucket `j`. */
  function AtIndex(idx: Tx -> Option<nat>, j: nat): Tx -> bool {
    (t: Tx) => idx(t) == Some(j)
  }

  /** The transactions `idx` puts in some bucket from `j` on. */
  function FromIndex(idx: Tx -> Option<nat>, j: nat): Tx -> bool {
    (t: Tx) => idx(t).Some? && idx(t).value >= j
  }

  function InBucket(now: int, j: nat): Tx -> bool {
    AtIndex(AgeOf(now), j)
  }

  /** The total of one aging bucket: the sum of `|signed|` of the transactions in it. */
  function BucketTotal(txs: seq<Tx>, now: int, j: nat): (r: int)
    ensures r >= 0
  {
    var f := Filter(txs, InBucket(now, j));
    assert forall i :: 0 <= i < |f| ==> AbsSignedOf(f[i]) >= 0;
    SumOfNonNegative(f, AbsSignedOf);
    SumOf(Filter(txs, InBucket(now, j)), AbsSignedOf)
  }

  /** `data` with the `|signed|` of `t` added to its bucket, if it has one. */
  function AddAged(data: seq<int>, t: Tx, now: int): (r: seq<int>)
    requires |data| == 4
    ensures |r| == 4
  {
    var b := AgingIndex(t, now);
    if b.Some? then data[b.value := data[b.value] + AbsSignedOf(t)] else data
  }

  /** The four totals the aging loop has built after the transactions `txs`. */
  function AgingData(txs: seq<Tx>, now: int): (r: seq<int>)
    ensures |r| == 4
  {
    if txs == [] then [0, 0, 0, 0]
    else AddAged(AgingData(txs[..|txs| - 1], now), txs[|txs| - 1], now)
  }

  /** Each total is the sum of `|signed|` over the transactions in its bucket. */
  lemma {:induction false} AgingDataSpec(txs: seq<Tx>, now: int, j: nat)
    requires j < 4
    ensures AgingData(txs, now)[j] == BucketTotal(txs, now, j)
  {
    if txs != [] {
      var prefix, t := txs[..|txs| - 1], txs[|txs| - 1];
      assert txs == prefix + [t];
      AgingDataSpec(prefix, now, j);
      FilterSumSnoc(prefix, t, InBucket(now, j), AbsSignedOf);
    }
  }

  /** `agingBuckets()` at time `now`: the four bucket labels and totals. */
  method AgingBuckets(txs: seq<Tx>, now: int) returns (labels: seq<string>, data: seq<int>)
    ensures labels == AgingLabels
    ensures |data| == 4
    ensures forall j :: 0 <= j < 4 ==> data[j] == BucketTotal(txs, now, j)
  {
    data := [0, 0, 0, 0];
    for k := 0 to |txs|
      invariant data == AgingData(txs[..k], now)
    {
      var t := txs[k];
      assert txs[..k + 1][..k] == txs[..k];
      assert AgingData(txs[..k + 1], now) == AddAged(AgingData(txs[..k], now), t, now);
      ghost var before := data;
      var bucket := AgingIndex(t, now);
      if bucket.Some? {
        data := data[bucket.value := data[bucket.value] + AbsSignedOf(t)];
      }
      assert data == AddAged(before, t, now);
    }
    assert txs[..|txs|] == txs;
    forall j | 0 <= j < 4 ensures data[j] == BucketTotal(txs, now, j) {
      AgingDataSpec(txs, now, j);
    }
    labels := AgingLabels;
  }

  /**
   * With a valid due date, a transaction is aged exactly when its due date's
   * midnight lies before `now`, whatever its kind.
   */
  lemma AgingContributes(t: Tx, now: int)
    requires t.due.Some? ==> ValidDate(t.due.value)
    ensures AgingIndex(t, now).Some? <==> t.due.Some? && TimeValue(t.due.value) < now
  {
  }

  /** The bucket boundaries: whole days overdue, 0-7, 8-30, 31-60, over 60. */
  lemma AgingBucketBounds(t: Tx, now: int)
    requires t.due.Some? && ValidDate(t.due.value) && TimeValue(t.due.value) < now
    ensures var days := (now - TimeValue(t.due.value)) / MsPerDay;
      && days >= 0
      && (AgingIndex(t, now) == Some(0) <==> days <= 7)
      && (AgingIndex(t, now) == Some(1) <==> 8 <= days <= 30)
      && (AgingIndex(t, now) == Some(2) <==> 31 <= days <= 60)
      && (AgingIndex(t, now) == Some(3) <==> 60 < days)
  {
  }

  /** A due date of today is already past after midnight UTC and ages into 0-7. */
  lemma AgingDueToday(t: Tx, now: int)
    requires t.due.Some? && ValidDate(t.due.value)
    requires TimeValue(t.due.value) < now < TimeValue(t.due.value) + MsPerDay
    ensures AgingIndex(t, now) == Some(0)
  {
  }

  /** Every transaction the statement marks overdue is counted by the aging chart. */
  lemma OverdueIsAged(t: Tx, now: int)
    requires IsOverdue(t, now)
    ensures AgingIndex(t, now).Some?
  {
  }

  /** The aging chart also counts a repayment with a past due date, which the statement never marks overdue. */
  lemma AgingCountsRepayments(now: int)
    requires now > 0
    ensures var t := Tx("x", "p", RepayToMe, 100, -100, None, Some(Date(1970, 1, 1)), "");
      AgingIndex(t, now) == Some(if now <= 8 * MsPerDay - 1 then 0 else if now <= 31 * MsPerDay - 1 then 1 else if now <= 61 * MsPerDay - 1 then 2 else 3) &&
      !IsOverdue(t, now)
  {
    var d := Date(1970, 1, 1);
    assert DayFromYear(1970) == 0;
    assert TimeValue(d) == 0;
  }

  /** A borrowing due 2024-01-01 and looked at on 2024-02-15 is 45 days overdue: bucket 31-60. */
  lemma AgingExample()
    ensures var t := Tx("x", "p", Borrowed, 100, -100, Some(Date(2024, 1, 10)), Some(Date(2024, 1, 1)), "");
      var now := TimeValue(Date(2024, 2, 15));
      (now - TimeValue(Date(2024, 1, 1))) / MsPerDay == 45 &&
      IsOverdue(t, now) && AgingIndex(t, now) == Some(2)
  {
  }

  lemma SplitFrom(txs: seq<Tx>, idx: Tx -> Option<nat>, j: nat, f: Tx -> int)
    ensures SumOf(Filter(txs, FromIndex(idx, j)), f) ==
            SumOf(Filter(txs, AtIndex(idx, j)), f) + SumOf(Filter(txs, FromIndex(idx, j + 1)), f)
  {
    FilterSplit(txs, FromIndex(idx, j), AtIndex(idx, j), FromIndex(idx, j + 1), f);
  }

  lemma LastIndex(txs: seq<Tx>, idx: Tx -> Option<nat>, j: nat)
    requires forall t :: idx(t).Some? ==> idx(t).value <= j
    ensures Filter(txs, FromIndex(idx, j)) == Filter(txs, AtIndex(idx, j))
  {
    FilterExt(txs, FromIndex(idx, j), AtIndex(idx, j));
  }

  /** Bucket by bucket, four buckets together hold every transaction `idx` puts in one. */
  lemma FourBuckets(txs: seq<Tx>, idx: Tx -> Option<nat>, f: Tx -> int)
    requires forall t :: idx(t).Some? ==> idx(t).value < 4
    ensures SumOf(Filter(txs, AtIndex(idx, 0)), f) + SumOf(Filter(txs, AtIndex(idx, 1)), f) +
            SumOf(Filter(txs, AtIndex(idx, 2)), f) + SumOf(Filter(txs, AtIndex(idx, 3)), f)
            == SumOf(Filter(txs, FromIndex(idx, 0)), f)
  {
    var a0, a1, a2, a3 := SumOf(Filter(txs, AtIndex(idx, 0)), f), SumOf(Filter(txs, AtIndex(idx, 1)), f),
                          SumOf(Filter(txs, AtIndex(idx, 2)), f), SumOf(Filter(txs, AtIndex(idx, 3)), f);
    var f0, f1, f2, f3 := SumOf(Filter(txs, FromIndex(idx, 0)), f), SumOf(Filter(txs, FromIndex(idx, 1)), f),
                          SumOf(Filter(txs, FromIndex(idx, 2)), f), SumOf(Filter(txs, FromIndex(idx, 3)), f);
    SplitFrom(txs, idx, 0, f);
    assert f0 == a0 + f1;
    SplitFrom(txs, idx, 1, f);
    assert f1 == a1 + f2;
    SplitFrom(txs, idx, 2, f);
    assert f2 == a2 + f3;
    LastIndex(txs, idx, 3);
    assert f3 == a3;
  }

  /**
   * The four totals add up to the `|signed|` of all aged transactions: each aged
   * transaction lands in exactly one bucket.
   */
  lemma AgingTotals(txs: seq<Tx>, now: int)
    ensures BucketTotal(txs, now, 0) + BucketTotal(txs, now, 1) + BucketTotal(txs, now, 2) + BucketTotal(txs, now, 3)
            == SumOf(Filter(txs, FromIndex(AgeOf(now), 0)), AbsSignedOf)
  {
    FourBuckets(txs, AgeOf(now), AbsSignedOf);
  }
}
