/**
 * The read side of the ledger: looking up a person, one person's transactions in
 * statement order and their balance, the statement's date filter and its overdue
 * marker.
 */
module Query {
  import opened Wrappers
  import opened Seqs
  import opened Dates
  import opened Entities
  import opened Balance
  import opened Sorting

  /** `personById(id)`: the first person whose `id` is `id`; `null` matches nobody. */
  function PersonById(people: seq<Person>, id: Option<Id>): (r: Option<Person>)
    ensures r.None? <==> id.None? || forall i :: 0 <= i < |people| ==> people[i].id != id.value
    ensures r.Some? ==> exists i :: 0 <= i < |people| && people[i] == r.value && r.value.id == id.value &&
                          forall j :: 0 <= j < i ==> people[j].id != id.value
  {
    if id.None? then None
    else
      var i := IndexWhere(people, HasPersonId(id.value));
      if i < 0 then None else Some(people[i])
  }

  /* ---------- stable sort by date, most recent first ---------- */

  /** The sort key of `txForPerson`: the date field, `''` when missing. */
  function DateOf(t: Tx): Option<Date> { t.date }

  /** The comparator of `txForPerson`'s sort orders date fields strictly and totally. */
  lemma LaterIsStrictTotalOrder()
    ensures StrictTotalOrder(Later)
  {
    forall a: Option<Date>, b: Option<Date>, c: Option<Date> | Later(a, b) && Later(b, c)
      ensures Later(a, c)
    {
      LaterTransitive(a, b, c);
    }
    forall a: Option<Date>, b: Option<Date> ensures a == b || Later(a, b) || Later(b, a) {
      LaterTotal(a, b);
    }
  }

  /** `sort((a,b) => (b.date||'').localeCompare(a.date||''))`: most recent first, stable. */
  function SortByDateDesc(s: seq<Tx>): seq<Tx> {
    SortDesc(s, DateOf, Later)
  }

  /* ---------- txForPerson and balanceForPerson ---------- */

  /** `txForPerson(id)`: that person's transactions, most recent first. */
  function TxForPerson(txs: seq<Tx>, id: Id): seq<Tx> {
    SortByDateDesc(Filter(txs, HasPid(id)))
  }

  /** `t => t.pid === id && (t.date||'') === d`. */
  function HasPidAndDate(id: Id, d: Option<Date>): Tx -> bool {
    (t: Tx) => t.pid == id && t.date == d
  }

  /** `txForPerson(id)` is a permutation of exactly the transactions with `pid == id`. */
  lemma TxForPersonMembers(txs: seq<Tx>, id: Id)
    ensures multiset(TxForPerson(txs, id)) == multiset(Filter(txs, HasPid(id)))
    ensures forall t :: t in TxForPerson(txs, id) <==> t in txs && t.pid == id
  {
    var r := TxForPerson(txs, id);
    FilterMultiset(txs, HasPid(id));
    forall t ensures t in r <==> t in txs && t.pid == id {
      assert t in r <==> t in multiset(r);
      assert t in txs <==> t in multiset(txs);
    }
  }

  /** `txForPerson(id)` lists the most recent dates first and the undated transactions last. */
  lemma TxForPersonOrdered(txs: seq<Tx>, id: Id)
    ensures var r := TxForPerson(txs, id);
      && (forall i, j :: 0 <= i < j < |r| ==> !Later(r[j].date, r[i].date))
      && (forall i, j :: 0 <= i < j < |r| && r[i].date.None? ==> r[j].date.None?)
  {
    var r := TxForPerson(txs, id);
    assert SortedDesc(r, DateOf, Later) by {
      LaterIsStrictTotalOrder();
      SortDescSorted(Filter(txs, HasPid(id)), DateOf, Later);
    }
    forall i, j | 0 <= i < j < |r| ensures !Later(r[j].date, r[i].date) {
      assert !Later(DateOf(r[j]), DateOf(r[i]));
    }
  }

  /**
   * Transactions of one date keep the order they have in the ledger, which for
   * transactions added through the form is the order they were added in.
   */
  lemma TxForPersonStable(txs: seq<Tx>, id: Id, d: Option<Date>)
    ensures Filter(TxForPerson(txs, id), HasKey(DateOf, d)) == Filter(txs, HasPidAndDate(id, d))
  {
    SortDescStable(Filter(txs, HasPid(id)), DateOf, Later, d);
    forall x ensures HasPidAndDate(id, d)(x) == (HasPid(id)(x) && HasKey(DateOf, d)(x)) {
      assert HasKey(DateOf, d)(x) == (DateOf(x) == d);
      assert DateOf(x) == x.date;
    }
    FilterFilter(txs, HasPid(id), HasKey(DateOf, d), HasPidAndDate(id, d));
  }

  /** `balanceForPerson(id)`: the sum of the `signed` values of `txForPerson(id)`. */
  function BalanceForPerson(txs: seq<Tx>, id: Id): int {
    SumOf(TxForPerson(txs, id), SignedOf)
  }

  /** The balance is the sum over exactly that person's transactions, in any order. */
  lemma BalanceIsSumOfOwn(txs: seq<Tx>, id: Id)
    ensures BalanceForPerson(txs, id) == SumOf(Filter(txs, HasPid(id)), SignedOf)
  {
    SumOfPermutation(TxForPerson(txs, id), Filter(txs, HasPid(id)), SignedOf);
  }

  /**
   * Lending Anna 500 on 2024-01-10 puts her balance at +500; her repaying 200 on
   * 2024-02-01 brings it down to +300.
   */
  lemma BalanceScenario()
    ensures var lent := Tx("t1", "anna", Lent, 500, SignedAmount(Lent, 500), Some(Date(2024, 1, 10)), None, "");
      var repaid := Tx("t2", "anna", RepayToMe, 200, SignedAmount(RepayToMe, 200), Some(Date(2024, 2, 1)), None, "");
      BalanceForPerson([lent], "anna") == 500 && BalanceForPerson([lent, repaid], "anna") == 300
  {
    var lent := Tx("t1", "anna", Lent, 500, SignedAmount(Lent, 500), Some(Date(2024, 1, 10)), None, "");
    var repaid := Tx("t2", "anna", RepayToMe, 200, SignedAmount(RepayToMe, 200), Some(Date(2024, 2, 1)), None, "");
    BalanceAfterAppend([], lent, "anna");
    BalanceAfterAppend([lent], repaid, "anna");
    assert [lent] + [repaid] == [lent, repaid];
  }

  /**
   * Appending a transaction changes its own person's balance by its `signed` value
   * and no other person's balance.
   */
  lemma BalanceAfterAppend(txs: seq<Tx>, t: Tx, id: Id)
    ensures BalanceForPerson(txs + [t], id) ==
            BalanceForPerson(txs, id) + (if t.pid == id then t.signed else 0)
  {
    BalanceIsSumOfOwn(txs + [t], id);
    BalanceIsSumOfOwn(txs, id);
    FilterAppend(txs, [t], HasPid(id));
    SumOfAppend(Filter(txs, HasPid(id)), Filter([t], HasPid(id)), SignedOf);
  }

  /**
   * Taking out the transaction at index `i` changes its own person's balance by
   * minus its `signed` value and no other person's balance.
   */
  lemma BalanceAfterRemove(txs: seq<Tx>, i: nat, id: Id)
    requires i < |txs|
    ensures BalanceForPerson(RemoveAt(txs, i), id) ==
            BalanceForPerson(txs, id) - (if txs[i].pid == id then txs[i].signed else 0)
  {
    var pre, post := txs[..i], txs[i+1..];
    assert txs == pre + [txs[i]] + post;
    BalanceIsSumOfOwn(RemoveAt(txs, i), id);
    BalanceIsSumOfOwn(txs, id);
    FilterAppend(pre, post, HasPid(id));
    FilterAppend(pre + [txs[i]], post, HasPid(id));
    FilterAppend(pre, [txs[i]], HasPid(id));
    SumOfAppend(Filter(pre, HasPid(id)), Filter(post, HasPid(id)), SignedOf);
    SumOfAppend(Filter(pre, HasPid(id)) + Filter([txs[i]], HasPid(id)), Filter(post, HasPid(id)), SignedOf);
    SumOfAppend(Filter(pre, HasPid(id)), Filter([txs[i]], HasPid(id)), SignedOf);
  }

  /** The balance of one person as a function of a person, for summing over persons. */
  function BalanceOfPerson(txs: seq<Tx>): Person -> int {
    (p: Person) => BalanceForPerson(txs, p.id)
  }

  /** How one transaction counts towards a person's balance. */
  function ShareOf(t: Tx): Person -> int {
    (p: Person) => if p.id == t.pid then t.signed else 0
  }

  lemma BalanceOfEmpty(people: seq<Person>)
    ensures SumOf(people, BalanceOfPerson([])) == 0
  {
    SumOfNonNegative(people, BalanceOfPerson([]));
    SumOfNonPositive(people, BalanceOfPerson([]));
  }

  /** Across all persons, one transaction counts once when its `pid` names one person. */
  lemma ShareSum(people: seq<Person>, t: Tx)
    requires |Filter(people, HasPersonId(t.pid))| == 1
    ensures SumOf(people, ShareOf(t)) == t.signed
  {
    SumOfFilterZeros(people, HasPersonId(t.pid), ShareOf(t));
    var mine := Filter(people, HasPersonId(t.pid));
    assert mine == [mine[0]];
  }

  lemma BalanceOfHead(t: Tx, rest: seq<Tx>, id: Id)
    ensures BalanceForPerson([t] + rest, id) == (if t.pid == id then t.signed else 0) + BalanceForPerson(rest, id)
  {
    BalanceIsSumOfOwn([t] + rest, id);
    BalanceIsSumOfOwn(rest, id);
    FilterAppend([t], rest, HasPid(id));
    SumOfAppend(Filter([t], HasPid(id)), Filter(rest, HasPid(id)), SignedOf);
  }

  /**
   * When every transaction's `pid` names exactly one person, the summary's net is
   * the sum of the persons' balances: no money is lost or counted twice.
   */
  lemma {:induction false} NetIsSumOfBalances(people: seq<Person>, txs: seq<Tx>)
    requires forall i :: 0 <= i < |txs| ==> |Filter(people, HasPersonId(txs[i].pid))| == 1
    ensures Summary(txs).net == SumOf(people, BalanceOfPerson(txs))
  {
    if txs == [] {
      BalanceOfEmpty(people);
    } else {
      var t, rest := txs[0], txs[1..];
      assert txs == [t] + rest;
      assert SumOf(rest, SignedOf) == SumOf(people, BalanceOfPerson(rest)) by {
        NetIsSumOfBalances(people, rest);
      }
      assert SumOf(people, BalanceOfPerson(txs)) ==
             SumOf(people, ShareOf(t)) + SumOf(people, BalanceOfPerson(rest)) by {
        forall k | 0 <= k < |people|
          ensures BalanceOfPerson(txs)(people[k]) == ShareOf(t)(people[k]) + BalanceOfPerson(rest)(people[k])
        {
          BalanceOfHead(t, rest, people[k].id);
        }
        SumOfAdd(people, ShareOf(t), BalanceOfPerson(rest), BalanceOfPerson(txs));
      }
      ShareSum(people, t);
    }
  }

  /* ---------- the statement's date filter ---------- */

  /**
   * `applyFilter`'s test: the transaction has a date, the date is not before `from`
   * and not after `to`, comparing `Date` objects; an absent bound does not test.
   */
  function InRange(from: Option<Date>, to: Option<Date>): Tx -> bool {
    (t: Tx) =>
      t.date.Some? &&
      !(from.Some? && JsLess(JsTime(t.date.value), JsTime(from.value))) &&
      !(to.Some? && JsLess(JsTime(to.value), JsTime(t.date.value)))
  }

  /** `applyFilter(list)` with the bounds `ui.from` and `ui.to`. */
  function ApplyFilter(list: seq<Tx>, from: Option<Date>, to: Option<Date>): seq<Tx> {
    Filter(list, InRange(from, to))
  }

  /** Inclusive bounds on the date text: neither bound excludes a date equal to it. */
  predicate WithinBounds(d: Option<Date>, from: Option<Date>, to: Option<Date>) {
    d.Some? &&
    (from.None? || !Before(d.value, from.value)) &&
    (to.None? || !Before(to.value, d.value))
  }

  function Within(from: Option<Date>, to: Option<Date>): Tx -> bool {
    (t: Tx) => WithinBounds(t.date, from, to)
  }

  predicate ValidDates(list: seq<Tx>) {
    forall i :: 0 <= i < |list| ==> list[i].date.Some? ==> ValidDate(list[i].date.value)
  }

  predicate ValidBound(b: Option<Date>) {
    b.Some? ==> ValidDate(b.value)
  }

  /**
   * On well-formed dates, `applyFilter` keeps exactly the dated transactions whose
   * date lies within both (inclusive, optional) bounds, in their original order.
   */
  lemma ApplyFilterSpec(list: seq<Tx>, from: Option<Date>, to: Option<Date>)
    requires ValidDates(list) && ValidBound(from) && ValidBound(to)
    ensures ApplyFilter(list, from, to) == Filter(list, Within(from, to))
    ensures IsSubseq(ApplyFilter(list, from, to), list)
  {
    forall i | 0 <= i < |list| ensures InRange(from, to)(list[i]) == Within(from, to)(list[i]) {
      var d := list[i].date;
      if d.Some? {
        if from.Some? { JsLessIsBefore(d.value, from.value); }
        if to.Some? { JsLessIsBefore(to.value, d.value); }
      }
    }
    FilterExt(list, InRange(from, to), Within(from, to));
    FilterIsSubseq(list, InRange(from, to));
  }

  /** A bound that is not a real day is an Invalid Date, which `applyFilter` ignores. */
  function OnlyValid(b: Option<Date>): (r: Option<Date>)
    ensures r.Some? <==> b.Some? && ValidDate(b.value)
    ensures r.Some? ==> r == b
  {
    if b.Some? && ValidDate(b.value) then b else None
  }

  /**
   * What `applyFilter` keeps whatever the dates hold: a dated transaction whose date
   * is not a real day (an Invalid Date, on which both NaN comparisons fail), and a
   * transaction with a real date inside the real bounds, a bound that is not a real
   * day being ignored.
   */
  function KeptBy(from: Option<Date>, to: Option<Date>): Tx -> bool {
    (t: Tx) =>
      t.date.Some? &&
      (!ValidDate(t.date.value) || WithinBounds(t.date, OnlyValid(from), OnlyValid(to)))
  }

  /**
   * `applyFilter` on any input: it keeps exactly the transactions `KeptBy` names, in
   * their original order, so a row dated on a day that does not exist is kept
   * whatever the bounds, and a bound that does not exist filters nothing.
   */
  lemma ApplyFilterGeneral(list: seq<Tx>, from: Option<Date>, to: Option<Date>)
    ensures ApplyFilter(list, from, to) == Filter(list, KeptBy(from, to))
    ensures ApplyFilter(list, from, to) == ApplyFilter(list, OnlyValid(from), OnlyValid(to))
  {
    var f, g := OnlyValid(from), OnlyValid(to);
    forall i | 0 <= i < |list|
      ensures InRange(from, to)(list[i]) == KeptBy(from, to)(list[i])
      ensures InRange(f, g)(list[i]) == KeptBy(from, to)(list[i])
    {
      var d := list[i].date;
      if d.Some? && ValidDate(d.value) {
        if f.Some? { JsLessIsBefore(d.value, f.value); }
        if g.Some? { JsLessIsBefore(g.value, d.value); }
      }
    }
    FilterExt(list, InRange(from, to), KeptBy(from, to));
    FilterExt(list, InRange(f, g), KeptBy(from, to));
  }

  /** A transaction dated on a day that does not exist passes any bounds. */
  lemma ApplyFilterKeepsInvalidDates(from: Option<Date>, to: Option<Date>)
    ensures ApplyFilter([Tx("t", "p", Lent, 100, 100, Some(Date(2024, 2, 30)), None, "")],
                        Some(Date(2025, 1, 1)), Some(Date(2025, 1, 31)))
            == [Tx("t", "p", Lent, 100, 100, Some(Date(2024, 2, 30)), None, "")]
  {
    var t := Tx("t", "p", Lent, 100, 100, Some(Date(2024, 2, 30)), None, "");
    assert !ValidDate(t.date.value);
    assert InRange(Some(Date(2025, 1, 1)), Some(Date(2025, 1, 31)))(t);
    assert [t][1..] == [];
  }

  /** Applying the same bounds twice gives what applying them once gives. */
  lemma ApplyFilterIdempotent(list: seq<Tx>, from: Option<Date>, to: Option<Date>)
    ensures ApplyFilter(ApplyFilter(list, from, to), from, to) == ApplyFilter(list, from, to)
  {
    FilterIdempotent(list, InRange(from, to));
  }

  /* ---------- statement ---------- */

  /**
   * The rows `renderStatement` shows: the selected person's transactions, passed
   * through `applyFilter` only when a bound is set; nothing when the selection names
   * no person.
   */
  function StatementRows(people: seq<Person>, txs: seq<Tx>, selected: Option<Id>,
                         from: Option<Date>, to: Option<Date>): seq<Tx>
  {
    match PersonById(people, selected)
    case None => []
    case Some(p) =>
      var all := TxForPerson(txs, p.id);
      if from.Some? || to.Some? then ApplyFilter(all, from, to) else all
  }

  /**
   * A dangling selection shows nothing; with no bound set the statement's total is
   * the person's balance, undated transactions included; with a bound set the rows
   * are an order-preserving selection of the person's transactions.
   */
  lemma StatementSpec(people: seq<Person>, txs: seq<Tx>, selected: Option<Id>,
                      from: Option<Date>, to: Option<Date>)
    ensures var rows := StatementRows(people, txs, selected, from, to);
      && (PersonById(people, selected).None? ==> rows == [])
      && (PersonById(people, selected).Some? && from.None? && to.None? ==>
            SumOf(rows, SignedOf) == BalanceForPerson(txs, selected.value))
      && (PersonById(people, selected).Some? ==>
            IsSubseq(rows, TxForPerson(txs, selected.value)) &&
            forall i :: 0 <= i < |rows| ==> rows[i].pid == selected.value)
  {
    match PersonById(people, selected)
    case None =>
    case Some(p) =>
      var all := TxForPerson(txs, p.id);
      var rows := StatementRows(people, txs, selected, from, to);
      assert IsSubseq(rows, all) by {
        if from.Some? || to.Some? {
          FilterIsSubseq(all, InRange(from, to));
        } else {
          SubseqRefl(all);
        }
      }
      TxForPersonMembers(txs, p.id);
      SubseqMembers(rows, all);
  }

  lemma {:induction false} SubseqMembers(a: seq<Tx>, b: seq<Tx>)
    requires IsSubseq(a, b)
    ensures forall i :: 0 <= i < |a| ==> a[i] in b
    decreases |b|
  {
    if a != [] && b != [] {
      if a[0] == b[0] {
        SubseqMembers(a[1..], b[1..]);
        forall i | 1 <= i < |a| ensures a[i] in b {
          assert a[i] == a[1..][i - 1];
        }
      } else {
        SubseqMembers(a, b[1..]);
      }
    }
  }

  lemma {:induction false} SubseqRefl(s: seq<Tx>)
    ensures IsSubseq(s, s)
  {
    if s != [] {
      SubseqRefl(s[1..]);
    }
  }

  /**
   * The overdue marker of a statement row: a due date is set, the kind is a loan
   * (`lent` or `borrowed`) and `new Date(due) < now`.
   */
  predicate IsOverdue(t: Tx, now: int) {
    t.due.Some? && (t.kind == Lent || t.kind == Borrowed) &&
    JsLess(JsTime(t.due.value), Some(now))
  }

  /** Repayments are settlements, never obligations: they are never marked overdue. */
  lemma RepaymentsNeverOverdue(t: Tx, now: int)
    requires t.kind == RepayToMe || t.kind == RepayByMe || t.kind.Other?
    ensures !IsOverdue(t, now)
  {
  }

  /** The kind label of a statement row; any unknown kind reads as `repay_by_me`. */
  function BadgeLabel(k: TxKind): string {
    if k == Lent then "Lånt til dem"
    else if k == RepayToMe then "Tilbagebetalt til mig"
    else if k == Borrowed then "Jeg har lånt"
    else "Jeg har tilbagebetalt"
  }

  /** The four known kinds have four different labels; every other kind shares the last. */
  lemma BadgeLabels(s: string)
    ensures BadgeLabel(Other(s)) == BadgeLabel(RepayByMe)
    ensures BadgeLabel(Lent) != BadgeLabel(RepayToMe) && BadgeLabel(Lent) != BadgeLabel(Borrowed)
    ensures BadgeLabel(Lent) != BadgeLabel(RepayByMe) && BadgeLabel(RepayToMe) != BadgeLabel(Borrowed)
    ensures BadgeLabel(RepayToMe) != BadgeLabel(RepayByMe) && BadgeLabel(Borrowed) != BadgeLabel(RepayByMe)
  {
  }
}
