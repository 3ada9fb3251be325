/**
 * The engine's mutable state (`model` and `ui`) and the handlers that change it:
 * adding a person, adding and deleting a transaction, selecting a person, the
 * statement's date filter and the JSON import. The values a handler reads from the
 * form, the fresh `uid()`, `todayISO()` and the answer to a confirmation dialog are
 * parameters.
 */
module LedgerState {
  import opened Wrappers
  import opened Seqs
  import opened Dates
  import opened Text
  import opened Entities
  import opened Balance
  import opened Query
  import Dashboard

  /** Why a handler refused its input; each is a warning dialog in the application. */
  datatype Reason = NameRequired | SelectPersonFirst | AmountNotPositive | InvalidFormat

  datatype Outcome = Done | Rejected(reason: Reason) | Cancelled

  /** A selection `if(!pid)` lets through: set and not the empty string. */
  predicate Selects(sel: Option<Id>) {
    sel.Some? && sel.value != ""
  }

  /** `data.selectedId || null`: the empty id selects nobody. */
  function NormalizeSelection(sel: Option<Id>): (r: Option<Id>)
    ensures Selects(sel) ==> r == sel
    ensures !Selects(sel) ==> r.None?
  {
    if Selects(sel) then sel else None
  }

  /** A JSON value that is an array (its items given) or is something else. */
  datatype Shaped<T> = Array(items: T) | NotArray

  /** A parsed import file: its `people`, `tx` and `selectedId` properties. */
  datatype ImportData = ImportData(people: Shaped<seq<Person>>, tx: Shaped<seq<Tx>>, selectedId: Option<Id>)

  /** The transaction `delTx` removes: the first with the id, if any. */
  function RemovedBy(txs: seq<Tx>, id: Id): (r: Option<Tx>)
    ensures r.None? <==> forall i :: 0 <= i < |txs| ==> txs[i].id != id
    ensures r.Some? ==> r.value.id == id && r.value in txs
    ensures r.Some? ==> exists i :: 0 <= i < |txs| && txs[i] == r.value &&
                          forall j :: 0 <= j < i ==> txs[j].id != id
  {
    var i := IndexWhere(txs, HasTxId(id));
    if i < 0 then None else Some(txs[i])
  }

  /** The ledger after `delTx(id)`: the first transaction with the id taken out. */
  function DeleteTx(txs: seq<Tx>, id: Id): (r: seq<Tx>)
  {
    var i := IndexWhere(txs, HasTxId(id));
    if i < 0 then txs else RemoveAt(txs, i)
  }

  /** What the deleted transaction, if any, contributed to the balance of `pid`. */
  function RemovedShare(txs: seq<Tx>, id: Id, pid: Id): int {
    match RemovedBy(txs, id)
    case None => 0
    case Some(t) => if t.pid == pid then t.signed else 0
  }

  /**
   * Deleting takes out one transaction, the first with the id, and changes no
   * balance but its person's, by minus its `signed` value.
   */
  lemma DeleteTxSpec(txs: seq<Tx>, id: Id)
    ensures RemovedBy(txs, id).None? ==> DeleteTx(txs, id) == txs
    ensures RemovedBy(txs, id).Some? ==>
      |DeleteTx(txs, id)| == |txs| - 1 &&
      multiset(DeleteTx(txs, id)) == multiset(txs) - multiset{RemovedBy(txs, id).value}
    ensures forall pid :: BalanceForPerson(DeleteTx(txs, id), pid) == BalanceForPerson(txs, pid) - RemovedShare(txs, id, pid)
  {
    var i := IndexWhere(txs, HasTxId(id));
    if i >= 0 {
      assert RemovedBy(txs, id) == Some(txs[i]);
      assert DeleteTx(txs, id) == RemoveAt(txs, i);
      forall pid ensures BalanceForPerson(DeleteTx(txs, id), pid) == BalanceForPerson(txs, pid) - RemovedShare(txs, id, pid) {
        BalanceAfterRemove(txs, i, pid);
      }
    } else {
      assert DeleteTx(txs, id) == txs;
      assert forall pid :: RemovedShare(txs, id, pid) == 0;
    }
  }

  /** Taking a transaction out keeps every remaining one consistent. */
  lemma DeleteKeepsConsistent(txs: seq<Tx>, i: nat)
    requires i < |txs|
    ensures All(txs, ConsistentTx) ==> All(RemoveAt(txs, i), ConsistentTx)
  {
    if All(txs, ConsistentTx) {
      RemoveAtKeeps(txs, i, ConsistentTx);
    }
  }

  /** No two transactions share an id, as `uid()` intends. */
  predicate UniqueTxIds(txs: seq<Tx>) {
    forall i, j :: 0 <= i < j < |txs| ==> txs[i].id != txs[j].id
  }

  function NotTxId(id: Id): Tx -> bool {
    (t: Tx) => t.id != id
  }

  /** With unique ids, deleting one id removes every transaction carrying it. */
  lemma DeleteTxRemovesAll(txs: seq<Tx>, id: Id)
    requires UniqueTxIds(txs)
    ensures DeleteTx(txs, id) == Filter(txs, NotTxId(id))
  {
    var i := IndexWhere(txs, HasTxId(id));
    if i < 0 {
      AllKept(txs, NotTxId(id));
    } else {
      RemoveAtIsFilter(txs, i, NotTxId(id));
    }
  }

  /** A person no transaction points to has balance 0, as a new person has. */
  lemma UnusedIdHasZeroBalance(txs: seq<Tx>, id: Id)
    requires forall i :: 0 <= i < |txs| ==> txs[i].pid != id
    ensures BalanceForPerson(txs, id) == 0
  {
    BalanceIsSumOfOwn(txs, id);
    NoPidKept(txs, id);
  }

  lemma {:induction false} NoPidKept(txs: seq<Tx>, id: Id)
    requires forall i :: 0 <= i < |txs| ==> txs[i].pid != id
    ensures Filter(txs, HasPid(id)) == []
  {
    if txs != [] {
      NoPidKept(txs[1..], id);
    }
  }

  /** `model` and `ui` held together. */
  class Ledger {
    var people: seq<Person>
    var tx: seq<Tx>
    var selectedId: Option<Id>
    var from: Option<Date>
    var to: Option<Date>

    /** Every transaction holds a positive amount and the `signed` value its kind gives. */
    ghost predicate Consistent()
      reads this
    {
      All(tx, ConsistentTx)
    }

    /** `{ people:[], tx:[], selectedId:null }` and `{ from:'', to:'' }`, with nothing stored. */
    constructor ()
      ensures people == [] && tx == [] && selectedId == None
      ensures from == None && to == None
      ensures Consistent()
    {
      people := [];
      tx := [];
      selectedId := None;
      from := None;
      to := None;
    }

    /** The rows the statement shows for the current selection and filter. */
    function Statement(): seq<Tx>
      reads this
    {
      StatementRows(people, tx, selectedId, from, to)
    }

    /**
     * On a consistent ledger, which every handler but the import keeps so, the
     * dashboard's totals by kind give back the summary's net.
     */
    lemma KindTotalsGiveNet()
      requires Consistent()
      ensures var r := Dashboard.ByType(tx).1; r[0] - r[1] - r[2] + r[3] == Summary(tx).net
    {
      forall i | 0 <= i < |tx| ensures tx[i].signed == SignedAmount(tx[i].kind, tx[i].amount) {
        assert ConsistentTx(tx[i]);
      }
      Dashboard.ByTypeGivesNet(tx);
    }

    /**
     * `addPerson()`: a name that trims to nothing is refused; otherwise the person,
     * with trimmed fields and `today` as creation date, is appended and selected.
     */
    method AddPerson(name: string, contact: string, note: string, freshId: Id, today: Date)
        returns (outcome: Outcome)
      modifies this
      ensures Trim(name) == "" ==> outcome == Rejected(NameRequired) && unchanged(this)
      ensures Trim(name) != "" ==>
        && outcome == Done
        && people == old(people) + [Person(freshId, Trim(name), Trim(contact), Trim(note), today)]
        && selectedId == Some(freshId)
        && tx == old(tx) && from == old(from) && to == old(to)
      ensures PersonById(people, selectedId).Some? ==> PersonById(people, selectedId).value.id == selectedId.value
      ensures outcome == Done ==> PersonById(people, selectedId).Some?
      ensures old(Consistent()) ==> Consistent()
    {
      var n := Trim(name);
      if n == "" {
        return Rejected(NameRequired);
      }
      var p := Person(freshId, n, Trim(contact), Trim(note), today);
      people := people + [p];
      selectedId := Some(freshId);
      assert people[|people| - 1].id == freshId;
      outcome := Done;
    }

    /**
     * The click on a person in the list: that person becomes the selection and the
     * statement shows the first person with that id.
     */
    method SelectPerson(i: nat)
      requires i < |people|
      modifies this
      ensures selectedId == Some(old(people)[i].id)
      ensures people == old(people) && tx == old(tx) && from == old(from) && to == old(to)
      ensures PersonById(people, selectedId).Some? && PersonById(people, selectedId).value.id == people[i].id
    {
      selectedId := Some(people[i].id);
    }

    /**
     * `addTx()`: refused without a selection, then refused unless the amount is a
     * number above 0; otherwise a transaction for the selected id is appended, with
     * the `signed` value its kind gives, today's date when none is entered and a
     * trimmed note. Only the selected person's balance changes.
     */
    method AddTx(kindName: string, amount: Option<int>, date: Option<Date>, due: Option<Date>,
                 note: string, freshId: Id, today: Date)
        returns (outcome: Outcome)
      modifies this
      ensures !Selects(old(selectedId)) ==> outcome == Rejected(SelectPersonFirst) && unchanged(this)
      ensures Selects(old(selectedId)) && (amount.None? || amount.value <= 0) ==>
        outcome == Rejected(AmountNotPositive) && unchanged(this)
      ensures Selects(old(selectedId)) && amount.Some? && amount.value > 0 ==>
        var kind := ParseKind(kindName);
        && outcome == Done
        && tx == old(tx) + [Tx(freshId, old(selectedId).value, kind, amount.value,
                                SignedAmount(kind, amount.value), Some(date.GetOr(today)), due, Trim(note))]
        && people == old(people) && selectedId == old(selectedId) && from == old(from) && to == old(to)
        && (forall id :: BalanceForPerson(tx, id) == BalanceForPerson(old(tx), id) +
                           (if id == selectedId.value then SignedAmount(kind, amount.value) else 0))
      ensures old(Consistent()) ==> Consistent()
    {
      if !Selects(selectedId) {
        return Rejected(SelectPersonFirst);
      }
      if amount.None? || amount.value <= 0 {
        return Rejected(AmountNotPositive);
      }
      var pid := selectedId.value;
      var kind := ParseKind(kindName);
      var t := Tx(freshId, pid, kind, amount.value, SignedAmount(kind, amount.value),
                  Some(date.GetOr(today)), due, Trim(note));
      forall id ensures BalanceForPerson(tx + [t], id) == BalanceForPerson(tx, id) + (if id == pid then t.signed else 0) {
        BalanceAfterAppend(tx, t, id);
      }
      if All(tx, ConsistentTx) {
        AppendKeeps(tx, t, ConsistentTx);
      }
      tx := tx + [t];
      outcome := Done;
    }

    /**
     * `delTx(id)`: nothing happens when no transaction has the id or the
     * confirmation is declined; otherwise the first such transaction is taken out.
     */
    method DelTx(id: Id, confirmed: bool)
      modifies this`tx
      ensures tx == (if confirmed then DeleteTx(old(tx), id) else old(tx))
      ensures people == old(people) && selectedId == old(selectedId) && from == old(from) && to == old(to)
      ensures old(Consistent()) ==> Consistent()
    {
      var idx := IndexWhere(tx, HasTxId(id));
      if idx < 0 {
        return;
      }
      if confirmed {
        var rest := RemoveAt(tx, idx);
        DeleteKeepsConsistent(tx, idx);
        tx := rest;
      }
    }

    /** The filter's apply button: the two date fields, an empty field meaning no bound. */
    method SetFilter(newFrom: Option<Date>, newTo: Option<Date>)
      modifies this
      ensures from == newFrom && to == newTo
      ensures people == old(people) && tx == old(tx) && selectedId == old(selectedId)
    {
      from := newFrom;
      to := newTo;
    }

    /** The filter's clear button: both bounds removed, every row shown again. */
    method ClearFilter()
      modifies this
      ensures from == None && to == None
      ensures people == old(people) && tx == old(tx) && selectedId == old(selectedId)
      ensures Statement() == (match PersonById(people, selectedId)
                              case None => []
                              case Some(p) => TxForPerson(tx, p.id))
    {
      from := None;
      to := None;
    }

    /**
     * The JSON import: `data` is the parsed file, none when it does not parse or is
     * falsy. Without both arrays it is refused; a declined confirmation changes
     * nothing; otherwise the ledger is replaced wholesale, the filter kept.
     */
    method Import(data: Option<ImportData>, confirmed: bool) returns (outcome: Outcome)
      modifies this
      ensures data.None? || data.value.people.NotArray? || data.value.tx.NotArray? ==>
        outcome == Rejected(InvalidFormat) && unchanged(this)
      ensures data.Some? && data.value.people.Array? && data.value.tx.Array? && !confirmed ==>
        outcome == Cancelled && unchanged(this)
      ensures data.Some? && data.value.people.Array? && data.value.tx.Array? && confirmed ==>
        && outcome == Done
        && people == data.value.people.items && tx == data.value.tx.items
        && selectedId == NormalizeSelection(data.value.selectedId)
        && from == old(from) && to == old(to)
    {
      if data.None? || data.value.people.NotArray? || data.value.tx.NotArray? {
        return Rejected(InvalidFormat);
      }
      if !confirmed {
        return Cancelled;
      }
      people := data.value.people.items;
      tx := data.value.tx.items;
      selectedId := NormalizeSelection(data.value.selectedId);
      outcome := Done;
    }
  }
}
