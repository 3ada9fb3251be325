/** The records the ledger holds: persons, transactions and transaction kinds. */
module Entities {
  import opened Wrappers
  import opened Dates

  /** Identifiers made by `uid()`; opaque text. */
  type Id = string

  /**
   * The `type` field of a transaction. The form offers four values; data read back
   * from storage or an import may hold any other text, kept as `Other`.
   */
  datatype TxKind = Lent | RepayToMe | Borrowed | RepayByMe | Other(name: string)

  /** The text stored in the `type` field. */
  function KindName(k: TxKind): string {
    match k
    case Lent => "lent"
    case RepayToMe => "repay_to_me"
    case Borrowed => "borrowed"
    case RepayByMe => "repay_by_me"
    case Other(s) => s
  }

  predicate IsKnownKindName(s: string) {
    s == "lent" || s == "repay_to_me" || s == "borrowed" || s == "repay_by_me"
  }

  /** `Other` is only ever used for text that is none of the four kinds. */
  predicate CanonicalKind(k: TxKind) {
    k.Other? ==> !IsKnownKindName(k.name)
  }

  /** The kind a stored `type` text stands for. */
  function ParseKind(s: string): (k: TxKind)
    ensures CanonicalKind(k)
    ensures KindName(k) == s
  {
    match s
    case "lent" => Lent
    case "repay_to_me" => RepayToMe
    case "borrowed" => Borrowed
    case "repay_by_me" => RepayByMe
    case _ => Other(s)
  }

  /** Reading back the stored text of a kind gives the same kind. */
  lemma ParseKindName(k: TxKind)
    requires CanonicalKind(k)
    ensures ParseKind(KindName(k)) == k
  {
  }

  /** A person record: `{ id, name, contact, note, created }`. */
  datatype Person = Person(id: Id, name: string, contact: string, note: string, created: Date)

  /**
   * A transaction record: `{ id, pid, type, amount, signed, date, due, note }`.
   * Amounts are whole minor units (øre); a missing `date` or `due` (`''`) is `None`.
   */
  datatype Tx = Tx(id: Id, pid: Id, kind: TxKind, amount: int, signed: int,
                   date: Option<Date>, due: Option<Date>, note: string)

  function SignedOf(t: Tx): int { t.signed }

  function AbsSignedOf(t: Tx): int { if t.signed < 0 then -t.signed else t.signed }

  function AbsAmountOf(t: Tx): int { if t.amount < 0 then -t.amount else t.amount }

  /** `t => t.pid === id`. */
  function HasPid(id: Id): Tx -> bool {
    (t: Tx) => t.pid == id
  }

  /** `t => t.id === id`. */
  function HasTxId(id: Id): Tx -> bool {
    (t: Tx) => t.id == id
  }

  /** `p => p.id === id`. */
  function HasPersonId(id: Id): Person -> bool {
    (p: Person) => p.id == id
  }
}
