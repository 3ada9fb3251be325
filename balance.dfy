/** The sign convention of transactions and the totals of the summary panel. */
module Balance {
  import opened Seqs
  import opened Entities

  function Abs(x: int): nat { if x < 0 then -x else x }

  /**
   * `signedAmount(type, amount)`: the magnitude of `amount` with the sign of its kind.
   * Money that leaves me as a loan or as a repayment of my debt (`lent`,
   * `repay_by_me`) counts positive, money that comes back to me or that I borrow
   * (`repay_to_me`, `borrowed`) negative, and any other `type` text counts 0.
   */
  function SignedAmount(kind: TxKind, amount: int): (r: int)
    ensures kind.Other? ==> r == 0
    ensures !kind.Other? ==> Abs(r) == Abs(amount)
    ensures (kind == Lent || kind == RepayByMe) ==> r >= 0
    ensures (kind == RepayToMe || kind == Borrowed) ==> r <= 0
  {
    var a: int := Abs(amount);
    match kind
    case Lent => a
    case RepayToMe => -a
    case Borrowed => -a
    case RepayByMe => a
    case Other(_) => 0
  }

  /** A loan repaid in full, and a debt paid back in full, leave the balance where it was. */
  lemma SettlementCancels(amount: int)
    ensures SignedAmount(Lent, amount) + SignedAmount(RepayToMe, amount) == 0
    ensures SignedAmount(Borrowed, amount) + SignedAmount(RepayByMe, amount) == 0
  {
  }

  /** The absolute value is taken first: a pre-signed amount gives the same result. */
  lemma SignedAmountIgnoresInputSign(kind: TxKind, amount: int)
    ensures SignedAmount(kind, -amount) == SignedAmount(kind, amount)
  {
  }

  /** The stored `signed` field agrees with the kind and amount, as `addTx` writes it. */
  predicate ConsistentTx(t: Tx) {
    t.amount > 0 && t.signed == SignedAmount(t.kind, t.amount)
  }

  /** `t => t.signed > 0`. */
  function IsCredit(): Tx -> bool { (t: Tx) => t.signed > 0 }

  /** `t => t.signed < 0`. */
  function IsDebit(): Tx -> bool { (t: Tx) => t.signed < 0 }

  function IsNonZero(): Tx -> bool { (t: Tx) => t.signed != 0 }

  /** The three figures of `renderSummary`. */
  datatype Totals = Totals(pos: int, neg: int, net: int)

  /**
   * `renderSummary`'s arithmetic: what others owe me (the positive `signed` values),
   * what I owe (the negative ones, kept negative) and the net of all.
   */
  function Summary(txs: seq<Tx>): (s: Totals)
    ensures s.pos >= 0 && s.neg <= 0
    ensures s.net == s.pos + s.neg
    ensures s.net == SumOf(txs, SignedOf)
  {
    var pos := Filter(txs, IsCredit());
    var neg := Filter(txs, IsDebit());
    SumOfNonNegative(pos, SignedOf);
    SumOfNonPositive(neg, SignedOf);
    SumOfFilterZeros(txs, IsNonZero(), SignedOf);
    FilterSplit(txs, IsNonZero(), IsCredit(), IsDebit(), SignedOf);
    Totals(SumOf(pos, SignedOf), SumOf(neg, SignedOf), SumOf(txs, SignedOf))
  }
}
