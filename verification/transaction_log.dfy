/** The append-only transactions table and the queries the reports run on it. */
module TransactionLog {
  import opened Results
  import opened Assets

  /** The seven transaction types. */
  datatype TxnType = Buy | Sell | Xfer | Cont | ContLimit | Div | Withdraw

  /** A row of the transactions table. Dates are calendar days as ordinals, so that
      comparing them orders the ISO date strings of the file. `xferAccount` is present
      only on transfers; `total` is derived from the other fields (see TotalFor). */
  datatype Record = Record(
    date: int,
    kind: TxnType,
    name: string,
    account: Account,
    xferAccount: Option<Account>,
    units: int,
    unitAmount: real,
    fees: real,
    total: real)

  /** The transactions table, in append order (not necessarily date order). */
  type Log = seq<Record>

  /** The value of `units` units at `amount` each. */
  function Gross(units: int, amount: real): real
  {
    units as real * amount
  }

  /** The monetary effect recorded for a transaction of type `kind`: dividends are net
      of fees, withdrawals ignore fees, every other type adds fees. */
  function TotalFor(kind: TxnType, units: int, amount: real, fees: real): (total: real)
    ensures fees == 0.0 ==> total == Gross(units, amount)
    ensures kind == Withdraw ==> total == Gross(units, amount)
    ensures kind == Div ==> Gross(units, amount) - total == fees
    ensures kind != Div && kind != Withdraw ==> total - Gross(units, amount) == fees
  {
    match kind
    case Div => Gross(units, amount) - fees
    case Withdraw => Gross(units, amount)
    case _ => Gross(units, amount) + fees
  }

  /** Every record's total is the one its type's formula derives from its other fields. */
  ghost predicate TotalsDerived(log: Log)
  {
    forall j :: 0 <= j < |log| ==>
      log[j].total == TotalFor(log[j].kind, log[j].units, log[j].unitAmount, log[j].fees)
  }

  /** A dividend record for the holding of asset `name` in account `a`. */
  predicate IsDividendFor(r: Record, name: string, a: Account)
  {
    r.kind == Div && r.name == name && r.account == a
  }

  /** The position of the most recent dividend record for (`name`, `a`): the latest
      date, and among records of that date the one appended last. */
  function LatestDividend(log: Log, name: string, a: Account): (r: Option<nat>)
    decreases |log|
    ensures r.None? <==> forall j :: 0 <= j < |log| ==> !IsDividendFor(log[j], name, a)
    ensures r.Some? ==> r.value < |log| && IsDividendFor(log[r.value], name, a)
    ensures r.Some? ==> forall j :: 0 <= j < |log| && IsDividendFor(log[j], name, a) ==>
      log[j].date <= log[r.value].date
    ensures r.Some? ==> forall j :: r.value < j < |log| && IsDividendFor(log[j], name, a) ==>
      log[j].date < log[r.value].date
  {
    if |log| == 0 then None
    else
      var earlier := LatestDividend(log[..|log| - 1], name, a);
      var last := log[|log| - 1];
      if IsDividendFor(last, name, a) && (earlier.None? || log[earlier.value].date <= last.date)
      then Some(|log| - 1)
      else earlier
  }
}
