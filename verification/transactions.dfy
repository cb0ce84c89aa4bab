/** Validating and applying one transaction to the ledger and the transactions table.
    Every check comes before any change: a refused transaction returns an error and no
    new state, so the caller keeps the ledger and the log it had. */
module Transactions {
  import opened Results
  import opened Assets
  import opened TransactionLog

  /** A transaction request as the command line delivers it: `name` is an asset name,
      or "cash" (contributions, withdrawals) or "any" (contribution limits). */
  datatype Txn = Txn(
    kind: TxnType,
    account: Account,
    xferAccount: Option<Account>,
    name: string,
    units: int,
    amount: real,
    date: int,
    fees: real)

  /** Why a transaction was refused. */
  datatype Error =
    | UnknownAsset(name: string)
    | InsufficientUnits(requested: int, available: int, account: Account)
    | MissingTransferTarget
    | InvalidContributionSubject(kind: TxnType, name: string)
    | InvalidAmount(amount: real)

  /** The state a transaction works on: the assets table and the transactions table. */
  datatype Book = Book(ledger: Ledger, log: Log)

  /** The record appended for `t`, with the transfer target it carries and its total. */
  function Entry(t: Txn, target: Option<Account>, total: real): Record
  {
    Record(t.date, t.kind, t.name, t.account, target, t.units, t.amount, t.fees, total)
  }

  /** Buy or sell: add or remove units of one asset in one account. A sell that would
      leave a negative count is refused; a buy is never refused for its unit count. */
  function BuySell(b: Book, t: Txn): (r: Result<Book, Error>)
    requires t.kind == Buy || t.kind == Sell
    ensures IndexOf(b.ledger, t.name).None? ==> r == Err(UnknownAsset(t.name))
    ensures IndexOf(b.ledger, t.name).Some? ==>
      var i := IndexOf(b.ledger, t.name).value;
      var held := b.ledger[i].units.Get(t.account);
      if t.kind == Sell && held < t.units then
        r == Err(InsufficientUnits(t.units, held, t.account))
      else
        && r.Ok?
        && UnitsFrame(b.ledger, r.value.ledger, i, {t.account})
        && r.value.ledger[i].units.Get(t.account) == (if t.kind == Buy then held + t.units else held - t.units)
    ensures r.Ok? ==> r.value.log == b.log + [Entry(t, None, Gross(t.units, t.amount) + t.fees)]
  {
    match IndexOf(b.ledger, t.name)
    case None => Err(UnknownAsset(t.name))
    case Some(i) =>
      var held := b.ledger[i].units.Get(t.account);
      var updated := if t.kind == Buy then held + t.units else held - t.units;
      if t.kind == Sell && updated < 0 then Err(InsufficientUnits(t.units, held, t.account))
      else
        var total := Gross(t.units, t.amount) + t.fees;
        Ok(Book(SetUnits(b.ledger, i, t.account, updated), b.log + [Entry(t, None, total)]))
  }

  /** Dividend: record income and make the asset's stored income per unit equal to the
      paid amount; holdings are untouched. */
  function Dividend(b: Book, t: Txn): (r: Result<Book, Error>)
    requires t.kind == Div
    ensures IndexOf(b.ledger, t.name).None? ==> r == Err(UnknownAsset(t.name))
    ensures IndexOf(b.ledger, t.name).Some? ==>
      var i := IndexOf(b.ledger, t.name).value;
      && r.Ok?
      && |r.value.ledger| == |b.ledger|
      && (forall j :: 0 <= j < |b.ledger| && j != i ==> r.value.ledger[j] == b.ledger[j])
      && r.value.ledger[i] == b.ledger[i].(incomePerUnit := t.amount)
      && r.value.log == b.log + [Entry(t, None, Gross(t.units, t.amount) - t.fees)]
  {
    match IndexOf(b.ledger, t.name)
    case None => Err(UnknownAsset(t.name))
    case Some(i) =>
      var ledger := if b.ledger[i].incomePerUnit != t.amount then SetRate(b.ledger, i, t.amount) else b.ledger;
      var total := Gross(t.units, t.amount) - t.fees;
      Ok(Book(ledger, b.log + [Entry(t, None, total)]))
  }

  /** Transfer units of one asset from `account` to `xferAccount`. The source never
      checks that the two accounts differ: when they are equal the target write comes
      last and the holding grows by `units`. */
  function Transfer(b: Book, t: Txn): (r: Result<Book, Error>)
    requires t.kind == Xfer
    ensures t.xferAccount.None? ==> r == Err(MissingTransferTarget)
    ensures t.xferAccount.Some? && IndexOf(b.ledger, t.name).None? ==> r == Err(UnknownAsset(t.name))
    ensures t.xferAccount.Some? && IndexOf(b.ledger, t.name).Some? ==>
      var i := IndexOf(b.ledger, t.name).value;
      var target := t.xferAccount.value;
      var held := b.ledger[i].units.Get(t.account);
      var heldTarget := b.ledger[i].units.Get(target);
      if held < t.units then
        r == Err(InsufficientUnits(t.units, held, t.account))
      else
        && r.Ok?
        && UnitsFrame(b.ledger, r.value.ledger, i, {t.account, target})
        && r.value.ledger[i].units.Get(target) == heldTarget + t.units
        && (target != t.account ==> r.value.ledger[i].units.Get(t.account) == held - t.units)
        && r.value.log == b.log + [Entry(t, t.xferAccount, Gross(t.units, t.amount) + t.fees)]
  {
    match t.xferAccount
    case None => Err(MissingTransferTarget)
    case Some(target) =>
      match IndexOf(b.ledger, t.name)
      case None => Err(UnknownAsset(t.name))
      case Some(i) =>
        var held := b.ledger[i].units.Get(t.account);
        var heldTarget := b.ledger[i].units.Get(target);
        var updated := held - t.units;
        if updated < 0 then Err(InsufficientUnits(t.units, held, t.account))
        else
          var afterSource := SetUnits(b.ledger, i, t.account, updated);
          var afterTarget := SetUnits(afterSource, i, target, heldTarget + t.units);
          var total := Gross(t.units, t.amount) + t.fees;
          Ok(Book(afterTarget, b.log + [Entry(t, t.xferAccount, total)]))
  }

  /** Contribution or contribution limit: a cash-only event recorded in the log. The
      amount check comes first and admits zero; a contribution must name "cash", a
      limit must name "any". */
  function Contribute(b: Book, t: Txn): (r: Result<Book, Error>)
    requires t.kind == Cont || t.kind == ContLimit
    ensures t.amount < 0.0 ==> r == Err(InvalidAmount(t.amount))
    ensures t.amount >= 0.0 && t.kind == Cont && t.name != "cash" ==>
      r == Err(InvalidContributionSubject(Cont, t.name))
    ensures t.amount >= 0.0 && t.kind == ContLimit && t.name != "any" ==>
      r == Err(InvalidContributionSubject(ContLimit, t.name))
    ensures r.Ok? <==> t.amount >= 0.0 && t.name == (if t.kind == Cont then "cash" else "any")
    ensures r.Ok? ==> r.value.ledger == b.ledger
    ensures r.Ok? ==> r.value.log == b.log + [Entry(t, None, Gross(t.units, t.amount) + t.fees)]
  {
    if t.amount < 0.0 then Err(InvalidAmount(t.amount))
    else if t.kind == Cont && t.name != "cash" then Err(InvalidContributionSubject(Cont, t.name))
    else if t.kind == ContLimit && t.name != "any" then Err(InvalidContributionSubject(ContLimit, t.name))
    else Ok(Book(b.ledger, b.log + [Entry(t, None, Gross(t.units, t.amount) + t.fees)]))
  }

  /** Withdrawal: a cash-only event recorded in the log; the amount must be positive
      and the fees are not part of the total. */
  function Withdrawal(b: Book, t: Txn): (r: Result<Book, Error>)
    requires t.kind == Withdraw
    ensures t.amount <= 0.0 ==> r == Err(InvalidAmount(t.amount))
    ensures t.amount > 0.0 && t.name != "cash" ==> r == Err(InvalidContributionSubject(Withdraw, t.name))
    ensures r.Ok? <==> t.amount > 0.0 && t.name == "cash"
    ensures r.Ok? ==> r.value.ledger == b.ledger
    ensures r.Ok? ==> r.value.log == b.log + [Entry(t, None, Gross(t.units, t.amount))]
  {
    if t.amount <= 0.0 then Err(InvalidAmount(t.amount))
    else if t.name != "cash" then Err(InvalidContributionSubject(Withdraw, t.name))
    else Ok(Book(b.ledger, b.log + [Entry(t, None, Gross(t.units, t.amount))]))
  }

  /** The record a successful transaction appends: transfers keep their target, every
      other type writes an empty target; the total follows the type's formula. */
  function RecordOf(t: Txn): Record
  {
    Entry(t, if t.kind == Xfer then t.xferAccount else None, TotalFor(t.kind, t.units, t.amount, t.fees))
  }

  /** Dispatch a transaction to the handler for its type. */
  function Process(b: Book, t: Txn): (r: Result<Book, Error>)
    ensures r.Ok? ==> r.value.log == b.log + [RecordOf(t)]
    ensures r.Ok? ==> |r.value.ledger| == |b.ledger|
    ensures r.Ok? ==> forall j :: 0 <= j < |b.ledger| ==> r.value.ledger[j].name == b.ledger[j].name
    ensures r.Ok? && t.kind in {Cont, ContLimit, Withdraw} ==> r.value.ledger == b.ledger
    ensures r.Err? && t.kind in {Buy, Sell, Div} ==>
      r.error.UnknownAsset? || r.error.InsufficientUnits?
  {
    match t.kind
    case Buy | Sell => BuySell(b, t)
    case Xfer => Transfer(b, t)
    case Cont | ContLimit => Contribute(b, t)
    case Div => Dividend(b, t)
    case Withdraw => Withdrawal(b, t)
  }

  /** The state after a transaction command: the new state if it applied, the old one
      unchanged if it was refused (the interactive loop then accepts the next command). */
  function Step(b: Book, t: Txn): Book
  {
    match Process(b, t)
    case Ok(b') => b'
    case Err(_) => b
  }

  /** The state after a sequence of transaction commands, in order. */
  function Run(b: Book, ts: seq<Txn>): Book
    decreases |ts|
  {
    if |ts| == 0 then b else Step(Run(b, ts[..|ts| - 1]), ts[|ts| - 1])
  }
}
