/** Properties of applying transactions: what a successful transaction appends, what
    it leaves untouched, what it conserves, and the net effect of a run of commands. */
module TransactionProperties {
  import opened Results
  import opened Assets
  import opened TransactionLog
  import opened Transactions

  /** A command either applies, appending exactly its own record and keeping every
      asset row's name, or is refused and leaves the whole state as it was. */
  lemma StepAppliesOrKeeps(b: Book, t: Txn)
    ensures Process(b, t).Err? ==> Step(b, t) == b
    ensures Process(b, t).Ok? ==> Step(b, t).log == b.log + [RecordOf(t)]
    ensures |Step(b, t).ledger| == |b.ledger|
    ensures forall j :: 0 <= j < |b.ledger| ==> Step(b, t).ledger[j].name == b.ledger[j].name
  {
  }

  /** If every total in the log is derived from its record, that stays so after any
      transaction command. */
  lemma StepKeepsTotalsDerived(b: Book, t: Txn)
    requires TotalsDerived(b.log)
    ensures TotalsDerived(Step(b, t).log)
  {
  }

  /** A transaction with a non-negative unit count never drives a holding below zero:
      sells and transfers are checked, buys only add. */
  lemma StepKeepsNonNegative(b: Book, t: Txn)
    requires NonNegative(b.ledger)
    requires t.units >= 0
    ensures NonNegative(Step(b, t).ledger)
  {
    if Process(b, t).Ok? {
      if t.kind in {Buy, Sell, Xfer} {
        MoveKeepsNonNegative(b, t);
      } else if t.kind == Div {
        RateChangeKeepsNonNegative(b, t);
      }
    }
  }

  /** A successful buy, sell or transfer of a non-negative unit count keeps every
      holding at or above zero. */
  lemma MoveKeepsNonNegative(b: Book, t: Txn)
    requires NonNegative(b.ledger) && t.units >= 0
    requires t.kind in {Buy, Sell, Xfer} && Process(b, t).Ok?
    ensures NonNegative(Process(b, t).value.ledger)
  {
    var L, L' := b.ledger, Process(b, t).value.ledger;
    var i := IndexOf(L, t.name).value;
    forall j, a | 0 <= j < |L'| ensures L'[j].units.Get(a) >= 0 {
      if j != i {
        assert L'[j] == L[j];
      }
    }
  }

  /** A successful dividend keeps every holding as it was. */
  lemma RateChangeKeepsNonNegative(b: Book, t: Txn)
    requires NonNegative(b.ledger)
    requires t.kind == Div && Process(b, t).Ok?
    ensures NonNegative(Process(b, t).value.ledger)
  {
    var L, L' := b.ledger, Process(b, t).value.ledger;
    var i := IndexOf(L, t.name).value;
    forall j, a | 0 <= j < |L'| ensures L'[j].units.Get(a) >= 0 {
      if j != i {
        assert L'[j] == L[j];
      } else {
        assert L'[i].units == L[i].units;
      }
    }
  }

  /** The source accepts a buy with a negative unit count, which drives a holding of
      zero below zero: non-negativity relies on the caller's unit counts. */
  lemma BuyNegativeUnitsAccepted()
    ensures
      var a := Asset("TD", "TSX", "stock", "bank", 1.0, PerAccount(0, 0, 0, 0, 0), 3, 1, 31);
      var t := Txn(Buy, Margin, None, "TD", -5, 80.0, 20240102, 0.0);
      var r := Process(Book([a], []), t);
      r.Ok? && Balance(r.value.ledger, "TD", Margin) == Some(-5) && !NonNegative(r.value.ledger)
  {
    var a := Asset("TD", "TSX", "stock", "bank", 1.0, PerAccount(0, 0, 0, 0, 0), 3, 1, 31);
    var t := Txn(Buy, Margin, None, "TD", -5, 80.0, 20240102, 0.0);
    assert IndexOf([a], "TD") == Some(0);
  }

  /** Buy and sell change exactly the (asset, account) balance they name, by the
      transaction's units; every other balance is unchanged. */
  lemma BuySellChangesOneBalance(b: Book, t: Txn)
    requires t.kind == Buy || t.kind == Sell
    requires Process(b, t).Ok?
    ensures Balance(b.ledger, t.name, t.account).Some?
    ensures Balance(Process(b, t).value.ledger, t.name, t.account) ==
      Some(Balance(b.ledger, t.name, t.account).value + (if t.kind == Buy then t.units else -t.units))
    ensures forall n, a :: (n, a) != (t.name, t.account) ==>
      Balance(Process(b, t).value.ledger, n, a) == Balance(b.ledger, n, a)
  {
    var i := IndexOf(b.ledger, t.name).value;
    UnitsFrameBalances(b.ledger, Process(b, t).value.ledger, i, {t.account});
  }

  /** A sell of more units than the account holds is refused with the requested and
      available counts, and the state is left as it was. */
  lemma SellBeyondHoldingRefused(b: Book, t: Txn, held: int)
    requires t.kind == Sell
    requires Balance(b.ledger, t.name, t.account) == Some(held)
    requires held < t.units
    ensures Process(b, t) == Err(InsufficientUnits(t.units, held, t.account))
    ensures Step(b, t) == b
  {
  }

  /** The units of one asset summed over the five accounts. */
  function HoldingTotal(p: PerAccount<int>): int
  {
    p.sdrsp + p.lockedSdrsp + p.margin + p.tfsa + p.resp
  }

  /** A transfer between two different accounts conserves the units of the asset: the
      source loses what the target gains, the asset's total over all accounts is kept,
      and every other balance is unchanged. */
  lemma TransferConservesUnits(b: Book, t: Txn)
    requires t.kind == Xfer
    requires t.xferAccount.Some? && t.xferAccount.value != t.account
    requires Process(b, t).Ok?
    ensures
      var L, L' := b.ledger, Process(b, t).value.ledger;
      var target := t.xferAccount.value;
      && Balance(L, t.name, t.account).Some?
      && Balance(L', t.name, t.account).value == Balance(L, t.name, t.account).value - t.units
      && Balance(L', t.name, target).value == Balance(L, t.name, target).value + t.units
      && Balance(L', t.name, t.account).value + Balance(L', t.name, target).value
         == Balance(L, t.name, t.account).value + Balance(L, t.name, target).value
      && HoldingTotal(L'[IndexOf(L, t.name).value].units) == HoldingTotal(L[IndexOf(L, t.name).value].units)
      && (forall n, a :: n != t.name || (a != t.account && a != target) ==> Balance(L', n, a) == Balance(L, n, a))
  {
    var L, L' := b.ledger, Process(b, t).value.ledger;
    var i := IndexOf(L, t.name).value;
    var target := t.xferAccount.value;
    UnitsFrameBalances(L, L', i, {t.account, target});
    var p, p' := L[i].units, L'[i].units;
    assert forall a :: a != t.account && a != target ==> p'.Get(a) == p.Get(a);
    assert p'.Get(t.account) == p.Get(t.account) - t.units;
    assert p'.Get(target) == p.Get(target) + t.units;
    assert HoldingTotal(p') == HoldingTotal(p) by {
      assert HoldingTotal(p) == p.Get(Sdrsp) + p.Get(LockedSdrsp) + p.Get(Margin) + p.Get(Tfsa) + p.Get(Resp);
      assert HoldingTotal(p') == p'.Get(Sdrsp) + p'.Get(LockedSdrsp) + p'.Get(Margin) + p'.Get(Tfsa) + p'.Get(Resp);
    }
  }

  /** A transfer whose target is its own source account is accepted whenever the
      account holds enough units, and then grows that holding by the units. */
  lemma TransferToSameAccountGrows(b: Book, t: Txn, held: int)
    requires t.kind == Xfer && t.xferAccount == Some(t.account)
    requires Balance(b.ledger, t.name, t.account) == Some(held)
    requires t.units <= held
    ensures Process(b, t).Ok?
    ensures Balance(Process(b, t).value.ledger, t.name, t.account) == Some(held + t.units)
  {
    var i := IndexOf(b.ledger, t.name).value;
    UnitsFrameBalances(b.ledger, Process(b, t).value.ledger, i, {t.account});
  }

  /** A dividend changes no holding; afterwards the asset's income per unit is the
      paid amount and every other asset keeps its row. */
  lemma DividendKeepsHoldings(b: Book, t: Txn)
    requires t.kind == Div
    requires Process(b, t).Ok?
    ensures
      var L, L' := b.ledger, Process(b, t).value.ledger;
      && (forall n, a :: Balance(L', n, a) == Balance(L, n, a))
      && L'[IndexOf(L, t.name).value].incomePerUnit == t.amount
      && (forall j :: 0 <= j < |L| && L[j].name != t.name ==> L'[j] == L[j])
  {
    var L, L' := b.ledger, Process(b, t).value.ledger;
    var i := IndexOf(L, t.name).value;
    assert forall j :: 0 <= j < |L| ==> L'[j].name == L[j].name && L'[j].units == L[j].units;
    SameNamesSameIndex(L, L');
  }

  /** The log after a run of commands extends the log before it by at most one record
      per command, and the ledger keeps its rows and their names. */
  lemma {:induction false} RunAppendOnly(b: Book, ts: seq<Txn>)
    ensures |b.log| <= |Run(b, ts).log| <= |b.log| + |ts|
    ensures Run(b, ts).log[..|b.log|] == b.log
    ensures |Run(b, ts).ledger| == |b.ledger|
    ensures forall j :: 0 <= j < |b.ledger| ==> Run(b, ts).ledger[j].name == b.ledger[j].name
    decreases |ts|
  {
    if |ts| > 0 {
      var mid := Run(b, ts[..|ts| - 1]);
      RunAppendOnly(b, ts[..|ts| - 1]);
      var fin := Run(b, ts);
      assert fin == Step(mid, ts[|ts| - 1]);
      if Process(mid, ts[|ts| - 1]).Ok? {
        assert fin.log[..|mid.log|] == mid.log;
        assert fin.log[..|b.log|] == mid.log[..|b.log|];
      }
    }
  }

  /** Non-negative holdings and derived totals hold after any run of commands whose
      unit counts are non-negative. */
  lemma {:induction false} RunKeepsInvariants(b: Book, ts: seq<Txn>)
    requires NonNegative(b.ledger) && TotalsDerived(b.log)
    requires forall k :: 0 <= k < |ts| ==> ts[k].units >= 0
    ensures NonNegative(Run(b, ts).ledger) && TotalsDerived(Run(b, ts).log)
    decreases |ts|
  {
    if |ts| > 0 {
      var mid := Run(b, ts[..|ts| - 1]);
      RunKeepsInvariants(b, ts[..|ts| - 1]);
      StepKeepsNonNegative(mid, ts[|ts| - 1]);
      StepKeepsTotalsDerived(mid, ts[|ts| - 1]);
    }
  }

  /** Every command of `ts` is a buy or a sell of asset `name` in account `a`. */
  predicate OnHolding(ts: seq<Txn>, name: string, a: Account)
  {
    forall k :: 0 <= k < |ts| ==> (ts[k].kind == Buy || ts[k].kind == Sell) && ts[k].name == name && ts[k].account == a
  }

  /** The balance a single holding reaches from `start` under buys and sells, a sell
      that would overdraw it being skipped: the reference for a run of commands. */
  function Settle(start: int, ts: seq<Txn>): int
    decreases |ts|
  {
    if |ts| == 0 then start
    else
      var before := Settle(start, ts[..|ts| - 1]);
      var t := ts[|ts| - 1];
      if t.kind == Buy then before + t.units
      else if before < t.units then before
      else before - t.units
  }

  /** Buys minus sells. */
  function NetUnits(ts: seq<Txn>): int
    decreases |ts|
  {
    if |ts| == 0 then 0
    else NetUnits(ts[..|ts| - 1]) + (if ts[|ts| - 1].kind == Buy then ts[|ts| - 1].units else -ts[|ts| - 1].units)
  }

  /** One buy or sell command on a holding of `held` units: a buy adds its units, a
      sell either removes its units or, if it would overdraw the holding, is refused. */
  lemma StepOnHolding(b: Book, t: Txn, name: string, a: Account, held: int)
    requires Balance(b.ledger, name, a) == Some(held)
    requires OnHolding([t], name, a)
    ensures Balance(Step(b, t).ledger, name, a) ==
      Some(if t.kind == Buy then held + t.units else if held < t.units then held else held - t.units)
    ensures |Step(b, t).log| == |b.log| + (if t.kind == Sell && held < t.units then 0 else 1)
  {
    assert t == [t][0];
    if Process(b, t).Ok? {
      BuySellChangesOneBalance(b, t);
    }
  }

  /** Running buy and sell commands on one holding leaves it at the reference balance:
      a sell that would overdraw the holding is skipped, every other command moves it. */
  lemma {:induction false} RunBuySellSettles(b: Book, ts: seq<Txn>, name: string, a: Account, start: int)
    requires Balance(b.ledger, name, a) == Some(start)
    requires OnHolding(ts, name, a)
    ensures Balance(Run(b, ts).ledger, name, a) == Some(Settle(start, ts))
    decreases |ts|
  {
    if |ts| > 0 {
      var init, t := ts[..|ts| - 1], ts[|ts| - 1];
      var mid, held := Run(b, init), Settle(start, init);
      assert Balance(mid.ledger, name, a) == Some(held) by {
        assert OnHolding(init, name, a);
        RunBuySellSettles(b, init, name, a, start);
      }
      assert Balance(Step(mid, t).ledger, name, a) ==
        Some(if t.kind == Buy then held + t.units else if held < t.units then held else held - t.units) by {
        assert OnHolding([t], name, a);
        StepOnHolding(mid, t, name, a, held);
      }
      assert Settle(start, ts) ==
        (if t.kind == Buy then held + t.units else if held < t.units then held else held - t.units);
      assert Run(b, ts) == Step(mid, t);
    }
  }

  /** No sell of `ts` finds fewer units than it sells, the holding having started at
      `start` and moved by the net units of the commands before it. */
  predicate NeverOverdrawn(start: int, ts: seq<Txn>)
    decreases |ts|
  {
    |ts| == 0 ||
    (&& NeverOverdrawn(start, ts[..|ts| - 1])
     && (ts[|ts| - 1].kind == Sell ==> start + NetUnits(ts[..|ts| - 1]) >= ts[|ts| - 1].units))
  }

  /** Without an overdrawing sell the reference balance is the start plus the net units. */
  lemma {:induction false} SettleWithoutOverdraw(start: int, ts: seq<Txn>)
    requires forall k :: 0 <= k < |ts| ==> ts[k].kind == Buy || ts[k].kind == Sell
    requires NeverOverdrawn(start, ts)
    ensures Settle(start, ts) == start + NetUnits(ts)
    decreases |ts|
  {
    if |ts| > 0 {
      SettleWithoutOverdraw(start, ts[..|ts| - 1]);
    }
  }

  /** When no sell overdraws the holding, the ending balance is the starting balance
      plus the units bought minus the units sold. */
  lemma {:induction false} RunBuySellNet(b: Book, ts: seq<Txn>, name: string, a: Account, start: int)
    requires Balance(b.ledger, name, a) == Some(start)
    requires OnHolding(ts, name, a)
    requires NeverOverdrawn(start, ts)
    ensures Balance(Run(b, ts).ledger, name, a) == Some(start + NetUnits(ts))
  {
    assert Settle(start, ts) == start + NetUnits(ts) by {
      SettleWithoutOverdraw(start, ts);
    }
    RunBuySellSettles(b, ts, name, a, start);
  }
}
