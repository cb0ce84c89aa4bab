/** The actual monthly income report: what each holding was last paid, from the most
    recent dividend record for it, spread over the months between payments. */
module ActualIncome {
  import opened Results
  import opened Assets
  import opened TransactionLog
  import opened IncomeTable

  /** Actual monthly income of an asset's holding in account `a`: nothing for an empty
      (or negative) holding or a holding never paid, else the total of its most recent
      dividend record divided by the months between payments. */
  function Actual(asset: Asset, log: Log, a: Account): real
  {
    var paid :=
      if asset.units.Get(a) > 0 then
        match LatestDividend(log, asset.name, a)
        case Some(j) => log[j].total
        case None => 0.0
      else 0.0;
    paid / asset.freqMonths as real
  }

  /** The report row of one asset. */
  function ActualRow(asset: Asset, log: Log): IncomeRow
  {
    WithTotals(asset.name, PerAccount(
      Actual(asset, log, Sdrsp), Actual(asset, log, LockedSdrsp), Actual(asset, log, Margin),
      Actual(asset, log, Tfsa), Actual(asset, log, Resp)))
  }

  function ActualRows(L: Ledger, log: Log): (rows: seq<IncomeRow>)
    ensures |rows| == |L|
    ensures forall i :: 0 <= i < |L| ==> rows[i] == ActualRow(L[i], log)
  {
    seq(|L|, i requires 0 <= i < |L| => ActualRow(L[i], log))
  }

  /** The actual monthly income report: one row per asset in ledger order, then
      "TOTAL_MONTHLY" (every column summed) and "TOTAL_YEARLY" (twelve times that, with
      its yearly-total cell set to zero). */
  function ActualIncomeReport(L: Ledger, log: Log): (report: seq<IncomeRow>)
    ensures |report| == |L| + 2
    ensures report[..|L|] == ActualRows(L, log)
    ensures report[|L|].name == "TOTAL_MONTHLY" && report[|L| + 1].name == "TOTAL_YEARLY"
  {
    var rows := ActualRows(L, log);
    var monthly := SumRow("TOTAL_MONTHLY", rows);
    var yearly := IncomeRow(
      "TOTAL_YEARLY",
      PerAccount(
        monthly.income.sdrsp * 12.0, monthly.income.lockedSdrsp * 12.0, monthly.income.margin * 12.0,
        monthly.income.tfsa * 12.0, monthly.income.resp * 12.0),
      monthly.totalRrsp * 12.0,
      monthly.totalNonrrsp * 12.0,
      monthly.monthlyTotal * 12.0,
      0.0);
    rows + [monthly, yearly]
  }

  lemma ActualRowCells(asset: Asset, log: Log)
    ensures forall a :: ActualRow(asset, log).income.Get(a) == Actual(asset, log, a)
  {
    var r := ActualRow(asset, log);
    forall a ensures r.income.Get(a) == Actual(asset, log, a) {
      match a
      case Sdrsp =>
      case LockedSdrsp =>
      case Margin =>
      case Tfsa =>
      case Resp =>
    }
  }

  /** A holding's actual monthly income is zero when the holding is not positive or
      was never paid a dividend; otherwise it is the total of a dividend record for that
      holding dated no earlier than any other, divided by the months between payments. */
  lemma ActualFromLatestDividend(asset: Asset, log: Log, a: Account)
    ensures asset.units.Get(a) <= 0 ==> Actual(asset, log, a) == 0.0
    ensures (forall j :: 0 <= j < |log| ==> !IsDividendFor(log[j], asset.name, a)) ==> Actual(asset, log, a) == 0.0
    ensures asset.units.Get(a) > 0 && (exists j :: 0 <= j < |log| && IsDividendFor(log[j], asset.name, a)) ==>
      exists j :: && 0 <= j < |log|
                  && IsDividendFor(log[j], asset.name, a)
                  && (forall k :: 0 <= k < |log| && IsDividendFor(log[k], asset.name, a) ==> log[k].date <= log[j].date)
                  && Actual(asset, log, a) == log[j].total / asset.freqMonths as real
  {
    var latest := LatestDividend(log, asset.name, a);
    if asset.units.Get(a) > 0 && latest.Some? {
      var j := latest.value;
      assert IsDividendFor(log[j], asset.name, a);
    }
  }

  /** Every asset row carries the asset's name and, per account, the holding's actual
      monthly income; its totals agree with its account cells and its yearly total is
      twelve months of its monthly total. */
  lemma AssetRowsActual(L: Ledger, log: Log, i: int)
    requires 0 <= i < |L|
    ensures
      var r := ActualIncomeReport(L, log)[i];
      && r.name == L[i].name
      && (forall a :: r.income.Get(a) == Actual(L[i], log, a))
      && Consistent(r)
      && r.yearlyTotal == 12.0 * r.monthlyTotal
  {
    var report := ActualIncomeReport(L, log);
    assert report[i] == report[..|L|][i];
    ActualRowCells(L[i], log);
  }

  /** The "TOTAL_MONTHLY" row's totals agree with its account cells, and its yearly
      total is twelve months of its monthly total; the "TOTAL_YEARLY" row is twelve
      times it in every column but the yearly total, whose cell is zero. */
  lemma TotalRowsConsistent(L: Ledger, log: Log)
    ensures
      var report := ActualIncomeReport(L, log);
      && report[|L|] == SumRow("TOTAL_MONTHLY", report[..|L|])
      && Consistent(report[|L|])
      && report[|L|].yearlyTotal == 12.0 * report[|L|].monthlyTotal
      && (forall c :: c != YearlyTotalColumn ==> Cell(report[|L| + 1], c) == 12.0 * Cell(report[|L|], c))
      && report[|L| + 1].yearlyTotal == 0.0
  {
    var rows := ActualRows(L, log);
    forall i | 0 <= i < |rows| ensures Consistent(rows[i]) && rows[i].yearlyTotal == 12.0 * rows[i].monthlyTotal {
    }
    SumRowConsistent("TOTAL_MONTHLY", rows);
  }
}
