/** The projected monthly income report: what each holding pays per month at the
    asset's stored income rate, with total rows. */
module MonthlyIncome {
  import opened Assets
  import opened IncomeTable

  /** Projected monthly income of an asset's holding in account `a`: the units times
      the income per payment, spread over the months between payments. */
  function Projected(asset: Asset, a: Account): real
  {
    asset.units.Get(a) as real * asset.incomePerUnit / asset.freqMonths as real
  }

  /** The report row of one asset. */
  function ProjectedRow(asset: Asset): IncomeRow
  {
    WithTotals(asset.name, PerAccount(
      Projected(asset, Sdrsp), Projected(asset, LockedSdrsp), Projected(asset, Margin),
      Projected(asset, Tfsa), Projected(asset, Resp)))
  }

  function ProjectedRows(L: Ledger): (rows: seq<IncomeRow>)
    ensures |rows| == |L|
    ensures forall i :: 0 <= i < |L| ==> rows[i] == ProjectedRow(L[i])
  {
    seq(|L|, i requires 0 <= i < |L| => ProjectedRow(L[i]))
  }

  /** The "TOTAL MONTHLY" row: each account and RRSP/non-RRSP column summed over the
      asset rows, the monthly and yearly totals then derived within the row. */
  function TotalMonthlyRow(rows: seq<IncomeRow>): IncomeRow
  {
    var income := PerAccount(
      ColumnSum(rows, AccountColumn(Sdrsp)), ColumnSum(rows, AccountColumn(LockedSdrsp)),
      ColumnSum(rows, AccountColumn(Margin)), ColumnSum(rows, AccountColumn(Tfsa)),
      ColumnSum(rows, AccountColumn(Resp)));
    var rrsp := ColumnSum(rows, TotalRrspColumn);
    var nonrrsp := ColumnSum(rows, TotalNonrrspColumn);
    var monthly := income.resp + rrsp + nonrrsp;
    IncomeRow("TOTAL MONTHLY", income, rrsp, nonrrsp, monthly, monthly * 12.0)
  }

  /** The rows labelled `name`. */
  function RowsNamed(rows: seq<IncomeRow>, name: string): seq<IncomeRow>
    decreases |rows|
  {
    if |rows| == 0 then []
    else RowsNamed(rows[..|rows| - 1], name) + (if rows[|rows| - 1].name == name then [rows[|rows| - 1]] else [])
  }

  /** The "TOTAL YEARLY" row: twelve times the sum of every row labelled "TOTAL MONTHLY",
      column by column, with its yearly-total cell set to zero. */
  function TotalYearlyRow(rows: seq<IncomeRow>): IncomeRow
  {
    var m := RowsNamed(rows, "TOTAL MONTHLY");
    IncomeRow(
      "TOTAL YEARLY",
      PerAccount(
        ColumnSum(m, AccountColumn(Sdrsp)) * 12.0, ColumnSum(m, AccountColumn(LockedSdrsp)) * 12.0,
        ColumnSum(m, AccountColumn(Margin)) * 12.0, ColumnSum(m, AccountColumn(Tfsa)) * 12.0,
        ColumnSum(m, AccountColumn(Resp)) * 12.0),
      ColumnSum(m, TotalRrspColumn) * 12.0,
      ColumnSum(m, TotalNonrrspColumn) * 12.0,
      ColumnSum(m, MonthlyTotalColumn) * 12.0,
      0.0)
  }

  /** The projected monthly income report: one row per asset in ledger order, then
      "TOTAL MONTHLY", then "TOTAL YEARLY". */
  function MonthlyIncomeReport(L: Ledger): (report: seq<IncomeRow>)
    ensures |report| == |L| + 2
    ensures report[..|L|] == ProjectedRows(L)
    ensures report[|L|].name == "TOTAL MONTHLY" && report[|L| + 1].name == "TOTAL YEARLY"
  {
    var rows := ProjectedRows(L);
    var withMonthly := rows + [TotalMonthlyRow(rows)];
    withMonthly + [TotalYearlyRow(withMonthly)]
  }

  /** Projected income of account `a` summed over the ledger: the reference the
      "TOTAL MONTHLY" row is checked against. */
  function LedgerProjected(L: Ledger, a: Account): real
    decreases |L|
  {
    if |L| == 0 then 0.0 else LedgerProjected(L[..|L| - 1], a) + Projected(L[|L| - 1], a)
  }

  /** Every asset row holds, per account, units times income per payment divided by the
      months between payments; its totals agree with its account cells and its yearly
      total is twelve months of its monthly total. */
  lemma AssetRowsProjected(L: Ledger, i: int)
    requires 0 <= i < |L|
    ensures
      var r := MonthlyIncomeReport(L)[i];
      && r.name == L[i].name
      && (forall a :: r.income.Get(a) == L[i].units.Get(a) as real * L[i].incomePerUnit / L[i].freqMonths as real)
      && Consistent(r)
      && r.yearlyTotal == 12.0 * r.monthlyTotal
  {
    var report := MonthlyIncomeReport(L);
    assert report[i] == report[..|L|][i];
    ProjectedRowCells(L[i]);
  }

  lemma ProjectedRowCells(asset: Asset)
    ensures forall a :: ProjectedRow(asset).income.Get(a) == Projected(asset, a)
  {
    var r := ProjectedRow(asset);
    forall a ensures r.income.Get(a) == Projected(asset, a) {
      match a
      case Sdrsp =>
      case LockedSdrsp =>
      case Margin =>
      case Tfsa =>
      case Resp =>
    }
  }

  lemma {:induction false} ColumnSumOfProjected(L: Ledger, a: Account)
    ensures ColumnSum(ProjectedRows(L), AccountColumn(a)) == LedgerProjected(L, a)
    decreases |L|
  {
    if |L| > 0 {
      var init := L[..|L| - 1];
      ColumnSumOfProjected(init, a);
      assert ProjectedRows(L)[..|L| - 1] == ProjectedRows(init);
      var last := ProjectedRow(L[|L| - 1]);
      assert Cell(last, AccountColumn(a)) == Projected(L[|L| - 1], a) by {
        match a
        case Sdrsp =>
        case LockedSdrsp =>
        case Margin =>
        case Tfsa =>
        case Resp =>
      }
    }
  }

  /** Over consistent rows whose yearly totals are twelve monthly totals, the
      "TOTAL MONTHLY" row is exactly the row of column sums. */
  lemma TotalMonthlyRowIsSumRow(rows: seq<IncomeRow>)
    requires forall i :: 0 <= i < |rows| ==> Consistent(rows[i]) && rows[i].yearlyTotal == 12.0 * rows[i].monthlyTotal
    ensures TotalMonthlyRow(rows) == SumRow("TOTAL MONTHLY", rows)
  {
    SumRowConsistent("TOTAL MONTHLY", rows);
  }

  /** The "TOTAL MONTHLY" row is the row of column sums of the asset rows, in every
      column including the monthly and yearly totals; its totals agree with its account
      cells and its yearly total is twelve months of its monthly total. */
  lemma TotalMonthlyIsColumnSum(L: Ledger)
    ensures MonthlyIncomeReport(L)[|L|] == SumRow("TOTAL MONTHLY", MonthlyIncomeReport(L)[..|L|])
    ensures Consistent(MonthlyIncomeReport(L)[|L|])
    ensures MonthlyIncomeReport(L)[|L|].yearlyTotal == 12.0 * MonthlyIncomeReport(L)[|L|].monthlyTotal
  {
    var rows := ProjectedRows(L);
    assert MonthlyIncomeReport(L)[|L|] == TotalMonthlyRow(rows);
    TotalMonthlyRowIsSumRow(rows);
    SumRowConsistent("TOTAL MONTHLY", rows);
  }

  /** Each account cell of the "TOTAL MONTHLY" row is that account's projected income
      summed over the whole ledger. */
  lemma TotalMonthlyAccounts(L: Ledger, a: Account)
    ensures MonthlyIncomeReport(L)[|L|].income.Get(a) == LedgerProjected(L, a)
  {
    var rows := ProjectedRows(L);
    assert MonthlyIncomeReport(L)[|L|] == TotalMonthlyRow(rows);
    ColumnSumOfProjected(L, a);
    match a
    case Sdrsp =>
    case LockedSdrsp =>
    case Margin =>
    case Tfsa =>
    case Resp =>
  }

  lemma {:induction false} RowsNamedNone(rows: seq<IncomeRow>, name: string)
    requires forall i :: 0 <= i < |rows| ==> rows[i].name != name
    ensures RowsNamed(rows, name) == []
    decreases |rows|
  {
    if |rows| > 0 {
      RowsNamedNone(rows[..|rows| - 1], name);
    }
  }

  /** When no asset is itself named "TOTAL MONTHLY", the "TOTAL YEARLY" row is twelve
      times the "TOTAL MONTHLY" row in every column but the yearly total, whose cell
      is zero. */
  lemma TotalYearlyIsTwelveMonths(L: Ledger)
    requires forall i :: 0 <= i < |L| ==> L[i].name != "TOTAL MONTHLY"
    ensures
      var report := MonthlyIncomeReport(L);
      && (forall c :: c != YearlyTotalColumn ==> Cell(report[|L| + 1], c) == 12.0 * Cell(report[|L|], c))
      && report[|L| + 1].yearlyTotal == 0.0
  {
    var rows := ProjectedRows(L);
    var withMonthly := rows + [TotalMonthlyRow(rows)];
    RowsNamedNone(rows, "TOTAL MONTHLY");
    assert withMonthly[..|rows|] == rows;
    assert RowsNamed(withMonthly, "TOTAL MONTHLY") == [TotalMonthlyRow(rows)];
    forall c ensures ColumnSum([TotalMonthlyRow(rows)], c) == Cell(TotalMonthlyRow(rows), c) {
      assert [TotalMonthlyRow(rows)][..0] == [];
    }
  }
}
