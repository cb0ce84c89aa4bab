/** The shape shared by the projected and the actual monthly income reports: one row
    per asset plus total rows, with income per account and its RRSP, non-RRSP, monthly
    and yearly totals. */
module IncomeTable {
  import opened Assets

  /** A report row: its label, the income of each account, and the derived totals. */
  datatype IncomeRow = IncomeRow(
    name: string,
    income: PerAccount<real>,
    totalRrsp: real,
    totalNonrrsp: real,
    monthlyTotal: real,
    yearlyTotal: real)

  /** The numeric columns of an income report. */
  datatype Column =
    | AccountColumn(account: Account)
    | TotalRrspColumn
    | TotalNonrrspColumn
    | MonthlyTotalColumn
    | YearlyTotalColumn

  function Cell(row: IncomeRow, c: Column): real
  {
    match c
    case AccountColumn(a) => row.income.Get(a)
    case TotalRrspColumn => row.totalRrsp
    case TotalNonrrspColumn => row.totalNonrrsp
    case MonthlyTotalColumn => row.monthlyTotal
    case YearlyTotalColumn => row.yearlyTotal
  }

  /** The sum of column `c` down `rows`. */
  function ColumnSum(rows: seq<IncomeRow>, c: Column): real
    decreases |rows|
  {
    if |rows| == 0 then 0.0 else ColumnSum(rows[..|rows| - 1], c) + Cell(rows[|rows| - 1], c)
  }

  /** The row of an asset (or total) whose account cells are `income`, with the RRSP
      total (sdrsp and locked sdrsp), the non-RRSP total (margin and tfsa), the monthly
      total (those two and resp) and the yearly total (twelve months) derived from them. */
  function WithTotals(name: string, income: PerAccount<real>): (r: IncomeRow)
    ensures r.name == name && r.income == income
    ensures Consistent(r) && r.yearlyTotal == 12.0 * r.monthlyTotal
  {
    var rrsp := income.sdrsp + income.lockedSdrsp;
    var nonrrsp := income.margin + income.tfsa;
    var monthly := income.resp + rrsp + nonrrsp;
    IncomeRow(name, income, rrsp, nonrrsp, monthly, monthly * 12.0)
  }

  /** The totals of a row agree with its account cells. */
  predicate Consistent(r: IncomeRow)
  {
    && r.totalRrsp == r.income.sdrsp + r.income.lockedSdrsp
    && r.totalNonrrsp == r.income.margin + r.income.tfsa
    && r.monthlyTotal == r.income.resp + r.totalRrsp + r.totalNonrrsp
  }

  /** The row of column sums of `rows`, labelled `name`. */
  function SumRow(name: string, rows: seq<IncomeRow>): IncomeRow
  {
    IncomeRow(
      name,
      PerAccount(
        ColumnSum(rows, AccountColumn(Sdrsp)), ColumnSum(rows, AccountColumn(LockedSdrsp)),
        ColumnSum(rows, AccountColumn(Margin)), ColumnSum(rows, AccountColumn(Tfsa)),
        ColumnSum(rows, AccountColumn(Resp))),
      ColumnSum(rows, TotalRrspColumn),
      ColumnSum(rows, TotalNonrrspColumn),
      ColumnSum(rows, MonthlyTotalColumn),
      ColumnSum(rows, YearlyTotalColumn))
  }

  /** A column that is, row by row, the sum of two others sums to the sum of their sums. */
  lemma {:induction false} ColumnSumAdd(rows: seq<IncomeRow>, c: Column, x: Column, y: Column)
    requires forall i :: 0 <= i < |rows| ==> Cell(rows[i], c) == Cell(rows[i], x) + Cell(rows[i], y)
    ensures ColumnSum(rows, c) == ColumnSum(rows, x) + ColumnSum(rows, y)
    decreases |rows|
  {
    if |rows| > 0 {
      ColumnSumAdd(rows[..|rows| - 1], c, x, y);
    }
  }

  /** A column that is, row by row, twelve times another sums to twelve times its sum. */
  lemma {:induction false} ColumnSumTwelvefold(rows: seq<IncomeRow>, c: Column, x: Column)
    requires forall i :: 0 <= i < |rows| ==> Cell(rows[i], c) == 12.0 * Cell(rows[i], x)
    ensures ColumnSum(rows, c) == 12.0 * ColumnSum(rows, x)
    decreases |rows|
  {
    if |rows| > 0 {
      ColumnSumTwelvefold(rows[..|rows| - 1], c, x);
    }
  }

  /** Column sums of consistent rows form a consistent row, and if every row's yearly
      total is twelve times its monthly total, so is the sums'. */
  lemma SumRowConsistent(name: string, rows: seq<IncomeRow>)
    requires forall i :: 0 <= i < |rows| ==> Consistent(rows[i])
    ensures Consistent(SumRow(name, rows))
    ensures (forall i :: 0 <= i < |rows| ==> rows[i].yearlyTotal == 12.0 * rows[i].monthlyTotal) ==>
      SumRow(name, rows).yearlyTotal == 12.0 * SumRow(name, rows).monthlyTotal
  {
    ColumnSumAdd(rows, TotalRrspColumn, AccountColumn(Sdrsp), AccountColumn(LockedSdrsp));
    ColumnSumAdd(rows, TotalNonrrspColumn, AccountColumn(Margin), AccountColumn(Tfsa));
    MonthlySumSplit(rows);
    if forall i :: 0 <= i < |rows| ==> rows[i].yearlyTotal == 12.0 * rows[i].monthlyTotal {
      ColumnSumTwelvefold(rows, YearlyTotalColumn, MonthlyTotalColumn);
    }
  }

  /** The monthly-total column of consistent rows sums to the resp, RRSP and non-RRSP sums. */
  lemma {:induction false} MonthlySumSplit(rows: seq<IncomeRow>)
    requires forall i :: 0 <= i < |rows| ==> Consistent(rows[i])
    ensures ColumnSum(rows, MonthlyTotalColumn) ==
      ColumnSum(rows, AccountColumn(Resp)) + ColumnSum(rows, TotalRrspColumn) + ColumnSum(rows, TotalNonrrspColumn)
    decreases |rows|
  {
    if |rows| > 0 {
      MonthlySumSplit(rows[..|rows| - 1]);
    }
  }
}
