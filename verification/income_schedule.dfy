/** The projected monthly income schedule: for each asset and each calendar month, the
    income paid into RRSP accounts and into non-RRSP accounts (resp is not scheduled). */
module IncomeSchedule {
  import opened Results
  import opened Assets

  /** A schedule row: its label, then twelve RRSP and twelve non-RRSP amounts
      (index 0 is January). */
  datatype ScheduleRow = ScheduleRow(name: string, rrsp: seq<real>, nonrrsp: seq<real>)

  /** An asset pays in calendar month `m` when `m` is its first payment month or a
      whole number of payment periods after it. */
  function PaysIn(asset: Asset, m: int): (pays: bool)
    ensures pays <==> exists n: nat :: m == asset.firstMonth + n * asset.freqMonths
  {
    PeriodicMonth(m, asset.firstMonth, asset.freqMonths);
    m >= asset.firstMonth && (m - asset.firstMonth) % asset.freqMonths == 0
  }

  /** Income of one payment into the RRSP accounts (sdrsp and locked sdrsp). */
  function RrspPayment(asset: Asset): real
  {
    asset.units.sdrsp as real * asset.incomePerUnit + asset.units.lockedSdrsp as real * asset.incomePerUnit
  }

  /** Income of one payment into the non-RRSP accounts (margin and tfsa). */
  function NonrrspPayment(asset: Asset): real
  {
    asset.units.margin as real * asset.incomePerUnit + asset.units.tfsa as real * asset.incomePerUnit
  }

  /** The schedule row of one asset. */
  function AssetSchedule(asset: Asset): (r: ScheduleRow)
    ensures |r.rrsp| == 12 && |r.nonrrsp| == 12
  {
    ScheduleRow(
      asset.name,
      seq(12, k => if PaysIn(asset, k + 1) then RrspPayment(asset) else 0.0),
      seq(12, k => if PaysIn(asset, k + 1) then NonrrspPayment(asset) else 0.0))
  }

  /** The amount of month index `k` on the RRSP (`rrsp` true) or non-RRSP side of a row. */
  function Amount(r: ScheduleRow, k: nat, rrsp: bool): real
  {
    var side := if rrsp then r.rrsp else r.nonrrsp;
    if k < |side| then side[k] else 0.0
  }

  /** The sum of one month and side down `rows`. */
  function MonthSum(rows: seq<ScheduleRow>, k: nat, rrsp: bool): real
    decreases |rows|
  {
    if |rows| == 0 then 0.0 else MonthSum(rows[..|rows| - 1], k, rrsp) + Amount(rows[|rows| - 1], k, rrsp)
  }

  function AssetSchedules(L: Ledger): (rows: seq<ScheduleRow>)
    ensures |rows| == |L|
    ensures forall i :: 0 <= i < |L| ==> rows[i] == AssetSchedule(L[i])
  {
    seq(|L|, i requires 0 <= i < |L| => AssetSchedule(L[i]))
  }

  /** The schedule report: one row per asset in ledger order, then "TOTAL" holding
      every column summed down the asset rows. With no assets there is no report: the
      "TOTAL" row takes its index from the name the row loop last bound, and an empty
      ledger never binds it. */
  function ScheduleReport(L: Ledger): (report: Option<seq<ScheduleRow>>)
    ensures report.None? <==> |L| == 0
    ensures report.Some? ==> |report.value| == |L| + 1
    ensures report.Some? ==> report.value[..|L|] == AssetSchedules(L)
    ensures report.Some? ==> report.value[|L|].name == "TOTAL"
    ensures report.Some? ==>
      forall i :: 0 <= i < |report.value| ==> |report.value[i].rrsp| == 12 && |report.value[i].nonrrsp| == 12
  {
    if |L| == 0 then None
    else
      var rows := AssetSchedules(L);
      var total := ScheduleRow(
        "TOTAL",
        seq(12, k requires 0 <= k < 12 => MonthSum(rows, k, true)),
        seq(12, k requires 0 <= k < 12 => MonthSum(rows, k, false)));
      Some(rows + [total])
  }

  /** The months at or after `f` that are a whole number of periods `p` away from it
      are exactly `f` plus a multiple of `p`. */
  lemma PeriodicMonth(m: int, f: int, p: int)
    requires p > 0
    ensures (m >= f && (m - f) % p == 0) <==> exists n: nat :: m == f + n * p
  {
    if m >= f && (m - f) % p == 0 {
      var n := (m - f) / p;
      assert m == f + n * p;
    }
    if exists n: nat :: m == f + n * p {
      var n: nat :| m == f + n * p;
      assert (n * p) % p == 0 by {
        MultipleModulo(n, p);
      }
    }
  }

  lemma ModuloShift(x: int, p: int)
    requires p > 0
    ensures (x + p) % p == x % p
  {
    var q, q' := x / p, (x + p) / p;
    var k := q' - q - 1;
    assert p * q' + (x + p) % p == p * q + x % p + p;
    assert p * k == x % p - (x + p) % p by {
      assert p * k == p * q' - p * q - p;
    }
    ProductBounds(p, k);
  }

  lemma ProductBounds(p: int, k: int)
    requires p > 0
    ensures k >= 1 ==> p * k >= p
    ensures k <= -1 ==> p * k <= -p
  {
    if k >= 1 {
      assert p * k == p + p * (k - 1);
    } else if k <= -1 {
      assert p * k == -p + p * (k + 1);
    }
  }

  lemma {:induction false} MultipleModulo(n: nat, p: int)
    requires p > 0
    ensures (n * p) % p == 0
  {
    if n > 0 {
      var x := (n - 1) * p;
      MultipleModulo(n - 1, p);
      ModuloShift(x, p);
      assert n * p == x + p;
    }
  }

  /** An asset paid every three months from February pays in February, May, August and
      November, and in no other month. */
  lemma QuarterlyFromFebruary(asset: Asset)
    requires asset.freqMonths == 3 && asset.firstMonth == 2
    ensures forall m :: 1 <= m <= 12 ==> (PaysIn(asset, m) <==> m in {2, 5, 8, 11})
  {
    forall m | 1 <= m <= 12 ensures PaysIn(asset, m) <==> m in {2, 5, 8, 11} {
      if m == 1 {} else if m == 2 {} else if m == 3 {} else if m == 4 {}
      else if m == 5 {} else if m == 6 {} else if m == 7 {} else if m == 8 {}
      else if m == 9 {} else if m == 10 {} else if m == 11 {} else {}
    }
  }

  /** Every asset row carries the asset's name and, for each month 1..12, pays one
      payment on the RRSP units (sdrsp plus locked sdrsp) and one on the non-RRSP units
      (margin plus tfsa) when the asset pays that month, and nothing otherwise. */
  lemma AssetRowsScheduled(L: Ledger, i: int, m: int)
    requires 0 <= i < |L| && 1 <= m <= 12
    ensures
      var r := ScheduleReport(L).value[i];
      var asset := L[i];
      var pays := m >= asset.firstMonth && (m - asset.firstMonth) % asset.freqMonths == 0;
      && r.name == asset.name
      && r.rrsp[m - 1] == (if pays then (asset.units.sdrsp + asset.units.lockedSdrsp) as real * asset.incomePerUnit else 0.0)
      && r.nonrrsp[m - 1] == (if pays then (asset.units.margin + asset.units.tfsa) as real * asset.incomePerUnit else 0.0)
  {
    var report := ScheduleReport(L).value;
    assert report[i] == report[..|L|][i];
  }

  /** Income of month `m` on one side summed over the assets that pay in it: the
      reference the "TOTAL" row is checked against. */
  function PaidInMonth(L: Ledger, m: int, rrsp: bool): real
    decreases |L|
  {
    if |L| == 0 then 0.0
    else
      var asset := L[|L| - 1];
      PaidInMonth(L[..|L| - 1], m, rrsp) +
        (if PaysIn(asset, m) then (if rrsp then RrspPayment(asset) else NonrrspPayment(asset)) else 0.0)
  }

  lemma {:induction false} MonthSumOfSchedules(L: Ledger, m: int, rrsp: bool)
    requires 1 <= m <= 12
    ensures MonthSum(AssetSchedules(L), m - 1, rrsp) == PaidInMonth(L, m, rrsp)
    decreases |L|
  {
    if |L| > 0 {
      var init := L[..|L| - 1];
      MonthSumOfSchedules(init, m, rrsp);
      assert AssetSchedules(L)[..|L| - 1] == AssetSchedules(init);
    }
  }

  /** The "TOTAL" row holds, for each month and side, the income of that side summed
      over the assets paying that month. */
  lemma TotalRowIsPaidInMonth(L: Ledger, m: int)
    requires 1 <= m <= 12
    ensures ScheduleReport(L).Some? ==> ScheduleReport(L).value[|L|].rrsp[m - 1] == PaidInMonth(L, m, true)
    ensures ScheduleReport(L).Some? ==> ScheduleReport(L).value[|L|].nonrrsp[m - 1] == PaidInMonth(L, m, false)
  {
    MonthSumOfSchedules(L, m, true);
    MonthSumOfSchedules(L, m, false);
  }
}
