# clrk — investment ledger bookkeeping, modelled in Dafny

`clrk.py` is a command-line tool for a personal investment portfolio. It keeps two
tables: an assets table (the ledger), with one row per financial instrument and its
unit count in each of five account kinds (sdrsp, locked sdrsp, margin, tfsa, resp),
and an append-only transactions table (the log). This project models its core:

- **Transaction appliers.** Buy/sell, transfer, dividend, contribution (and
  contribution limit) and withdrawal validate a request against the ledger. If every
  check passes, they update one unit count or the stored income rate and append one
  record whose `total` follows a per-type formula. A refused request changes nothing.
  Dispatch by transaction type is `Transactions.Process`. The state after a command is
  `Transactions.Step`, and after a sequence of commands `Transactions.Run`.
- **Report generators.** Four pure functions from a ledger and log snapshot to a
  table:
  - projected monthly and yearly income per account, with the "TOTAL MONTHLY" and
    "TOTAL YEARLY" rows;
  - the twelve-month payment schedule;
  - actual income taken from the latest dividend record;
  - the TFSA summary, ending in the remaining contribution room.

Modules, one per file:

| file | module | contents |
|---|---|---|
| results.dfy | Results | `Option` and `Result` |
| assets.dfy | Assets | accounts, asset rows, the ledger, lookup by name, cell updates |
| transaction_log.dfy | TransactionLog | transaction types, log records, total formulas, latest dividend |
| transactions.dfy | Transactions | the five appliers, dispatch, `Step`, `Run` |
| transaction_properties.dfy | TransactionProperties | frames, conservation, invariants, runs of buys and sells |
| income_table.dfy | IncomeTable | the row shape shared by the two income reports, column sums |
| monthly_income.dfy | MonthlyIncome | the projected income report |
| actual_income.dfy | ActualIncome | the actual income report |
| income_schedule.dfy | IncomeSchedule | the payment schedule report |
| tfsa_summary.dfy | TfsaSummary | the TFSA summary and contribution room |

Representation choices:

- **Ledger.** The ledger is a sequence of asset rows in file order, because report
  rows follow that order. An asset name selects the first row carrying it
  (`Assets.IndexOf`).
- **Numbers.** Unit counts are `int`: the command line accepts any integer, negative
  ones included. Money is `real`. Dates are integers that order as the ISO date
  strings do.
- **Payment interval.** The months between payments are a subtype of positive
  integers (`Assets.Months`), so every division by it is defined.
- **Transfer target.** Only transfer records carry a target account. The other types
  write an empty cell there, which is `None` here.
- **Products.** The product of a unit count and an amount is written through
  `TransactionLog.Gross`, so that totals compare as terms and not as nonlinear
  arithmetic.

Quirks of the code that the model keeps:

- **Transfer to its own source account.** `xfer_transaction` does not check that the
  target account differs from the source (clrk.py:326-355). When the two are equal,
  its second write wins and the holding grows by the units.
  `Transactions.Transfer` does the same, and `TransactionProperties.TransferToSameAccountGrows`
  states it. Conservation of units (`TransactionProperties.TransferConservesUnits`)
  is proved only for distinct accounts.
- **Zero-amount contribution.** The contribution check is `amount < 0`
  (clrk.py:358), so a contribution of amount zero is accepted, although its error
  message speaks of "more than $0". The model accepts it too.
- **Actual income for negative holdings.** The actual income report looks up
  dividends only for holdings `> 0` (clrk.py:189), so a negative holding earns 0. The
  model does the same.
- **Negative buys.** A buy with a negative unit count is accepted (clrk.py:289-290).
  Holdings therefore stay non-negative only when the commands' unit counts are
  non-negative (`TransactionProperties.BuyNegativeUnitsAccepted`,
  `TransactionProperties.StepKeepsNonNegative`).
- **Schedule of an empty assets table.** The "TOTAL" row of the schedule report takes
  its index from `name`, the variable the per-asset loop last bound (clrk.py:159,
  172-173). With no assets the loop never binds it, so the report fails instead of
  producing a table. `IncomeSchedule.ScheduleReport` returns no report for an empty
  ledger.

Generating a report twice from the same snapshot gives the same table, because every
report is a function of the ledger and log.

## Model

| member | source | states |
|---|---|---|
| Assets.IndexOf | clrk.py:283-287 | the asset name selects nothing exactly when no row carries it; otherwise it selects a row carrying it with no earlier row carrying it |
| Assets.SetUnits | clrk.py:298 | writing one unit count changes that (row, account) cell to the new value and nothing else in the ledger |
| Assets.SetRate | clrk.py:315-316 | writing the income rate changes that row's rate to the new value and nothing else |
| Assets.UnitsFrameBalances | clrk.py:347-348 | after unit counts of one row change in some accounts, every name still selects the same row and every other (asset, account) balance is unchanged |
| TransactionLog.LatestDividend | clrk.py:190-194 | no result exactly when the holding has no dividend record; otherwise a dividend record for the holding whose date no other such record exceeds, and no later-appended one shares its date |
| Transactions.BuySell | clrk.py:281-305 | unknown asset is refused; a sell beyond the holding is refused with the requested and available counts; otherwise only the (asset, account) cell changes, by plus or minus units, and one record with total units·amount + fees is appended |
| Transactions.Dividend | clrk.py:307-324 | unknown asset is refused; otherwise only the asset's income rate changes, to the paid amount, and one record with total units·amount − fees is appended |
| Transactions.Transfer | clrk.py:326-355 | missing target is refused first, then unknown asset, then units beyond the source holding; otherwise only the source and target cells change (target + units, source − units when distinct) and one record with its target and total units·amount + fees is appended |
| Transactions.Contribute | clrk.py:357-370 | negative amount is refused first; a contribution not named "cash" or a limit not named "any" is refused; it succeeds exactly when neither holds, leaves the ledger unchanged and appends one record with total units·amount + fees |
| Transactions.Withdrawal | clrk.py:372-382 | non-positive amount is refused first, then a name other than "cash"; it succeeds exactly when neither holds, leaves the ledger unchanged and appends one record with total units·amount, without fees |
| TransactionLog.TotalFor | clrk.py:301 | with no fees every type records its gross units·amount; a withdrawal records the gross value whatever its fees (clrk.py:379); a dividend records the gross less the fees (clrk.py:320); every other type records the gross plus the fees (clrk.py:351, 367) |
| Transactions.Process | clrk.py:384-396 | a successful transaction of any type appends exactly its own record and keeps the ledger's rows and names; cash events never change the ledger; buy, sell and dividend fail only for an unknown asset or too few units |
| TransactionProperties.StepAppliesOrKeeps | clrk.py:393-396 | a refused command leaves the whole state as it was; an applied one appends exactly its own record; either way the ledger keeps its rows and names |
| TransactionProperties.StepKeepsTotalsDerived | clrk.py:384-396 | if every log record's total follows its type's formula, that still holds after any command |
| TransactionProperties.StepKeepsNonNegative | clrk.py:291-295 | a command with non-negative units keeps every holding non-negative, because sells and transfers are checked |
| TransactionProperties.BuyNegativeUnitsAccepted | clrk.py:289-290 | a buy of −5 units on an empty holding is accepted and leaves the holding at −5 |
| TransactionProperties.BuySellChangesOneBalance | clrk.py:289-298 | a successful buy or sell moves exactly its (asset, account) balance by plus or minus units; every other balance of every asset is unchanged |
| TransactionProperties.SellBeyondHoldingRefused | clrk.py:291-295 | a sell of more units than held returns the insufficient-units error with both counts and leaves the state as it was |
| TransactionProperties.TransferConservesUnits | clrk.py:338-348 | between distinct accounts, source loses and target gains the units, their sum and the asset's total over all accounts are conserved, and every other balance is unchanged |
| TransactionProperties.TransferToSameAccountGrows | clrk.py:343-348 | a transfer to its own source account is accepted when enough units are held, and grows that holding by the units |
| TransactionProperties.DividendKeepsHoldings | clrk.py:315-316 | a dividend leaves every balance unchanged, sets the asset's income rate to the paid amount and keeps every other asset's row |
| TransactionProperties.RunAppendOnly | clrk.py:393-396 | after any run of commands the old log is a prefix of the new one, which is at most one record per command longer, and the ledger keeps its rows and names |
| TransactionProperties.RunKeepsInvariants | clrk.py:393-396 | non-negative holdings and derived totals survive any run of commands with non-negative unit counts |
| TransactionProperties.StepOnHolding | clrk.py:289-298 | one buy or sell on a holding sets it to the buy sum, the sell difference, or leaves it for a refused overdraw, and the log grows by one record unless refused |
| TransactionProperties.RunBuySellSettles | clrk.py:289-298 | any run of buys and sells on one holding ends at the reference balance that skips overdrawing sells |
| TransactionProperties.SettleWithoutOverdraw | clrk.py:291-295 | when no sell overdraws, the reference balance is the start plus buys minus sells |
| TransactionProperties.RunBuySellNet | clrk.py:289-298 | when no sell overdraws the holding, its ending balance is the starting balance plus units bought minus units sold |
| IncomeTable.WithTotals | clrk.py:130-140 | a row keeps its name and account cells, its RRSP, non-RRSP and monthly totals agree with them, and its yearly total is twelve monthly totals |
| IncomeTable.SumRowConsistent | clrk.py:135-140 | column sums of consistent rows form a consistent row, and twelve-month yearly totals sum to twelve months of the summed monthly total |
| MonthlyIncome.MonthlyIncomeReport | clrk.py:125-145 | one row per asset in ledger order, then "TOTAL MONTHLY" and "TOTAL YEARLY" |
| MonthlyIncome.AssetRowsProjected | clrk.py:129-140 | each asset row has the asset's name, units·rate/interval in every account, consistent subtotals and a yearly total of twelve months |
| MonthlyIncome.ColumnSumOfProjected | clrk.py:130-135 | an account column of the asset rows sums to that account's projected income over the ledger |
| MonthlyIncome.TotalMonthlyRowIsSumRow | clrk.py:135-140 | over consistent twelve-month rows, the totals row as the report builds it is the row of column sums |
| MonthlyIncome.TotalMonthlyIsColumnSum | clrk.py:135-140 | the "TOTAL MONTHLY" row is the column-wise sum of the asset rows in every column, consistent, with a yearly total of twelve months |
| MonthlyIncome.TotalMonthlyAccounts | clrk.py:130-137 | each account cell of "TOTAL MONTHLY" is that account's projected income summed over the ledger |
| MonthlyIncome.TotalYearlyIsTwelveMonths | clrk.py:139-144 | "TOTAL YEARLY" is twelve times "TOTAL MONTHLY" in every column except its yearly cell, which is 0 |
| ActualIncome.ActualIncomeReport | clrk.py:177-211 | one row per asset in ledger order, then "TOTAL_MONTHLY" and "TOTAL_YEARLY" |
| ActualIncome.ActualFromLatestDividend | clrk.py:187-197 | a cell is 0 for a holding that is not positive or never paid; otherwise it is the total of a latest-dated dividend record for the holding divided by the payment interval |
| ActualIncome.AssetRowsActual | clrk.py:185-201 | each asset row has the asset's name, its holdings' actual income, consistent subtotals and a yearly total of twelve months |
| ActualIncome.TotalRowsConsistent | clrk.py:203-208 | "TOTAL_MONTHLY" is the column-wise sum of the asset rows, consistent, twelve-month; "TOTAL_YEARLY" is twelve times it except its yearly cell, which is 0 |
| IncomeSchedule.ScheduleReport | clrk.py:147-175 | no report for an empty ledger, where the unbound loop variable makes the source fail; otherwise one row per asset in ledger order, then "TOTAL", every row with twelve RRSP and twelve non-RRSP amounts |
| IncomeSchedule.PaysIn | clrk.py:162-165 | an asset pays in month m exactly when m is its first month plus a whole number of payment intervals |
| IncomeSchedule.QuarterlyFromFebruary | clrk.py:162-165 | an asset paid every three months from February pays in months 2, 5, 8 and 11 of 1..12 and in no other |
| IncomeSchedule.AssetRowsScheduled | clrk.py:152-169 | in a paying month an asset row holds (sdrsp + locked sdrsp)·rate and (margin + tfsa)·rate, resp excluded; otherwise 0 |
| IncomeSchedule.MonthSumOfSchedules | clrk.py:171-173 | a month's column summed down the asset rows is that month's payments summed over the paying assets |
| IncomeSchedule.TotalRowIsPaidInMonth | clrk.py:170-174 | the "TOTAL" row holds, for each month and side, the payments of the assets that pay that month |
| TfsaSummary.GroupCount | clrk.py:217-223 | a group's count is 0 exactly when no TFSA-related record has that type |
| TfsaSummary.Summary | clrk.py:213-245 | every row before the last is the row of a non-empty group, every non-empty group has its row there, those rows' labels strictly ascend in string order, and the last row is "cont_room" with count 1 holding the contribution room |
| TfsaSummary.LabelOrderAscending | clrk.py:219-222 | the seven group labels, transfers relabelled "xfer_in", strictly ascend in string order along the order in which the grouped rows are emitted |
| TfsaSummary.ContRoom | clrk.py:225-241 | the room computed from the limit, withdrawal, contribution and transfer-in totals, a missing group counting 0, equals the room accumulated record by record |
| TfsaSummary.LabelsDistinct | clrk.py:219-220 | relabelling transfers as "xfer_in" keeps the group labels distinct and apart from "cont_room" |
| TfsaSummary.SummaryRowListed | clrk.py:222-224 | the summary has a row for a type exactly when its group is non-empty, and that row holds the group's count and summed total |
| TfsaSummary.SummaryRowFor | clrk.py:217-224 | the summary has a row for a type exactly when some record in the TFSA filter has that type, and that row holds the group's count and total |
| TfsaSummary.ContRoomIsFold | clrk.py:225-241 | limit plus withdrawal minus contribution minus transfer-in group totals equals the sum of every record's own effect on the room, by induction over the log |
| TfsaSummary.RoomAfterStep | clrk.py:241 | a successful transaction moves the room by its own record's share, and a refused one leaves it unchanged |
| TfsaSummary.TfsaCashEvents | clrk.py:241 | a TFSA contribution of one unit uses up amount + fees of room, a TFSA limit adds amount + fees, and a TFSA withdrawal gives back the amount |
| TfsaSummary.FourTfsaEventsSummary | clrk.py:217-241 | with one TFSA limit, contribution, withdrawal and transfer in, plus one unfiltered record, each group is one record with that record's total, the other types are absent, and room is limit + withdrawal − contribution − transfer |
| TfsaSummary.WorkedExample | clrk.py:241 | a limit of 6000, contribution of 1000, withdrawal of 200 and transfer in of 300 leave a room of 4900, a margin contribution not counting |

## Left out

- File I/O is not modelled: CSV reading and writing, timestamped snapshots
  (`write_data_file`, `append_csv`) and the reload of the log after an append. The
  ledger and the log are values passed in and returned.
- The command line and the interactive loop are not modelled (`build_cmdline_parser`,
  the REPL, `dispatch`). A typed `Txn` arrives, and an unknown transaction type
  cannot be written.
- `list_data` and its user-supplied filter expression are not modelled: that is
  display and arbitrary code evaluation.
- The settings lifecycle (verbosity, data path, data-file checks) and all console
  printing and table formatting are not modelled.
- Transactions.BuySell: the recorded unit amount, fees and total are not rounded to
  cents (clrk.py:301-302), because floating-point rounding is outside the model
  (money is exact `real`).
- Transactions.Transfer: the recorded unit amount, fees and total are not rounded to
  cents (clrk.py:351-352), for the same reason.
- Transactions.Dividend: the recorded fees and the total are not rounded to cents
  (clrk.py:320-321), for the same reason.
- Transactions.Contribute: the recorded amount, fees and total are not rounded to
  cents (clrk.py:367), for the same reason.
- Transactions.Withdrawal: the recorded amount, fees and total are not rounded to
  cents (clrk.py:379), for the same reason.
- ActualIncome.TotalRowsConsistent: the total rows are exact real sums, where the
  source uses `math.fsum` on floats.
- ActualIncome.ActualFromLatestDividend: when several dividend records share the latest date, the
  model takes the one appended last. The source's lookup by that date then yields
  several rows, which is library behaviour.
- MonthlyIncome.TotalYearlyIsTwelveMonths: requires that no asset is itself named
  "TOTAL MONTHLY". The source sums every row with that name, so such an asset would be
  counted into "TOTAL YEARLY" as well. The model's report does the same.
- Assets.IndexOf: duplicate asset names are not modelled beyond picking the first
  row; the source's label lookup would return several rows.
- Assets.Months: payment intervals are positive by type; an assets table with a zero
  or negative interval is not modelled.
- The day-of-month payment column is carried in the asset row but used by no report,
  as in the source.
- TfsaSummary.Summary: the grouped sums of the other numeric columns (units, unit
  amount, fees) are dropped by the source before output and are not modelled.
