/** The TFSA summary report: the TFSA-related records of the transactions table grouped
    by type, with a count and a summed total per group, followed by the remaining
    contribution room. */
module TfsaSummary {
  import opened Results
  import opened Assets
  import opened TransactionLog
  import opened Transactions

  /** A record the summary looks at: a contribution, contribution limit or withdrawal
      in the TFSA account, or a transfer whose target is the TFSA account. */
  predicate InSummary(r: Record)
  {
    || ((r.kind == Cont || r.kind == ContLimit || r.kind == Withdraw) && r.account == Tfsa)
    || r.xferAccount == Some(Tfsa)
  }

  /** A record that falls into the group of type `k`. */
  predicate InGroup(r: Record, k: TxnType)
  {
    InSummary(r) && r.kind == k
  }

  /** The number of records in the group of type `k`. */
  function GroupCount(log: Log, k: TxnType): (n: nat)
    decreases |log|
    ensures n <= |log|
    ensures n == 0 <==> forall j :: 0 <= j < |log| ==> !InGroup(log[j], k)
  {
    if |log| == 0 then 0
    else GroupCount(log[..|log| - 1], k) + (if InGroup(log[|log| - 1], k) then 1 else 0)
  }

  /** The sum of the totals of the records in the group of type `k`. */
  function GroupTotal(log: Log, k: TxnType): real
    decreases |log|
  {
    if |log| == 0 then 0.0
    else GroupTotal(log[..|log| - 1], k) + (if InGroup(log[|log| - 1], k) then log[|log| - 1].total else 0.0)
  }

  /** The label of a group: the type's name as written in the table, except that
      transfers are relabelled as transfers in. */
  function Label(k: TxnType): string
  {
    match k
    case Buy => "buy"
    case Sell => "sell"
    case Xfer => "xfer_in"
    case Cont => "cont"
    case ContLimit => "cont_limit"
    case Div => "div"
    case Withdraw => "withdraw"
  }

  /** The types in the alphabetical order of their labels, the order in which the
      grouped rows come out. */
  const LabelOrder: seq<TxnType> := [Buy, Cont, ContLimit, Div, Sell, Withdraw, Xfer]

  /** The label of the final row. */
  const RoomLabel: string := "cont_room"

  /** A row of the summary. */
  datatype SummaryRow = SummaryRow(group: string, num: nat, total: real)

  /** The row of the group of type `k`. */
  function GroupRow(log: Log, k: TxnType): SummaryRow
  {
    SummaryRow(Label(k), GroupCount(log, k), GroupTotal(log, k))
  }

  /** `row` is the row of a group that is not empty. */
  predicate IsGroupRow(log: Log, row: SummaryRow)
  {
    exists k :: GroupCount(log, k) > 0 && row == GroupRow(log, k)
  }

  /** One row per type of `ks` whose group is not empty, in the order of `ks`. */
  function GroupRows(log: Log, ks: seq<TxnType>): (rows: seq<SummaryRow>)
    decreases |ks|
    ensures |rows| <= |ks|
  {
    if |ks| == 0 then []
    else
      var k := ks[|ks| - 1];
      var earlier := GroupRows(log, ks[..|ks| - 1]);
      if GroupCount(log, k) > 0 then earlier + [GroupRow(log, k)] else earlier
  }

  /** The remaining contribution room: limits and withdrawals add to it, contributions
      and transfers in use it up, and a missing group counts as zero. It is the room
      accumulated one record at a time. */
  function ContRoom(log: Log): (room: real)
    ensures room == RoomFold(log)
  {
    ContRoomIsFold(log);
    GroupTotal(log, ContLimit) + GroupTotal(log, Withdraw) - GroupTotal(log, Cont) - GroupTotal(log, Xfer)
  }

  /** Strict lexicographic order on labels, character by character, a proper prefix
      coming first: the order in which grouping sorts its string keys. */
  predicate LexLess(a: string, b: string)
    decreases |a|
  {
    |b| > 0 && (|a| == 0 || a[0] < b[0] || (a[0] == b[0] && LexLess(a[1..], b[1..])))
  }

  lemma {:induction false} LexLessTransitive(a: string, b: string, c: string)
    requires LexLess(a, b) && LexLess(b, c)
    ensures LexLess(a, c)
    decreases |a|
  {
    if |a| > 0 && a[0] == b[0] && b[0] == c[0] {
      LexLessTransitive(a[1..], b[1..], c[1..]);
    }
  }

  /** The labels of `ks` ascend strictly. */
  ghost predicate Ascending(ks: seq<TxnType>)
  {
    forall i, j :: 0 <= i < j < |ks| ==> LexLess(Label(ks[i]), Label(ks[j]))
  }

  /** Labels that ascend from each type to the next ascend between any two types. */
  lemma {:induction false} ChainAscending(ks: seq<TxnType>, i: nat, j: nat)
    requires forall n :: 0 <= n < |ks| - 1 ==> LexLess(Label(ks[n]), Label(ks[n + 1]))
    requires i < j < |ks|
    ensures LexLess(Label(ks[i]), Label(ks[j]))
    decreases j - i
  {
    if j > i + 1 {
      ChainAscending(ks, i, j - 1);
      LexLessTransitive(Label(ks[i]), Label(ks[j - 1]), Label(ks[j]));
    }
  }

  /** Every type has its place in the label order. */
  lemma EveryTypeOrdered()
    ensures forall k :: k in LabelOrder
  {
    forall k ensures k in LabelOrder {
      match k
      case Buy => assert LabelOrder[0] == k;
      case Cont => assert LabelOrder[1] == k;
      case ContLimit => assert LabelOrder[2] == k;
      case Div => assert LabelOrder[3] == k;
      case Sell => assert LabelOrder[4] == k;
      case Withdraw => assert LabelOrder[5] == k;
      case Xfer => assert LabelOrder[6] == k;
    }
  }

  /** The label order is the ascending order of the labels. */
  lemma LabelOrderAscending()
    ensures Ascending(LabelOrder)
  {
    var ks := LabelOrder;
    assert LexLess(Label(ks[0]), Label(ks[1]));
    assert LexLess(Label(ks[1]), Label(ks[2])) by {
      assert LexLess("", "_limit");
      assert LexLess("t", "t_limit");
      assert LexLess("nt", "nt_limit");
      assert LexLess("ont", "ont_limit");
    }
    assert LexLess(Label(ks[2]), Label(ks[3]));
    assert LexLess(Label(ks[3]), Label(ks[4]));
    assert LexLess(Label(ks[4]), Label(ks[5]));
    assert LexLess(Label(ks[5]), Label(ks[6]));
    forall i, j | 0 <= i < j < |ks| ensures LexLess(Label(ks[i]), Label(ks[j])) {
      ChainAscending(ks, i, j);
    }
  }

  /** The report: the grouped rows, then the contribution room as a row of count one.
      Grouping leaves out empty groups and sorts the rest by label. */
  function Summary(log: Log): (rows: seq<SummaryRow>)
    ensures |rows| >= 1
    ensures rows[|rows| - 1] == SummaryRow(RoomLabel, 1, ContRoom(log))
    ensures forall i :: 0 <= i < |rows| - 1 ==> IsGroupRow(log, rows[i])
    ensures forall k :: GroupCount(log, k) > 0 ==> GroupRow(log, k) in rows[..|rows| - 1]
    ensures forall i, j :: 0 <= i < j < |rows| - 1 ==> LexLess(rows[i].group, rows[j].group)
  {
    var groups := GroupRows(log, LabelOrder);
    GroupRowsSound(log, LabelOrder);
    EveryTypeOrdered();
    GroupRowsComplete(log, LabelOrder);
    LabelOrderAscending();
    GroupRowsAscending(log, LabelOrder);
    assert (groups + [SummaryRow(RoomLabel, 1, ContRoom(log))])[..|groups|] == groups;
    groups + [SummaryRow(RoomLabel, 1, ContRoom(log))]
  }

  /** Distinct types have distinct labels, and no type is labelled as the room row. */
  lemma LabelsDistinct(k: TxnType, k': TxnType)
    ensures Label(k) == Label(k') <==> k == k'
    ensures Label(k) != RoomLabel
  {
  }

  /** Every row built over `ks` is the row of a non-empty group of a type of `ks`. */
  lemma {:induction false} ListedGroupPresent(log: Log, ks: seq<TxnType>, i: nat)
    requires i < |GroupRows(log, ks)|
    ensures exists k :: k in ks && GroupCount(log, k) > 0 && GroupRows(log, ks)[i] == GroupRow(log, k)
  {
    var last := ks[|ks| - 1];
    var earlier := GroupRows(log, ks[..|ks| - 1]);
    if i < |earlier| {
      ListedGroupPresent(log, ks[..|ks| - 1], i);
      var k :| k in ks[..|ks| - 1] && GroupCount(log, k) > 0 && earlier[i] == GroupRow(log, k);
      assert k in ks;
    } else {
      assert last in ks;
    }
  }

  /** Every row built over `ks` is the row of some non-empty group. */
  lemma GroupRowsSound(log: Log, ks: seq<TxnType>)
    ensures forall i :: 0 <= i < |GroupRows(log, ks)| ==> IsGroupRow(log, GroupRows(log, ks)[i])
  {
    forall i | 0 <= i < |GroupRows(log, ks)| ensures IsGroupRow(log, GroupRows(log, ks)[i]) {
      ListedGroupPresent(log, ks, i);
    }
  }

  /** A type of `ks` whose group is not empty has a row. */
  lemma {:induction false} PresentGroupListed(log: Log, ks: seq<TxnType>, k: TxnType)
    requires k in ks && GroupCount(log, k) > 0
    ensures exists i :: 0 <= i < |GroupRows(log, ks)| && GroupRows(log, ks)[i] == GroupRow(log, k)
  {
    var last := ks[|ks| - 1];
    var earlier := GroupRows(log, ks[..|ks| - 1]);
    if last == k {
      assert GroupRows(log, ks)[|earlier|] == GroupRow(log, k);
    } else {
      assert k in ks[..|ks| - 1] by {
        var p :| 0 <= p < |ks| && ks[p] == k;
        assert p < |ks| - 1;
        assert ks[..|ks| - 1][p] == k;
      }
      PresentGroupListed(log, ks[..|ks| - 1], k);
      var i :| 0 <= i < |earlier| && earlier[i] == GroupRow(log, k);
      assert GroupRows(log, ks)[i] == earlier[i];
    }
  }

  /** Every type of `ks` whose group is not empty has its row among those built over `ks`. */
  lemma GroupRowsComplete(log: Log, ks: seq<TxnType>)
    ensures forall k :: k in ks && GroupCount(log, k) > 0 ==> GroupRow(log, k) in GroupRows(log, ks)
  {
    forall k | k in ks && GroupCount(log, k) > 0 ensures GroupRow(log, k) in GroupRows(log, ks) {
      PresentGroupListed(log, ks, k);
    }
  }

  /** Rows built over types whose labels ascend have ascending labels. */
  lemma {:induction false} GroupRowsAscending(log: Log, ks: seq<TxnType>)
    requires Ascending(ks)
    ensures forall i, j :: 0 <= i < j < |GroupRows(log, ks)| ==>
      LexLess(GroupRows(log, ks)[i].group, GroupRows(log, ks)[j].group)
    decreases |ks|
  {
    if |ks| > 0 {
      var init := ks[..|ks| - 1];
      var last := ks[|ks| - 1];
      var earlier := GroupRows(log, init);
      assert Ascending(init) by {
        forall i, j | 0 <= i < j < |init| ensures LexLess(Label(init[i]), Label(init[j])) {
          assert init[i] == ks[i] && init[j] == ks[j];
        }
      }
      GroupRowsAscending(log, init);
      if GroupCount(log, last) > 0 {
        var rows := GroupRows(log, ks);
        assert rows == earlier + [GroupRow(log, last)];
        forall i, j | 0 <= i < j < |rows| ensures LexLess(rows[i].group, rows[j].group) {
          if j < |earlier| {
            assert rows[i] == earlier[i] && rows[j] == earlier[j];
          } else {
            EarlierRowBeforeLast(log, ks, i);
            assert rows[i] == earlier[i] && rows[j] == GroupRow(log, last);
          }
        }
      }
    }
  }

  /** A row built over all but the last type of `ks` sorts before the last type's label. */
  lemma EarlierRowBeforeLast(log: Log, ks: seq<TxnType>, i: nat)
    requires Ascending(ks) && |ks| > 0
    requires i < |GroupRows(log, ks[..|ks| - 1])|
    ensures LexLess(GroupRows(log, ks[..|ks| - 1])[i].group, Label(ks[|ks| - 1]))
  {
    var init := ks[..|ks| - 1];
    ListedGroupPresent(log, init, i);
    var k :| k in init && GroupCount(log, k) > 0 && GroupRows(log, init)[i] == GroupRow(log, k);
    var p :| 0 <= p < |init| && init[p] == k;
    assert ks[p] == k;
  }

  /** The summary lists, for every type, a row exactly when its group is not empty,
      and that row holds the group's count and total. */
  lemma SummaryRowListed(log: Log, k: TxnType)
    ensures (exists i :: 0 <= i < |Summary(log)| && Summary(log)[i].group == Label(k))
      <==> GroupCount(log, k) > 0
    ensures forall i :: 0 <= i < |Summary(log)| && Summary(log)[i].group == Label(k) ==>
      Summary(log)[i] == GroupRow(log, k)
  {
    RowsListed(log, Summary(log), k);
  }

  /** Rows of non-empty groups, every non-empty group among them, followed by the room
      row, have a row labelled for `k` exactly when its group is not empty. */
  lemma RowsListed(log: Log, rows: seq<SummaryRow>, k: TxnType)
    requires |rows| >= 1 && rows[|rows| - 1].group == RoomLabel
    requires forall i :: 0 <= i < |rows| - 1 ==> IsGroupRow(log, rows[i])
    requires forall k :: GroupCount(log, k) > 0 ==> GroupRow(log, k) in rows[..|rows| - 1]
    ensures (exists i :: 0 <= i < |rows| && rows[i].group == Label(k)) <==> GroupCount(log, k) > 0
    ensures forall i :: 0 <= i < |rows| && rows[i].group == Label(k) ==> rows[i] == GroupRow(log, k)
  {
    forall i | 0 <= i < |rows| && rows[i].group == Label(k)
      ensures rows[i] == GroupRow(log, k) && GroupCount(log, k) > 0
    {
      LabelsDistinct(k, k);
      assert i < |rows| - 1;
      assert IsGroupRow(log, rows[i]);
      var k' :| GroupCount(log, k') > 0 && rows[i] == GroupRow(log, k');
      LabelsDistinct(k, k');
    }
    if GroupCount(log, k) > 0 {
      assert GroupRow(log, k) in rows[..|rows| - 1];
      var i :| 0 <= i < |rows| - 1 && rows[..|rows| - 1][i] == GroupRow(log, k);
      assert rows[i].group == Label(k);
    }
  }

  /** The summary lists, for every type, a row exactly when some TFSA-related record
      has that type, and that row holds the group's count and total. */
  lemma SummaryRowFor(log: Log, k: TxnType)
    ensures (exists i :: 0 <= i < |Summary(log)| && Summary(log)[i].group == Label(k))
      <==> exists j :: 0 <= j < |log| && InGroup(log[j], k)
    ensures forall i :: 0 <= i < |Summary(log)| && Summary(log)[i].group == Label(k) ==>
      Summary(log)[i] == GroupRow(log, k)
  {
    SummaryRowListed(log, k);
    assert GroupCount(log, k) > 0 <==> exists j :: 0 <= j < |log| && InGroup(log[j], k);
  }

  /** What one record does to the contribution room. */
  function RoomDelta(r: Record): real
  {
    if !InSummary(r) then 0.0
    else
      match r.kind
      case ContLimit | Withdraw => r.total
      case Cont | Xfer => -r.total
      case _ => 0.0
  }

  /** The contribution room accumulated record by record, in append order. */
  function RoomFold(log: Log): real
    decreases |log|
  {
    if |log| == 0 then 0.0 else RoomFold(log[..|log| - 1]) + RoomDelta(log[|log| - 1])
  }

  /** The room the report computes from its group totals is the room accumulated one
      record at a time. */
  lemma {:induction false} ContRoomIsFold(log: Log)
    ensures GroupTotal(log, ContLimit) + GroupTotal(log, Withdraw) - GroupTotal(log, Cont) - GroupTotal(log, Xfer)
      == RoomFold(log)
    decreases |log|
  {
    if |log| > 0 {
      ContRoomIsFold(log[..|log| - 1]);
    }
  }

  /** A successful transaction changes the contribution room by what its own record
      contributes, and a refused one leaves it as it was. */
  lemma RoomAfterStep(b: Book, t: Txn)
    ensures Process(b, t).Ok? ==> ContRoom(Step(b, t).log) == ContRoom(b.log) + RoomDelta(RecordOf(t))
    ensures Process(b, t).Err? ==> ContRoom(Step(b, t).log) == ContRoom(b.log)
  {
    var log' := Step(b, t).log;
    if Process(b, t).Ok? {
      assert log' == b.log + [RecordOf(t)];
      assert log'[..|log'| - 1] == b.log;
    }
  }

  /** A TFSA contribution of `amount` uses up that much room (plus fees, which the
      record's total includes), a TFSA limit adds as much, and a TFSA withdrawal
      gives its amount back. */
  lemma TfsaCashEvents(b: Book, t: Txn)
    requires t.account == Tfsa && t.units == 1
    ensures t.kind == Cont && Process(b, t).Ok? ==>
      ContRoom(Step(b, t).log) == ContRoom(b.log) - (t.amount + t.fees)
    ensures t.kind == Withdraw && Process(b, t).Ok? ==>
      ContRoom(Step(b, t).log) == ContRoom(b.log) + t.amount
    ensures t.kind == ContLimit && Process(b, t).Ok? ==>
      ContRoom(Step(b, t).log) == ContRoom(b.log) + (t.amount + t.fees)
  {
    RoomAfterStep(b, t);
  }

  /** Appending a record adds it to its own group and leaves the other groups alone. */
  lemma GroupAppend(log: Log, r: Record, k: TxnType)
    ensures GroupCount(log + [r], k) == GroupCount(log, k) + (if InGroup(r, k) then 1 else 0)
    ensures GroupTotal(log + [r], k) == GroupTotal(log, k) + (if InGroup(r, k) then r.total else 0.0)
  {
    assert (log + [r])[..|log|] == log;
  }

  /** A history of one TFSA contribution limit, one TFSA contribution, one TFSA
      withdrawal and one transfer into the TFSA, in that order, followed by a record
      the summary does not look at. */
  predicate FourTfsaEvents(lim: Record, c: Record, w: Record, x: Record, other: Record)
  {
    && lim.kind == ContLimit && lim.account == Tfsa
    && c.kind == Cont && c.account == Tfsa
    && w.kind == Withdraw && w.account == Tfsa
    && x.kind == Xfer && x.xferAccount == Some(Tfsa)
    && !InSummary(other)
  }

  /** The groups of a five-record history, record by record. */
  lemma FiveRecordGroups(r0: Record, r1: Record, r2: Record, r3: Record, r4: Record, k: TxnType)
    ensures GroupCount([r0, r1, r2, r3, r4], k) ==
      (if InGroup(r0, k) then 1 else 0) + (if InGroup(r1, k) then 1 else 0) + (if InGroup(r2, k) then 1 else 0)
      + (if InGroup(r3, k) then 1 else 0) + (if InGroup(r4, k) then 1 else 0)
    ensures GroupTotal([r0, r1, r2, r3, r4], k) ==
      (if InGroup(r0, k) then r0.total else 0.0) + (if InGroup(r1, k) then r1.total else 0.0)
      + (if InGroup(r2, k) then r2.total else 0.0) + (if InGroup(r3, k) then r3.total else 0.0)
      + (if InGroup(r4, k) then r4.total else 0.0)
  {
    assert [r0, r1, r2, r3, r4] == [] + [r0] + [r1] + [r2] + [r3] + [r4];
    GroupAppend([], r0, k);
    GroupAppend([] + [r0], r1, k);
    GroupAppend([] + [r0] + [r1], r2, k);
    GroupAppend([] + [r0] + [r1] + [r2], r3, k);
    GroupAppend([] + [r0] + [r1] + [r2] + [r3], r4, k);
  }

  /** In such a history each of the four kinds forms a group of one, the other kinds
      form no group, and the room is the limit plus the withdrawal less the
      contribution and the transfer. */
  lemma FourTfsaEventsSummary(lim: Record, c: Record, w: Record, x: Record, other: Record)
    requires FourTfsaEvents(lim, c, w, x, other)
    ensures var log := [lim, c, w, x, other];
      && GroupRow(log, ContLimit) == SummaryRow("cont_limit", 1, lim.total)
      && GroupRow(log, Cont) == SummaryRow("cont", 1, c.total)
      && GroupRow(log, Withdraw) == SummaryRow("withdraw", 1, w.total)
      && GroupRow(log, Xfer) == SummaryRow("xfer_in", 1, x.total)
      && GroupCount(log, Buy) == 0 && GroupCount(log, Div) == 0 && GroupCount(log, Sell) == 0
      && ContRoom(log) == lim.total + w.total - c.total - x.total
  {
    FiveRecordGroups(lim, c, w, x, other, Buy);
    FiveRecordGroups(lim, c, w, x, other, Cont);
    FiveRecordGroups(lim, c, w, x, other, ContLimit);
    FiveRecordGroups(lim, c, w, x, other, Div);
    FiveRecordGroups(lim, c, w, x, other, Sell);
    FiveRecordGroups(lim, c, w, x, other, Withdraw);
    FiveRecordGroups(lim, c, w, x, other, Xfer);
  }

  /** A worked instance: a limit of 6000, a contribution of 1000, a withdrawal of 200
      and a transfer in of 300 leave a room of 4900, whatever a margin contribution
      after them adds. */
  lemma WorkedExample()
    ensures ContRoom([
      Record(1, ContLimit, "any", Tfsa, None, 1, 6000.0, 0.0, 6000.0),
      Record(2, Cont, "cash", Tfsa, None, 1, 1000.0, 0.0, 1000.0),
      Record(3, Withdraw, "cash", Tfsa, None, 1, 200.0, 0.0, 200.0),
      Record(4, Xfer, "TD", Margin, Some(Tfsa), 10, 30.0, 0.0, 300.0),
      Record(5, Cont, "cash", Margin, None, 1, 500.0, 0.0, 500.0)]) == 4900.0
  {
    FourTfsaEventsSummary(
      Record(1, ContLimit, "any", Tfsa, None, 1, 6000.0, 0.0, 6000.0),
      Record(2, Cont, "cash", Tfsa, None, 1, 1000.0, 0.0, 1000.0),
      Record(3, Withdraw, "cash", Tfsa, None, 1, 200.0, 0.0, 200.0),
      Record(4, Xfer, "TD", Margin, Some(Tfsa), 10, 30.0, 0.0, 300.0),
      Record(5, Cont, "cash", Margin, None, 1, 500.0, 0.0, 500.0));
  }
}
