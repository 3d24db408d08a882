/**
 * `DataProcessor.process_data` and the helpers it calls: tickets split into
 * pending and resolved by their status, value counts of the categorical
 * columns, and resolution times in whole days.
 */
module Classify {
  import opened Wrappers
  import opened Calendar
  import opened Frame
  import opened Aggregate

  const StatusColumn: string := "Status"
  const CreatedColumn: string := "Created Date"
  const ResolvedColumn: string := "Resolved Date"

  /** The statuses that count a ticket as resolved. */
  const ResolvedStatuses: seq<string> := ["Closed", "Completed", "Auto Completed"]

  /** The statuses that keep a ticket out of the pending bucket: the resolved ones and `Discard`. */
  const NotPendingStatuses: seq<string> := ResolvedStatuses + ["Discard"]

  /** `series.isin(names)` on one cell: a text equal to one of `names`; a null is never in the list. */
  predicate IsIn(c: Cell, names: seq<string>)
  {
    c.Some? && c.value.Str? && c.value.text in names
  }

  /** Where a ticket with this status belongs. */
  datatype Bucket = Pending | Resolved | Discarded

  /** The reference partition: resolved statuses, `Discard`, and everything else (a null status included). */
  function BucketOf(status: Cell): Bucket
  {
    if status == Some(Str("Closed")) || status == Some(Str("Completed")) || status == Some(Str("Auto Completed")) then Resolved
    else if status == Some(Str("Discard")) then Discarded
    else Pending
  }

  /** The two membership tests the code writes out select exactly the pending and the resolved bucket. */
  lemma MasksSelectBuckets(status: Cell)
    ensures !IsIn(status, NotPendingStatuses) <==> BucketOf(status) == Pending
    ensures IsIn(status, ResolvedStatuses) <==> BucketOf(status) == Resolved
  {
    if IsIn(status, NotPendingStatuses) {
      var s := status.value.text;
      assert s == "Closed" || s == "Completed" || s == "Auto Completed" || s == "Discard";
    }
  }

  function StatusOf(columns: seq<string>, row: Row): Cell
  {
    Get(columns, row, StatusColumn)
  }

  /** `~df['Status'].isin(['Closed', 'Completed', 'Auto Completed', 'Discard'])` */
  function PendingMask(columns: seq<string>): Row -> bool
  {
    row => !IsIn(StatusOf(columns, row), NotPendingStatuses)
  }

  /** `df['Status'].isin(['Closed', 'Completed', 'Auto Completed'])` */
  function ResolvedMask(columns: seq<string>): Row -> bool
  {
    row => IsIn(StatusOf(columns, row), ResolvedStatuses)
  }

  /** `df['Status'] == 'Discard'`, which no code computes but which the two masks leave over. */
  function DiscardMask(columns: seq<string>): Row -> bool
  {
    row => BucketOf(StatusOf(columns, row)) == Discarded
  }

  /** The masks agree with the reference partition on every row. */
  lemma MasksAgree(columns: seq<string>)
    ensures forall row :: PendingMask(columns)(row) <==> BucketOf(StatusOf(columns, row)) == Pending
    ensures forall row :: ResolvedMask(columns)(row) <==> BucketOf(StatusOf(columns, row)) == Resolved
  {
    forall row ensures PendingMask(columns)(row) <==> BucketOf(StatusOf(columns, row)) == Pending {
      MasksSelectBuckets(StatusOf(columns, row));
    }
    forall row ensures ResolvedMask(columns)(row) <==> BucketOf(StatusOf(columns, row)) == Resolved {
      MasksSelectBuckets(StatusOf(columns, row));
    }
  }

  /** `get_pending_tickets(df)`: the rows whose status is neither resolved nor `Discard`; an empty frame without a status column. */
  function PendingTickets(t: Table): (r: Table)
    ensures StatusColumn !in t.columns ==> r == EmptyFrame
    ensures StatusColumn in t.columns ==> r.columns == t.columns && IsSubsequence(r.rows, t.rows)
    ensures StatusColumn in t.columns ==>
      forall row :: row in r.rows <==> row in t.rows && BucketOf(StatusOf(t.columns, row)) == Pending
    ensures WellFormed(t) ==> WellFormed(r)
  {
    if StatusColumn !in t.columns then EmptyFrame
    else
      MasksAgree(t.columns);
      FilterIsSubsequence(t.rows, PendingMask(t.columns));
      WhereRows(t, PendingMask(t.columns))
  }

  /** `get_resolved_tickets(df)`: the rows whose status is resolved; an empty frame without a status column. */
  function ResolvedTickets(t: Table): (r: Table)
    ensures StatusColumn !in t.columns ==> r == EmptyFrame
    ensures StatusColumn in t.columns ==> r.columns == t.columns && IsSubsequence(r.rows, t.rows)
    ensures StatusColumn in t.columns ==>
      forall row :: row in r.rows <==> row in t.rows && BucketOf(StatusOf(t.columns, row)) == Resolved
    ensures WellFormed(t) ==> WellFormed(r)
  {
    if StatusColumn !in t.columns then EmptyFrame
    else
      MasksAgree(t.columns);
      FilterIsSubsequence(t.rows, ResolvedMask(t.columns));
      WhereRows(t, ResolvedMask(t.columns))
  }

  /** No row is both pending and resolved, and a `Discard` row is neither. */
  lemma BucketsDisjoint(t: Table, row: Row)
    ensures !(row in PendingTickets(t).rows && row in ResolvedTickets(t).rows)
    ensures BucketOf(StatusOf(t.columns, row)) == Discarded ==> row !in PendingTickets(t).rows && row !in ResolvedTickets(t).rows
  {
  }

  /** Every row is counted in exactly one of pending, resolved and `Discard`. */
  lemma BucketsPartition(t: Table)
    requires StatusColumn in t.columns
    ensures |PendingTickets(t).rows| + |ResolvedTickets(t).rows| + Count(t.rows, DiscardMask(t.columns)) == |t.rows|
  {
    var columns := t.columns;
    var kept := (row: Row) => BucketOf(StatusOf(columns, row)) != Discarded;
    MasksAgree(columns);
    FilterLength(t.rows, PendingMask(columns));
    FilterLength(t.rows, ResolvedMask(columns));
    CountDisjointUnion(t.rows, PendingMask(columns), ResolvedMask(columns), kept);
    CountComplement(t.rows, kept, DiscardMask(columns));
  }

  /**
   * `df[name].value_counts()`, or an empty Series when the column is absent:
   * one entry per distinct non-null value of the column, each with the
   * positive number of rows holding it, most frequent first, adding up to
   * the number of non-null cells.
   */
  function Distribution(t: Table, name: string): (r: Counts<Value>)
    ensures name !in t.columns ==> r == []
    ensures name in t.columns ==> Tallies(r, NonNull(Column(t, name))) && NonIncreasing(r)
    ensures name in t.columns ==> Total(r) == Count(Column(t, name), (c: Cell) => c.Some?)
    ensures name in t.columns ==> forall v :: CountFor(r, v) == multiset(Column(t, name))[Some(v)]
  {
    if name !in t.columns then [] else ValueCounts(Column(t, name))
  }

  /** The resolution time of one row, when both of its dates are timestamps. */
  function ResolutionDays(columns: seq<string>, row: Row): Option<int>
  {
    match (TimeOf(Get(columns, row, CreatedColumn)), TimeOf(Get(columns, row, ResolvedColumn)))
    case (Some(created), Some(resolved)) => Some(WholeDays(created, resolved))
    case _ => None
  }

  /** `(df['Resolved Date'] - df['Created Date']).dt.days.dropna()` over some rows. */
  function DaysToResolve(columns: seq<string>, rows: seq<Row>): (r: seq<int>)
    ensures |r| <= |rows|
  {
    if rows == [] then []
    else
      match ResolutionDays(columns, rows[0])
      case Some(days) => [days] + DaysToResolve(columns, rows[1..])
      case None => DaysToResolve(columns, rows[1..])
  }

  predicate HasBothDates(columns: seq<string>, row: Row)
  {
    ResolutionDays(columns, row).Some?
  }

  /** The rows whose two dates are both timestamps, in their original order. */
  function Dated(columns: seq<string>, rows: seq<Row>): seq<Row>
  {
    Filter(rows, (row: Row) => HasBothDates(columns, row))
  }

  /**
   * `dropna()` keeps one value per row with both dates: the k-th value is
   * the resolution time of the k-th such row.
   */
  lemma {:induction false} DaysToResolveMeaning(columns: seq<string>, rows: seq<Row>)
    ensures |DaysToResolve(columns, rows)| == |Dated(columns, rows)| == Count(rows, (row: Row) => HasBothDates(columns, row))
    ensures forall k :: 0 <= k < |Dated(columns, rows)| ==>
      ResolutionDays(columns, Dated(columns, rows)[k]) == Some(DaysToResolve(columns, rows)[k])
  {
    FilterLength(rows, (row: Row) => HasBothDates(columns, row));
    if rows != [] {
      DaysToResolveMeaning(columns, rows[1..]);
      var rest := DaysToResolve(columns, rows[1..]);
      match ResolutionDays(columns, rows[0])
      case Some(days) =>
        assert Dated(columns, rows) == [rows[0]] + Dated(columns, rows[1..]);
        assert DaysToResolve(columns, rows) == [days] + rest;
      case None =>
        assert Dated(columns, rows) == Dated(columns, rows[1..]);
        assert DaysToResolve(columns, rows) == rest;
    }
  }

  /**
   * `calculate_resolution_time(df)`: the whole days from creation to
   * resolution of each resolved ticket with both dates; empty when either
   * date column is absent or nothing is resolved.
   */
  function CalculateResolutionTime(t: Table): (r: seq<int>)
    ensures CreatedColumn !in t.columns || ResolvedColumn !in t.columns ==> r == []
    ensures |r| <= |ResolvedTickets(t).rows|
  {
    if CreatedColumn !in t.columns || ResolvedColumn !in t.columns then []
    else
      var resolved := ResolvedTickets(t);
      if IsEmpty(resolved) then [] else DaysToResolve(resolved.columns, resolved.rows)
  }

  /**
   * The resolution times correspond one to one, in order, to the resolved
   * rows of `t` with both dates: the k-th time is the floor-day difference
   * of the k-th such row.
   */
  lemma ResolutionTimesFromResolvedRows(t: Table)
    requires CreatedColumn in t.columns && ResolvedColumn in t.columns && StatusColumn in t.columns
    ensures IsSubsequence(Dated(t.columns, ResolvedTickets(t).rows), t.rows)
    ensures forall row :: row in Dated(t.columns, ResolvedTickets(t).rows) <==>
      row in t.rows && BucketOf(StatusOf(t.columns, row)) == Resolved && HasBothDates(t.columns, row)
    ensures |CalculateResolutionTime(t)| == |Dated(t.columns, ResolvedTickets(t).rows)|
    ensures forall k :: 0 <= k < |CalculateResolutionTime(t)| ==>
      exists created, resolved ::
        TimeOf(Get(t.columns, Dated(t.columns, ResolvedTickets(t).rows)[k], CreatedColumn)) == Some(created) &&
        TimeOf(Get(t.columns, Dated(t.columns, ResolvedTickets(t).rows)[k], ResolvedColumn)) == Some(resolved) &&
        CalculateResolutionTime(t)[k] == WholeDays(created, resolved)
  {
    var resolved := ResolvedTickets(t);
    var dated := Dated(t.columns, resolved.rows);
    var p := (row: Row) => HasBothDates(t.columns, row);
    DaysToResolveMeaning(resolved.columns, resolved.rows);
    FilterIsSubsequence(resolved.rows, p);
    SubsequenceTransitive(dated, resolved.rows, t.rows);
    FilterMembers(resolved.rows, p);
    forall row | row in dated
      ensures row in resolved.rows && HasBothDates(t.columns, row)
    {
      var i :| 0 <= i < |dated| && dated[i] == row;
    }
    forall row | row in resolved.rows && HasBothDates(t.columns, row)
      ensures row in dated
    {
      var i :| 0 <= i < |resolved.rows| && resolved.rows[i] == row;
    }
    if IsEmpty(resolved) {
      assert resolved.rows == [];
    }
    var days := CalculateResolutionTime(t);
    forall k | 0 <= k < |days|
      ensures exists created, resolved ::
        TimeOf(Get(t.columns, dated[k], CreatedColumn)) == Some(created) &&
        TimeOf(Get(t.columns, dated[k], ResolvedColumn)) == Some(resolved) &&
        days[k] == WholeDays(created, resolved)
    {
      assert ResolutionDays(t.columns, dated[k]) == Some(days[k]);
      var created := TimeOf(Get(t.columns, dated[k], CreatedColumn)).value;
      var done := TimeOf(Get(t.columns, dated[k], ResolvedColumn)).value;
      assert days[k] == WholeDays(created, done);
    }
  }

  /** The dictionary `process_data` returns. */
  datatype Processed = Processed(
    total: nat,
    pending: Table,
    resolved: Table,
    statuses: Counts<Value>,
    users: Counts<Value>,
    companies: Counts<Value>,
    priorities: Counts<Value>)

  /** `process_data(df)` */
  function ProcessData(t: Table): Processed
  {
    Processed(|t.rows|, PendingTickets(t), ResolvedTickets(t),
      Distribution(t, StatusColumn), Distribution(t, "Assigned User"), Distribution(t, "Company"), Distribution(t, "Priority"))
  }

  /** The total is the pending and resolved counts plus the `Discard` rows, which neither bucket holds. */
  lemma ProcessedTotals(t: Table)
    requires StatusColumn in t.columns
    ensures ProcessData(t).total == |ProcessData(t).pending.rows| + |ProcessData(t).resolved.rows| + Count(t.rows, DiscardMask(t.columns))
  {
    BucketsPartition(t);
  }
}
