/**
 * The data computed by `TicketVisualizer`: the counts behind each chart
 * and the two display tables. Figure construction is not modelled; a chart
 * method yields the series it would plot.
 */
module Charts {
  import opened Wrappers
  import opened Calendar
  import opened Frame
  import opened Aggregate
  import opened Classify

  const IdColumn: string := "Ticket ID"
  const DateColumn: string := "Date"

  /**
   * What a chart or table method yields: `Nothing` for its early `return
   * None`, `Shown` with the data it plots or returns, or the `KeyError` that
   * indexing an absent column raises.
   */
  datatype Outcome<T> = Nothing | Shown(value: T) | KeyError(column: string)

  /** `pd.to_datetime(cell).dt.date` */
  function DateCell(c: Cell): (r: Cell)
    ensures DateOf(r) == DateOf(c)
  {
    match DateOf(c)
    case Some(d) => Some(Day(d))
    case None => None
  }

  /** `pd.to_datetime(cell).dt.strftime('%Y-%m-%d')`; NaT stays null. */
  function FormatDate(c: Cell): (r: Cell)
    ensures r.None? <==> DateOf(c).None?
  {
    match DateOf(c)
    case Some(d) => Some(Str(IsoDate(d)))
    case None => None
  }

  /** A formatted date reads back as the day it was formatted from. */
  lemma FormatDateRoundTrip(c: Cell)
    requires DateOf(c).Some? && 0 <= CivilFromDays(DateOf(c).value).year <= 9999
    ensures FormatDate(c).Some? && FormatDate(c).value.Str?
    ensures ParseIsoDate(FormatDate(c).value.text) == DateOf(c)
  {
    IsoDateRoundTrip(DateOf(c).value);
  }

  /** Sequences of cells holding the same days, position by position, have the same non-null days. */
  lemma {:induction false} DaysOfCongruent(a: seq<Cell>, b: seq<Cell>)
    requires |a| == |b| && forall i :: 0 <= i < |a| ==> DateOf(a[i]) == DateOf(b[i])
    ensures DaysOf(a) == DaysOf(b)
  {
    if a != [] {
      DaysOfCongruent(a[1..], b[1..]);
    }
  }

  // ---------------------------------------------------------------------
  // The composite daily chart

  /** One point of the daily chart: the date and its total, resolved and pending ticket counts. */
  datatype DailyTotals = DailyTotals(date: int, total: nat, resolved: nat, pending: nat)

  /** A row dated `d` in the `Date` column whose ticket id is not null: what `agg(count=('Ticket ID', 'count'))` counts. */
  function DatedWithId(columns: seq<string>, d: int): Row -> bool
  {
    row => DateOf(Get(columns, row, DateColumn)) == Some(d) && Get(columns, row, IdColumn).Some?
  }

  /**
   * The `daily_data` frame: every date of the `Date` column once, ascending,
   * with the ticket ids counted over all rows, over the resolved rows and
   * over the pending rows; a date missing from a left-joined side counts 0.
   */
  function Composite(t: Table): seq<DailyTotals>
  {
    var groups := GroupByDay(DaysOf(Column(t, DateColumn)));
    var resolved := Filter(t.rows, ResolvedMask(t.columns));
    var pending := Filter(t.rows, PendingMask(t.columns));
    seq(|groups|, k requires 0 <= k < |groups| =>
      DailyTotals(groups[k].0,
        Count(t.rows, DatedWithId(t.columns, groups[k].0)),
        Count(resolved, DatedWithId(t.columns, groups[k].0)),
        Count(pending, DatedWithId(t.columns, groups[k].0))))
  }

  /** On every date the resolved and the pending counts together stay within the total. */
  lemma DailySplitWithinTotal(t: Table, d: int)
    ensures Count(Filter(t.rows, ResolvedMask(t.columns)), DatedWithId(t.columns, d))
          + Count(Filter(t.rows, PendingMask(t.columns)), DatedWithId(t.columns, d))
         <= Count(t.rows, DatedWithId(t.columns, d))
  {
    var columns := t.columns;
    var dated := DatedWithId(columns, d);
    var resolvedDated := (row: Row) => ResolvedMask(columns)(row) && dated(row);
    var pendingDated := (row: Row) => PendingMask(columns)(row) && dated(row);
    var either := (row: Row) => resolvedDated(row) || pendingDated(row);
    MasksAgree(columns);
    CountOfFilter(t.rows, ResolvedMask(columns), dated, resolvedDated);
    CountOfFilter(t.rows, PendingMask(columns), dated, pendingDated);
    CountDisjointUnion(t.rows, resolvedDated, pendingDated, either);
    CountMonotone(t.rows, either, dated);
  }

  /**
   * The composite chart has one point per distinct non-null date, in
   * strictly ascending order, and on each date resolved + pending <= total.
   */
  lemma CompositeProperties(t: Table)
    ensures forall i, j :: 0 <= i < j < |Composite(t)| ==> Composite(t)[i].date < Composite(t)[j].date
    ensures forall d :: d in DaysOf(Column(t, DateColumn)) <==> exists k :: 0 <= k < |Composite(t)| && Composite(t)[k].date == d
    ensures forall k :: 0 <= k < |Composite(t)| ==> Composite(t)[k].resolved + Composite(t)[k].pending <= Composite(t)[k].total
  {
    var days := DaysOf(Column(t, DateColumn));
    var groups := GroupByDay(days);
    var r := Composite(t);
    forall d ensures d in days <==> exists k :: 0 <= k < |r| && r[k].date == d {
      TalliesKeys(groups, days, d);
      if d in days {
        var k :| 0 <= k < |groups| && groups[k].0 == d;
        assert r[k].date == d;
      }
    }
    forall k | 0 <= k < |r| ensures r[k].resolved + r[k].pending <= r[k].total {
      DailySplitWithinTotal(t, groups[k].0);
    }
  }

  /** The `Date` column `create_daily_tickets_line_chart` adds: the calendar day of each creation time. */
  function CreatedDay(columns: seq<string>): Row -> Cell
  {
    row => DateCell(Get(columns, row, CreatedColumn))
  }

  function WithDateColumn(t: Table): (r: Table)
    requires WellFormed(t)
    ensures WellFormed(r) && |r.rows| == |t.rows|
  {
    SetColumn(t, DateColumn, CreatedDay(t.columns))
  }

  /** After the `Date` column is added, its days are exactly the days of the creation dates, row by row. */
  lemma WithDateColumnDays(t: Table)
    requires WellFormed(t)
    ensures DaysOf(Column(WithDateColumn(t), DateColumn)) == DaysOf(Column(t, CreatedColumn))
  {
    DaysOfCongruent(Column(WithDateColumn(t), DateColumn), Column(t, CreatedColumn));
  }

  // ---------------------------------------------------------------------
  // The display tables

  function InColumns(columns: seq<string>): string -> bool
  {
    name => name in columns
  }

  /** The names of a fixed list that are columns, in the list's order. */
  function Present(names: seq<string>, columns: seq<string>): (r: seq<string>)
    ensures IsSubsequence(r, names)
    ensures forall name :: name in r <==> name in names && name in columns
  {
    FilterIsSubsequence(names, InColumns(columns));
    FilterMembers(names, InColumns(columns));
    var r := Filter(names, InColumns(columns));
    forall name | name in names && name in columns ensures name in r {
      var i :| 0 <= i < |names| && names[i] == name;
    }
    forall name | name in r ensures name in names && name in columns {
      var i :| 0 <= i < |r| && r[i] == name;
    }
    r
  }

  /** The columns `get_pending_tickets_table` shows, in order, when present. */
  const PendingDisplayColumns: seq<string> := ["Ticket ID", "Status", "Assigned User", "Assigned By", "Priority", "Created Date", "Company"]

  /** The columns `get_resolved_tickets_table` shows, in order, when present. */
  const ResolvedDisplayColumns: seq<string> :=
    ["Ticket ID", "Status", "Resolver", "Assigned By", "Priority", "Created Date", "Resolved Date", "Company"]

  /** `t[shown]` with the columns labelled in `dates` formatted as `YYYY-MM-DD`. */
  function Formatted(t: Table, shown: seq<string>, dates: seq<string>): (r: Table)
    ensures r.columns == shown && |r.rows| == |t.rows| && WellFormed(r)
  {
    Table(shown, seq(|t.rows|, i requires 0 <= i < |t.rows| =>
      seq(|shown|, j requires 0 <= j < |shown| =>
        if shown[j] in dates then FormatDate(Get(t.columns, t.rows[i], shown[j])) else Get(t.columns, t.rows[i], shown[j]))))
  }

  /**
   * The display table: the present subset of `names`, in their order, one
   * row per row of `t`, each cell the row's value under that column, dates
   * formatted.
   */
  function DisplayTable(t: Table, names: seq<string>, dates: seq<string>): (r: Table)
    ensures r.columns == Present(names, t.columns) && |r.rows| == |t.rows| && WellFormed(r)
    ensures forall i, j :: 0 <= i < |t.rows| && 0 <= j < |r.columns| ==>
      r.rows[i][j] == if r.columns[j] in dates then FormatDate(Get(t.columns, t.rows[i], r.columns[j])) else Get(t.columns, t.rows[i], r.columns[j])
  {
    Formatted(t, Present(names, t.columns), dates)
  }

  /** Selecting the columns is formatting none of them. */
  lemma SelectIsUnformatted(t: Table, shown: seq<string>)
    ensures Select(t, shown) == Formatted(t, shown, [])
  {
    forall i | 0 <= i < |t.rows| ensures Select(t, shown).rows[i] == Formatted(t, shown, []).rows[i] {
    }
  }

  /** Formatting one more date column, not formatted before. */
  lemma FormatStep(t: Table, shown: seq<string>, done: seq<string>, name: string)
    requires name !in done
    ensures MapColumn(Formatted(t, shown, done), name, FormatDate) == Formatted(t, shown, done + [name])
  {
    var after := MapColumn(Formatted(t, shown, done), name, FormatDate);
    forall i | 0 <= i < |t.rows| ensures after.rows[i] == Formatted(t, shown, done + [name]).rows[i] {
    }
  }

  /** A date name no shown column carries changes nothing. */
  lemma FormatAbsent(t: Table, shown: seq<string>, done: seq<string>, name: string)
    requires name !in shown
    ensures Formatted(t, shown, done) == Formatted(t, shown, done + [name])
  {
    forall i | 0 <= i < |t.rows| ensures Formatted(t, shown, done).rows[i] == Formatted(t, shown, done + [name]).rows[i] {
    }
  }

  /** `if name in columns: display_columns.append(name)`, the `k`-th such step over `names`. */
  method AppendIfPresent(display: seq<string>, name: string, columns: seq<string>, ghost names: seq<string>, ghost k: nat)
    returns (r: seq<string>)
    requires k < |names| && names[k] == name && display == Present(names[..k], columns)
    ensures r == Present(names[..k + 1], columns)
  {
    assert names[..k + 1] == names[..k] + [name];
    FilterSnoc(names[..k], name, InColumns(columns));
    r := if name in columns then display + [name] else display;
  }

  /** The `display_columns` list `get_pending_tickets_table` builds. */
  method PendingDisplay(columns: seq<string>) returns (display: seq<string>)
    ensures display == Present(PendingDisplayColumns, columns)
  {
    ghost var names := PendingDisplayColumns;
    display := [];
    display := AppendIfPresent(display, "Ticket ID", columns, names, 0);
    display := AppendIfPresent(display, "Status", columns, names, 1);
    display := AppendIfPresent(display, "Assigned User", columns, names, 2);
    display := AppendIfPresent(display, "Assigned By", columns, names, 3);
    display := AppendIfPresent(display, "Priority", columns, names, 4);
    display := AppendIfPresent(display, "Created Date", columns, names, 5);
    display := AppendIfPresent(display, "Company", columns, names, 6);
    assert names[..7] == names;
  }

  /** The `display_columns` list `get_resolved_tickets_table` builds. */
  method ResolvedDisplay(columns: seq<string>) returns (display: seq<string>)
    ensures display == Present(ResolvedDisplayColumns, columns)
  {
    ghost var names := ResolvedDisplayColumns;
    display := [];
    display := AppendIfPresent(display, "Ticket ID", columns, names, 0);
    display := AppendIfPresent(display, "Status", columns, names, 1);
    display := AppendIfPresent(display, "Resolver", columns, names, 2);
    display := AppendIfPresent(display, "Assigned By", columns, names, 3);
    display := AppendIfPresent(display, "Priority", columns, names, 4);
    display := AppendIfPresent(display, "Created Date", columns, names, 5);
    display := AppendIfPresent(display, "Resolved Date", columns, names, 6);
    display := AppendIfPresent(display, "Company", columns, names, 7);
    assert names[..8] == names;
  }

  /** `table_data[name] = pd.to_datetime(table_data[name]).dt.strftime('%Y-%m-%d')` when the column is shown. */
  method FormatIfShown(table: Table, ghost t: Table, ghost done: seq<string>, name: string) returns (r: Table)
    requires table == Formatted(t, table.columns, done) && name !in done
    ensures r == Formatted(t, table.columns, done + [name])
  {
    if name in table.columns {
      FormatStep(t, table.columns, done, name);
      r := MapColumn(table, name, FormatDate);
    } else {
      FormatAbsent(t, table.columns, done, name);
      r := table;
    }
  }

  // ---------------------------------------------------------------------
  // The visualizer

  /** A `TicketVisualizer` holds the (cleaned, possibly filtered) data it plots. */
  class TicketVisualizer {
    var data: Table

    predicate Valid()
      reads this
    {
      WellFormed(data)
    }

    constructor(data: Table)
      requires WellFormed(data)
      ensures Valid() && this.data == data
    {
      this.data := data;
    }

    /**
     * `create_status_distribution_chart`: the pending count (neither
     * resolved nor `Discard`) and the resolved count; nothing without a
     * status column, for empty data, or when both counts are zero.
     */
    function StatusDistributionChart(): (r: Outcome<(nat, nat)>)
      reads this
      ensures !r.KeyError?
      ensures r.Shown? <==> (StatusColumn in data.columns && !IsEmpty(data)
        && |PendingTickets(data).rows| + |ResolvedTickets(data).rows| > 0)
      ensures r.Shown? ==> r.value == (|PendingTickets(data).rows|, |ResolvedTickets(data).rows|)
      ensures r.Shown? ==> r.value.0 + r.value.1 + Count(data.rows, DiscardMask(data.columns)) == |data.rows|
    {
      if StatusColumn !in data.columns || IsEmpty(data) then Nothing
      else
        var pending := |WhereRows(data, PendingMask(data.columns)).rows|;
        var resolved := |WhereRows(data, ResolvedMask(data.columns)).rows|;
        BucketsPartition(data);
        if pending + resolved == 0 then Nothing else Shown((pending, resolved))
    }

    /**
     * `create_timeline_chart`, `create_daily_assigned_chart` (on `Created
     * Date`) and `create_daily_resolved_chart` (on `Resolved Date`): rows
     * per calendar day, one entry per distinct non-null date, ascending,
     * adding up to the number of rows with a date.
     */
    function DailyCounts(name: string): (r: Outcome<Counts<int>>)
      reads this
      ensures r.Nothing? <==> name !in data.columns || IsEmpty(data)
      ensures !r.KeyError?
      ensures r.Shown? ==> StrictlyAscending(r.value) && Tallies(r.value, DaysOf(Column(data, name)))
      ensures r.Shown? ==> Total(r.value) == Count(Column(data, name), (c: Cell) => DateOf(c).Some?)
    {
      if name !in data.columns || IsEmpty(data) then Nothing
      else Shown(GroupByDay(DaysOf(Column(data, name))))
    }

    /** `create_priority_distribution_chart`: the value counts of a column, when it is present and there is data. */
    function ValueCountsChart(name: string): (r: Outcome<Counts<Value>>)
      reads this
      ensures r.Nothing? <==> name !in data.columns || IsEmpty(data)
      ensures !r.KeyError?
      ensures r.Shown? ==> (Tallies(r.value, NonNull(Column(data, name)))
        && Total(r.value) == Count(Column(data, name), (c: Cell) => c.Some?))
    {
      if name !in data.columns || IsEmpty(data) then Nothing
      else Shown(Distribution(data, name))
    }

    /**
     * `create_pending_status_pie`, `create_pending_by_status_chart` (on
     * `Status`) and `create_pending_by_user_chart` (on `Assigned User`):
     * the value counts of a column over the pending rows. The status
     * column is indexed unchecked, so its absence raises.
     */
    function PendingBy(name: string): (r: Outcome<Counts<Value>>)
      reads this
      ensures r.KeyError? <==> name in data.columns && !IsEmpty(data) && StatusColumn !in data.columns
      ensures r.KeyError? ==> r.column == StatusColumn
      ensures r.Shown? <==> name in data.columns && !IsEmpty(data) && StatusColumn in data.columns && PendingTickets(data).rows != []
      ensures r.Shown? ==> (Tallies(r.value, NonNull(Column(PendingTickets(data), name)))
        && Total(r.value) == Count(Column(PendingTickets(data), name), (c: Cell) => c.Some?))
    {
      if name !in data.columns || IsEmpty(data) then Nothing
      else if StatusColumn !in data.columns then KeyError(StatusColumn)
      else
        var pending := PendingTickets(data);
        if IsEmpty(pending) then Nothing else Shown(Distribution(pending, name))
    }

    /**
     * `create_resolved_status_pie` (on `Status`) and
     * `create_resolved_by_resolver_chart` (on `Resolver`): the value counts
     * of a column over the resolved rows; nothing when there are none or
     * the column is null on all of them.
     */
    function ResolvedBy(name: string): (r: Outcome<Counts<Value>>)
      reads this
      ensures r.KeyError? <==> name in data.columns && !IsEmpty(data) && StatusColumn !in data.columns
      ensures r.KeyError? ==> r.column == StatusColumn
      ensures r.Shown? <==> (name in data.columns && !IsEmpty(data) && StatusColumn in data.columns
        && ResolvedTickets(data).rows != [] && Count(Column(ResolvedTickets(data), name), (c: Cell) => c.Some?) > 0)
      ensures r.Shown? ==> Tallies(r.value, NonNull(Column(ResolvedTickets(data), name))) && r.value != []
    {
      if name !in data.columns || IsEmpty(data) then Nothing
      else if StatusColumn !in data.columns then KeyError(StatusColumn)
      else
        var resolved := ResolvedTickets(data);
        if IsEmpty(resolved) || Count(Column(resolved, name), (c: Cell) => c.Some?) == 0 then Nothing
        else Shown(Distribution(resolved, name))
    }

    /**
     * `create_resolution_time_chart`: the whole days from creation to
     * resolution of the resolved rows with both dates, which is what
     * `calculate_resolution_time` computes; nothing when there are none.
     */
    function ResolutionTimeChart(): (r: Outcome<seq<int>>)
      reads this
      ensures r.Nothing? <==> (CreatedColumn !in data.columns || ResolvedColumn !in data.columns
        || (StatusColumn in data.columns && CalculateResolutionTime(data) == []))
      ensures r.KeyError? <==> CreatedColumn in data.columns && ResolvedColumn in data.columns && StatusColumn !in data.columns
      ensures r.KeyError? ==> r.column == StatusColumn
      ensures r.Shown? ==> r.value == CalculateResolutionTime(data) && r.value != []
    {
      if CreatedColumn !in data.columns || ResolvedColumn !in data.columns then Nothing
      else if StatusColumn !in data.columns then KeyError(StatusColumn)
      else
        var rows := Filter(data.rows, ResolvedWithDates(data.columns));
        ResolvedWithDatesDays(data);
        if rows == [] then Nothing
        else
          var days := DaysToResolve(data.columns, rows);
          if days == [] then Nothing else Shown(days)
    }

    /**
     * `create_day_wise_pending_chart`: the pending rows per creation day,
     * ascending, and their running total, which never decreases and ends
     * at the number of pending rows with a creation date.
     */
    function DayWisePending(): (r: Outcome<Curve>)
      reads this
      ensures r.Nothing? <==> (CreatedColumn !in data.columns || IsEmpty(data)
        || (StatusColumn in data.columns && PendingTickets(data).rows == []))
      ensures r.KeyError? <==> CreatedColumn in data.columns && !IsEmpty(data) && StatusColumn !in data.columns
      ensures r.KeyError? ==> r.column == StatusColumn
      ensures r.Shown? ==> r.value == DailyCurve(PendingTickets(data), CreatedColumn)
    {
      if CreatedColumn !in data.columns || IsEmpty(data) then Nothing
      else if StatusColumn !in data.columns then KeyError(StatusColumn)
      else
        var pending := PendingTickets(data);
        if IsEmpty(pending) then Nothing else Shown(DailyCurve(pending, CreatedColumn))
    }

    /** `create_day_wise_resolved_chart`: as `DayWisePending`, over the resolved rows and their resolution day. */
    function DayWiseResolved(): (r: Outcome<Curve>)
      reads this
      ensures r.Nothing? <==> (ResolvedColumn !in data.columns || IsEmpty(data)
        || (StatusColumn in data.columns && ResolvedTickets(data).rows == []))
      ensures r.KeyError? <==> ResolvedColumn in data.columns && !IsEmpty(data) && StatusColumn !in data.columns
      ensures r.KeyError? ==> r.column == StatusColumn
      ensures r.Shown? ==> r.value == DailyCurve(ResolvedTickets(data), ResolvedColumn)
    {
      if ResolvedColumn !in data.columns || IsEmpty(data) then Nothing
      else if StatusColumn !in data.columns then KeyError(StatusColumn)
      else
        var resolved := ResolvedTickets(data);
        if IsEmpty(resolved) then Nothing else Shown(DailyCurve(resolved, ResolvedColumn))
    }

    /**
     * `create_daily_tickets_line_chart`: adds the `Date` column to the
     * data itself, then counts per date. Without a ticket id column the
     * count raises, after the column has been added.
     */
    method CreateDailyTicketsLineChart() returns (r: Outcome<seq<DailyTotals>>)
      requires Valid()
      modifies this
      ensures Valid()
      ensures CreatedColumn !in old(data).columns || StatusColumn !in old(data).columns || IsEmpty(old(data)) ==>
        r == Nothing && data == old(data)
      ensures !(CreatedColumn !in old(data).columns || StatusColumn !in old(data).columns || IsEmpty(old(data))) ==>
        data == WithDateColumn(old(data)) &&
        r == if IdColumn in data.columns then Shown(Composite(data)) else KeyError(IdColumn)
    {
      if CreatedColumn !in data.columns || StatusColumn !in data.columns || IsEmpty(data) {
        return Nothing;
      }
      data := SetColumn(data, DateColumn, CreatedDay(data.columns));
      if IdColumn !in data.columns {
        return KeyError(IdColumn);
      }
      r := Shown(Composite(data));
    }

    /**
     * `get_pending_tickets_table`: the pending rows with the present
     * display columns, creation date formatted; an empty frame for empty
     * data or no pending rows.
     */
    method PendingTicketsTable() returns (r: Outcome<Table>)
      ensures IsEmpty(data) ==> r == Shown(EmptyFrame)
      ensures !IsEmpty(data) && StatusColumn !in data.columns ==> r == KeyError(StatusColumn)
      ensures !IsEmpty(data) && StatusColumn in data.columns ==>
        r == Shown(if PendingTickets(data).rows == [] then EmptyFrame
                   else DisplayTable(PendingTickets(data), PendingDisplayColumns, [CreatedColumn]))
    {
      if IsEmpty(data) {
        return Shown(EmptyFrame);
      }
      if StatusColumn !in data.columns {
        return KeyError(StatusColumn);
      }
      var pending := PendingTickets(data);
      if IsEmpty(pending) {
        return Shown(EmptyFrame);
      }
      var display := PendingDisplay(pending.columns);
      var table := Select(pending, display);
      SelectIsUnformatted(pending, display);
      table := FormatIfShown(table, pending, [], CreatedColumn);
      assert [] + [CreatedColumn] == [CreatedColumn];
      r := Shown(table);
    }

    /**
     * `get_resolved_tickets_table`: the resolved rows with the present
     * display columns, both dates formatted; an empty frame for empty data
     * or no resolved rows.
     */
    method ResolvedTicketsTable() returns (r: Outcome<Table>)
      ensures IsEmpty(data) ==> r == Shown(EmptyFrame)
      ensures !IsEmpty(data) && StatusColumn !in data.columns ==> r == KeyError(StatusColumn)
      ensures !IsEmpty(data) && StatusColumn in data.columns ==>
        r == Shown(if ResolvedTickets(data).rows == [] then EmptyFrame
                   else DisplayTable(ResolvedTickets(data), ResolvedDisplayColumns, [CreatedColumn, ResolvedColumn]))
    {
      if IsEmpty(data) {
        return Shown(EmptyFrame);
      }
      if StatusColumn !in data.columns {
        return KeyError(StatusColumn);
      }
      var resolved := ResolvedTickets(data);
      if IsEmpty(resolved) {
        return Shown(EmptyFrame);
      }
      var display := ResolvedDisplay(resolved.columns);
      var table := Select(resolved, display);
      SelectIsUnformatted(resolved, display);
      table := FormatIfShown(table, resolved, [], CreatedColumn);
      assert [] + [CreatedColumn] == [CreatedColumn];
      assert ResolvedColumn !in [CreatedColumn];
      table := FormatIfShown(table, resolved, [CreatedColumn], ResolvedColumn);
      assert [CreatedColumn] + [ResolvedColumn] == [CreatedColumn, ResolvedColumn];
      r := Shown(table);
    }
  }

  /** A daily count and its running total, as the day-wise charts plot them. */
  datatype Curve = Curve(daily: Counts<int>, cumulative: seq<nat>)

  /** `groupby(df[name].dt.date).size()` sorted by date, then `cumsum()`. */
  function DailyCurve(t: Table, name: string): (r: Curve)
    ensures StrictlyAscending(r.daily) && Tallies(r.daily, DaysOf(Column(t, name)))
    ensures |r.cumulative| == |r.daily|
    ensures forall i, j :: 0 <= i <= j < |r.cumulative| ==> r.cumulative[i] <= r.cumulative[j]
    ensures |r.cumulative| > 0 ==> r.cumulative[|r.cumulative| - 1] == Count(Column(t, name), (c: Cell) => DateOf(c).Some?)
  {
    var daily := GroupByDay(DaysOf(Column(t, name)));
    CumulativeProperties(daily);
    Curve(daily, Cumulative(daily))
  }

  /** The mask of `create_resolution_time_chart`: resolved, with both dates. */
  function ResolvedWithDates(columns: seq<string>): Row -> bool
  {
    row => ResolvedMask(columns)(row) && HasBothDates(columns, row)
  }

  /** Rows without both dates contribute nothing to the resolution times. */
  lemma {:induction false} DaysToResolveSkips(columns: seq<string>, rows: seq<Row>)
    ensures DaysToResolve(columns, Filter(rows, (row: Row) => HasBothDates(columns, row))) == DaysToResolve(columns, rows)
  {
    if rows != [] {
      DaysToResolveSkips(columns, rows[1..]);
    }
  }

  /** The chart's own filter gives the same days as `calculate_resolution_time`. */
  lemma ResolvedWithDatesDays(t: Table)
    requires CreatedColumn in t.columns && ResolvedColumn in t.columns && StatusColumn in t.columns
    ensures DaysToResolve(t.columns, Filter(t.rows, ResolvedWithDates(t.columns))) == CalculateResolutionTime(t)
    ensures Filter(t.rows, ResolvedWithDates(t.columns)) == [] ==> CalculateResolutionTime(t) == []
  {
    var both := (row: Row) => HasBothDates(t.columns, row);
    FilterFilter(t.rows, ResolvedMask(t.columns), both, ResolvedWithDates(t.columns));
    DaysToResolveSkips(t.columns, Filter(t.rows, ResolvedMask(t.columns)));
  }
}
