/**
 * The dashboard's own logic: the sidebar's filter choices, the filters
 * applied one after another, the four headline metrics, and which screen
 * is shown for the data held in the session.
 */
module Dashboard {
  import opened Wrappers
  import opened Frame
  import opened Schema
  import opened Cleaning
  import opened Classify

  const CompanyColumn: string := "Company"
  const BranchColumn: string := "Branch"

  /** The selection that disables a categorical filter. */
  const AllChoice: string := "All"

  // ---------------------------------------------------------------------
  // Option lists
  // ---------------------------------------------------------------------

  /** Python's `<` on two strings: code point by code point, a proper prefix first. */
  predicate Below(a: string, b: string)
    decreases |a|
  {
    if a == [] then b != []
    else if b == [] then false
    else if a[0] < b[0] then true
    else if a[0] == b[0] then Below(a[1..], b[1..])
    else false
  }

  lemma {:induction false} BelowIrreflexive(a: string)
    ensures !Below(a, a)
    decreases |a|
  {
    if a != [] { BelowIrreflexive(a[1..]); }
  }

  lemma {:induction false} BelowTransitive(a: string, b: string, c: string)
    requires Below(a, b) && Below(b, c)
    ensures Below(a, c)
    decreases |a|
  {
    if a != [] && b != [] && c != [] && a[0] == b[0] && b[0] == c[0] {
      BelowTransitive(a[1..], b[1..], c[1..]);
    }
  }

  lemma {:induction false} BelowTotal(a: string, b: string)
    requires a != b
    ensures Below(a, b) || Below(b, a)
    decreases |a|
  {
    if a != [] && b != [] && a[0] == b[0] {
      assert a == [a[0]] + a[1..] && b == [b[0]] + b[1..];
      BelowTotal(a[1..], b[1..]);
    }
  }

  predicate Ascending(xs: seq<string>)
  {
    forall i, j :: 0 <= i < j < |xs| ==> Below(xs[i], xs[j])
  }

  /** `x` placed into an ascending list, unless the list already holds it. */
  function Insert(x: string, xs: seq<string>): seq<string>
  {
    if xs == [] then [x]
    else if x == xs[0] then xs
    else if Below(x, xs[0]) then [x] + xs
    else [xs[0]] + Insert(x, xs[1..])
  }

  lemma {:induction false} InsertKeepsAscending(x: string, xs: seq<string>)
    requires Ascending(xs)
    ensures Ascending(Insert(x, xs))
    ensures forall y :: y in Insert(x, xs) <==> y == x || y in xs
  {
    if xs == [] {
    } else if x == xs[0] {
    } else if Below(x, xs[0]) {
      var r := [x] + xs;
      forall i, j | 0 <= i < j < |r| ensures Below(r[i], r[j]) {
        if i == 0 && j > 1 { BelowTransitive(x, xs[0], xs[j - 1]); }
      }
    } else {
      BelowTotal(x, xs[0]);
      InsertKeepsAscending(x, xs[1..]);
      var tail := Insert(x, xs[1..]);
      assert forall y :: y in xs[1..] ==> Below(xs[0], y) by {
        forall y | y in xs[1..] ensures Below(xs[0], y) {
          var k :| 0 <= k < |xs[1..]| && xs[1..][k] == y;
          assert xs[k + 1] == y;
        }
      }
      var r := [xs[0]] + tail;
      forall i, j | 0 <= i < j < |r| ensures Below(r[i], r[j]) {
        if i == 0 { assert r[j] == tail[j - 1] && r[j] in tail; }
        else { assert r[i] == tail[i - 1] && r[j] == tail[j - 1]; }
      }
    }
  }

  /** `sorted(set(xs))`, built by insertion. */
  function SortedDistinct(xs: seq<string>): (r: seq<string>)
    ensures Ascending(r)
    ensures forall y :: y in r <==> y in xs
  {
    if xs == [] then []
    else
      var rest := SortedDistinct(xs[1..]);
      InsertKeepsAscending(xs[0], rest);
      assert forall y :: y in xs <==> y == xs[0] || y in xs[1..];
      Insert(xs[0], rest)
  }

  /** An ascending list never repeats an entry. */
  lemma AscendingIsDistinct(xs: seq<string>)
    requires Ascending(xs)
    ensures forall i, j :: 0 <= i < j < |xs| ==> xs[i] != xs[j]
  {
    forall i, j | 0 <= i < j < |xs| ensures xs[i] != xs[j] {
      BelowIrreflexive(xs[i]);
    }
  }

  /** `column.dropna().unique().tolist()` for a text column. */
  function Texts(cells: seq<Cell>): (r: seq<string>)
    ensures forall s :: s in r <==> Some(Str(s)) in cells
  {
    if cells == [] then []
    else
      assert forall c :: c in cells <==> c == cells[0] || c in cells[1..];
      (if cells[0].Some? && cells[0].value.Str? then [cells[0].value.text] else []) + Texts(cells[1..])
  }

  /**
   * The choices of a categorical filter: `All`, then the column's distinct
   * texts in ascending order; no selector at all when the column is absent.
   */
  function FilterOptions(t: Table, name: string): (r: Option<seq<string>>)
    ensures r.None? <==> name !in t.columns
    ensures r.Some? ==> |r.value| >= 1 && r.value[0] == AllChoice && Ascending(r.value[1..])
    ensures r.Some? ==> forall s :: s in r.value[1..] <==> Some(Str(s)) in Column(t, name)
  {
    if name !in t.columns then None
    else
      var choices := [AllChoice] + SortedDistinct(Texts(Column(t, name)));
      assert choices[1..] == SortedDistinct(Texts(Column(t, name)));
      Some(choices)
  }

  /** Each value appears once among the choices after `All`. */
  lemma FilterOptionsDistinct(t: Table, name: string)
    requires name in t.columns
    ensures forall i, j :: 1 <= i < j < |FilterOptions(t, name).value| ==>
      FilterOptions(t, name).value[i] != FilterOptions(t, name).value[j]
  {
    var choices := FilterOptions(t, name).value;
    AscendingIsDistinct(choices[1..]);
    forall i, j | 1 <= i < j < |choices| ensures choices[i] != choices[j] {
      assert choices[i] == choices[1..][i - 1] && choices[j] == choices[1..][j - 1];
    }
  }

  // ---------------------------------------------------------------------
  // Filters
  // ---------------------------------------------------------------------

  /**
   * The sidebar's selections. `dates` is the date picker's value, a tuple of
   * up to two days (`None` when there is no `Created Date` column).
   */
  datatype Filters = Filters(dates: Option<seq<int>>, company: string, branch: string, status: string)

  /** The date filter is active for a picked range of exactly two days over a table with creation dates. */
  predicate DateActive(columns: seq<string>, f: Filters)
  {
    f.dates.Some? && |f.dates.value| == 2 && CreatedColumn in columns
  }

  /** A categorical filter is active unless `All` is chosen or its column is absent. */
  predicate ChoiceActive(columns: seq<string>, name: string, choice: string)
  {
    choice != AllChoice && name in columns
  }

  /** Creation day within `[start, end]`, both ends included; a ticket without a creation date is out. */
  predicate InRange(columns: seq<string>, start: int, end: int, row: Row)
  {
    var day := DateOf(Get(columns, row, CreatedColumn));
    day.Some? && start <= day.value && day.value <= end
  }

  /** `df[name] == choice`: a cell holding exactly that text. */
  predicate Matches(columns: seq<string>, name: string, choice: string, row: Row)
  {
    Get(columns, row, name) == Some(Str(choice))
  }

  predicate DateOk(columns: seq<string>, f: Filters, row: Row)
  {
    DateActive(columns, f) ==> InRange(columns, f.dates.value[0], f.dates.value[1], row)
  }

  predicate ChoiceOk(columns: seq<string>, name: string, choice: string, row: Row)
  {
    ChoiceActive(columns, name, choice) ==> Matches(columns, name, choice, row)
  }

  /** The reference definition: a row passes when it passes every active filter. */
  predicate Passes(columns: seq<string>, f: Filters, row: Row)
  {
    DateOk(columns, f, row) && ChoiceOk(columns, CompanyColumn, f.company, row) &&
    ChoiceOk(columns, BranchColumn, f.branch, row) && ChoiceOk(columns, StatusColumn, f.status, row)
  }

  function RangeMask(columns: seq<string>, start: int, end: int): Row -> bool
  {
    row => InRange(columns, start, end, row)
  }

  function MatchMask(columns: seq<string>, name: string, choice: string): Row -> bool
  {
    row => Matches(columns, name, choice, row)
  }

  /** The stages passed so far, as predicates on a row. */
  function AfterDate(columns: seq<string>, f: Filters): Row -> bool
  {
    row => DateOk(columns, f, row)
  }

  function AfterCompany(columns: seq<string>, f: Filters): Row -> bool
  {
    row => DateOk(columns, f, row) && ChoiceOk(columns, CompanyColumn, f.company, row)
  }

  function AfterBranch(columns: seq<string>, f: Filters): Row -> bool
  {
    row => DateOk(columns, f, row) && ChoiceOk(columns, CompanyColumn, f.company, row) &&
      ChoiceOk(columns, BranchColumn, f.branch, row)
  }

  function PassesMask(columns: seq<string>, f: Filters): Row -> bool
  {
    row => Passes(columns, f, row)
  }

  /** One optional stage: filtering by `cond` when active, keeping the rows otherwise, reaches the next conjunction. */
  lemma Stage(s: seq<Row>, before: Row -> bool, after: Row -> bool, active: bool, cond: Row -> bool)
    requires forall row :: after(row) == (before(row) && (active ==> cond(row)))
    ensures active ==> Filter(Filter(s, before), cond) == Filter(s, after)
    ensures !active ==> Filter(s, before) == Filter(s, after)
  {
    if active {
      FilterFilter(s, before, cond, after);
    } else {
      FilterCongruent(s, before, after);
    }
  }

  /**
   * `apply_filters(data, date_range, company, branch, status)`: the date
   * range, then company, branch and status, each stage only when active.
   * The result is the rows passing every active filter, in their order.
   */
  method ApplyFilters(data: Table, f: Filters) returns (filtered: Table)
    ensures filtered == Table(data.columns, Filter(data.rows, PassesMask(data.columns, f)))
  {
    var columns := data.columns;
    filtered := data;
    if f.dates.Some? && |f.dates.value| == 2 && CreatedColumn in columns {
      var start, end := f.dates.value[0], f.dates.value[1];
      filtered := WhereRows(filtered, RangeMask(columns, start, end));
      FilterCongruent(data.rows, RangeMask(columns, start, end), AfterDate(columns, f));
    } else {
      FilterAll(data.rows, AfterDate(columns, f));
    }
    assert filtered.rows == Filter(data.rows, AfterDate(columns, f));

    var companyOn := f.company != AllChoice && CompanyColumn in columns;
    Stage(data.rows, AfterDate(columns, f), AfterCompany(columns, f), companyOn, MatchMask(columns, CompanyColumn, f.company));
    if companyOn {
      filtered := WhereRows(filtered, MatchMask(columns, CompanyColumn, f.company));
    }

    var branchOn := f.branch != AllChoice && BranchColumn in columns;
    Stage(data.rows, AfterCompany(columns, f), AfterBranch(columns, f), branchOn, MatchMask(columns, BranchColumn, f.branch));
    if branchOn {
      filtered := WhereRows(filtered, MatchMask(columns, BranchColumn, f.branch));
    }

    var statusOn := f.status != AllChoice && StatusColumn in columns;
    Stage(data.rows, AfterBranch(columns, f), PassesMask(columns, f), statusOn, MatchMask(columns, StatusColumn, f.status));
    if statusOn {
      filtered := WhereRows(filtered, MatchMask(columns, StatusColumn, f.status));
    }
  }

  /**
   * What the filtered table is: the same columns, a subsequence of the rows,
   * and a row is kept exactly when it passes every active filter.
   */
  lemma FilteredRows(data: Table, f: Filters)
    ensures IsSubsequence(Filter(data.rows, PassesMask(data.columns, f)), data.rows)
    ensures forall row :: row in Filter(data.rows, PassesMask(data.columns, f)) <==>
      (row in data.rows && Passes(data.columns, f, row))
  {
    var kept := Filter(data.rows, PassesMask(data.columns, f));
    FilterIsSubsequence(data.rows, PassesMask(data.columns, f));
    FilterMembers(data.rows, PassesMask(data.columns, f));
    forall row | row in data.rows && Passes(data.columns, f, row) ensures row in kept {
      var i :| 0 <= i < |data.rows| && data.rows[i] == row;
    }
    forall row | row in kept ensures row in data.rows && Passes(data.columns, f, row) {
      var i :| 0 <= i < |kept| && kept[i] == row;
    }
  }

  /** With every choice `All` and no two-day range, nothing is filtered out. */
  lemma NoFilterKeepsAll(data: Table, f: Filters)
    requires f.company == AllChoice && f.branch == AllChoice && f.status == AllChoice
    requires f.dates.None? || |f.dates.value| != 2
    ensures Filter(data.rows, PassesMask(data.columns, f)) == data.rows
  {
    FilterAll(data.rows, PassesMask(data.columns, f));
  }

  /** An active date range keeps exactly the tickets created on a day within it, both ends included. */
  lemma DateRangeInclusive(data: Table, f: Filters, row: Row)
    requires DateActive(data.columns, f) && row in data.rows
    requires Passes(data.columns, f, row)
    ensures DateOf(Get(data.columns, row, CreatedColumn)).Some?
    ensures f.dates.value[0] <= DateOf(Get(data.columns, row, CreatedColumn)).value <= f.dates.value[1]
  {
  }

  /** A filter whose column is absent lets every row through, whatever is chosen. */
  lemma AbsentColumnSkipped(columns: seq<string>, f: Filters, row: Row)
    requires CompanyColumn !in columns && BranchColumn !in columns
    ensures Passes(columns, f, row) == (DateOk(columns, f, row) && ChoiceOk(columns, StatusColumn, f.status, row))
  {
  }

  // ---------------------------------------------------------------------
  // Metrics
  // ---------------------------------------------------------------------

  /** The statuses the dashboard counts as pending and as resolved. */
  const OpenStatuses: seq<string> := ["Open", "In Progress", "Pending"]
  const ClosedStatuses: seq<string> := ["Resolved", "Closed", "Completed"]

  /** The four metrics; `None` stands for the `N/A` the dashboard shows. */
  datatype Metrics = Metrics(total: nat, pending: Option<nat>, resolved: Option<nat>, rate: Option<real>)

  function OpenMask(columns: seq<string>): Row -> bool
  {
    row => IsIn(StatusOf(columns, row), OpenStatuses)
  }

  function ClosedMask(columns: seq<string>): Row -> bool
  {
    row => IsIn(StatusOf(columns, row), ClosedStatuses)
  }

  /** `display_metrics(data)`, without the formatting. */
  function DisplayMetrics(t: Table): Metrics
  {
    var total := |t.rows|;
    if StatusColumn !in t.columns then Metrics(total, None, None, None)
    else
      var resolved := |Filter(t.rows, ClosedMask(t.columns))|;
      Metrics(total, Some(|Filter(t.rows, OpenMask(t.columns))|), Some(resolved),
        if total > 0 then Some(Rate(resolved, total)) else None)
  }

  /** `(resolved / total) * 100`: the resolved share of a positive total, in percent. */
  function Rate(resolved: nat, total: nat): (percent: real)
    requires total > 0
    ensures percent * (total as real) == resolved as real * 100.0
    ensures resolved <= total ==> 0.0 <= percent <= 100.0
  {
    var q := resolved as real / total as real;
    assert q * total as real == resolved as real;
    q * 100.0
  }

  /** No status is in both lists. */
  lemma StatusListsDisjoint(c: Cell)
    ensures !(IsIn(c, OpenStatuses) && IsIn(c, ClosedStatuses))
  {
    if IsIn(c, OpenStatuses) {
      var s := c.value.text;
      assert s == "Open" || s == "In Progress" || s == "Pending";
    }
  }

  /**
   * The counts are row counts by status, and pending and resolved never add
   * up to more than the total; the counts and the rate are present exactly
   * when there is a status column (and, for the rate, a row).
   */
  lemma MetricsCounts(t: Table)
    ensures DisplayMetrics(t).total == |t.rows|
    ensures DisplayMetrics(t).pending.Some? <==> StatusColumn in t.columns
    ensures DisplayMetrics(t).resolved.Some? <==> StatusColumn in t.columns
    ensures DisplayMetrics(t).rate.Some? <==> StatusColumn in t.columns && |t.rows| > 0
    ensures StatusColumn in t.columns ==>
      DisplayMetrics(t).pending.value == Count(t.rows, OpenMask(t.columns)) &&
      DisplayMetrics(t).resolved.value == Count(t.rows, ClosedMask(t.columns)) &&
      DisplayMetrics(t).pending.value + DisplayMetrics(t).resolved.value <= |t.rows|
  {
    if StatusColumn in t.columns {
      var columns := t.columns;
      var either := (row: Row) => OpenMask(columns)(row) || ClosedMask(columns)(row);
      forall row ensures !(OpenMask(columns)(row) && ClosedMask(columns)(row)) {
        StatusListsDisjoint(StatusOf(columns, row));
      }
      FilterLength(t.rows, OpenMask(columns));
      FilterLength(t.rows, ClosedMask(columns));
      CountDisjointUnion(t.rows, OpenMask(columns), ClosedMask(columns), either);
    }
  }

  /** The rate is the resolved share of the total rows in percent, between 0 and 100. */
  lemma RateBounds(t: Table)
    requires DisplayMetrics(t).rate.Some?
    ensures 0.0 <= DisplayMetrics(t).rate.value <= 100.0
    ensures DisplayMetrics(t).resolved.Some? && DisplayMetrics(t).total > 0
    ensures DisplayMetrics(t).rate.value == Rate(DisplayMetrics(t).resolved.value, DisplayMetrics(t).total)
  {
    var m := DisplayMetrics(t);
    assert m.resolved.value <= m.total;
  }

  /**
   * The dashboard's resolved count is not the processor's: a single
   * `Auto Completed` ticket is resolved for the processor but neither
   * pending nor resolved on the dashboard.
   */
  lemma MetricsDisagreeWithProcessor()
    ensures var t := Table([StatusColumn], [[Some(Str("Auto Completed"))]]);
      |ResolvedTickets(t).rows| == 1 && DisplayMetrics(t).resolved == Some(0) && DisplayMetrics(t).pending == Some(0)
  {
    var t := Table([StatusColumn], [[Some(Str("Auto Completed"))]]);
    var row := t.rows[0];
    assert StatusOf(t.columns, row) == Some(Str("Auto Completed"));
    assert !OpenMask(t.columns)(row) && !ClosedMask(t.columns)(row);
    assert Filter(t.rows, OpenMask(t.columns)) == [];
    assert Filter(t.rows, ClosedMask(t.columns)) == [];
    assert ResolvedMask(t.columns)(row);
    assert Filter(t.rows, ResolvedMask(t.columns)) == [row];
  }

  // ---------------------------------------------------------------------
  // The session and the screen it shows
  // ---------------------------------------------------------------------

  /** What the main area shows. */
  datatype Screen = Welcome | NoMatch | Overview(filtered: Table, metrics: Metrics)

  /** The session's two slots: the cleaned upload and what `process_data` made of it. */
  class Session {
    var data: Option<Table>
    var processed: Option<Processed>

    /** Both slots start empty. */
    constructor()
      ensures data == None && processed == None
    {
      data := None;
      processed := None;
    }

    /**
     * An upload: a table the loader accepts replaces both slots with it and
     * its processing; a refused one leaves the session as it was.
     */
    method Upload(t: Table, parse: Value -> Option<int>)
      modifies this
      ensures IsEmpty(t) || MissingColumns(t.columns) != [] ==> data == old(data) && processed == old(processed)
      ensures !IsEmpty(t) && MissingColumns(t.columns) == [] && Cleaned(t, parse).Err? ==>
        data == old(data) && processed == old(processed)
      ensures !IsEmpty(t) && MissingColumns(t.columns) == [] && Cleaned(t, parse).Ok? ==>
        data == Some(Cleaned(t, parse).value) && processed == Some(ProcessData(Cleaned(t, parse).value))
    {
      var loaded := ProcessUploadedData(t, parse);
      if loaded.Ok? {
        data := Some(loaded.value);
        processed := Some(ProcessData(loaded.value));
      }
    }

    /**
     * `main` and `display_dashboard`: the welcome text while nothing is
     * loaded; otherwise the filtered table, a warning when no row is left,
     * and the metrics of the filtered rows.
     */
    method Render(f: Filters) returns (screen: Screen)
      ensures screen == Welcome <==> data.None? || processed.None?
      ensures data.Some? && processed.Some? ==>
        var filtered := Table(data.value.columns, Filter(data.value.rows, PassesMask(data.value.columns, f)));
        (screen == NoMatch <==> IsEmpty(filtered)) &&
        (screen.Overview? ==> screen.filtered == filtered && screen.metrics == DisplayMetrics(filtered))
    {
      if data.None? || processed.None? {
        return Welcome;
      }
      var filtered := ApplyFilters(data.value, f);
      if IsEmpty(filtered) {
        return NoMatch;
      }
      screen := Overview(filtered, DisplayMetrics(filtered));
    }
  }
}
