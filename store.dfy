/**
 * `DatabaseManager`: the ticket store behind the dashboard. The table of
 * tickets is one slot holding a sequence of records; a save replaces it
 * atomically or not at all, a load turns it back into a table, and the
 * statistics count it by status.
 */
module Store {
  import opened Wrappers
  import opened Text
  import opened Frame
  import Calendar
  import opened Cleaning
  import opened Classify

  // ---------------------------------------------------------------------
  // Fields
  // ---------------------------------------------------------------------

  /** How a column is stored: as a string, a date-time or an integer. */
  datatype FieldKind = TextField | DateField | CountField

  /** One attribute of the `Ticket` record, the upload column it is read from, and how it is stored. */
  datatype Field = Field(attribute: string, column: string, kind: FieldKind)

  /** The record's attributes as `save_tickets_to_db` fills them, in that order. */
  const SavedFields: seq<Field> := [
    Field("ticket_id", "Ticket ID", TextField),
    Field("requester", "Requester", TextField),
    Field("created_user", "Created User", TextField),
    Field("requested_date", "Created Date", DateField),
    Field("ticket_type", "Ticket Type", TextField),
    Field("ticket_category", "Category", TextField),
    Field("ticket_sub_category", "Ticket Sub Category", TextField),
    Field("company_name", "Company", TextField),
    Field("branch_name", "Branch", TextField),
    Field("department_name", "Department Name", TextField),
    Field("subject", "Title", TextField),
    Field("description", "Description", TextField),
    Field("current_status", "Status", TextField),
    Field("assign_from", "Assign From", TextField),
    Field("assigned_to", "Assigned User", TextField),
    Field("assigned_date", "Assigned Date", DateField),
    Field("sla", "SLA", TextField),
    Field("live_transferred_date", "Live Transferred Date", DateField),
    Field("is_re_submitted", "Is Re-Submitted", TextField),
    Field("resolved_date", "Resolved Date", DateField),
    Field("no_of_days", "No Of Days", CountField),
    Field("no_of_working_days", "No Of Working Days", CountField),
    Field("resolved_by", "Resolver", TextField),
    Field("last_comment", "Last Comment", TextField),
    Field("last_remark", "Last Remark", TextField)
  ]

  /** The columns `load_tickets_from_db` writes, each with the attribute it reads, in that order. */
  const LoadedColumns: seq<(string, string)> := [
    ("Ticket ID", "ticket_id"),
    ("Requester", "requester"),
    ("Created User", "created_user"),
    ("Created Date", "requested_date"),
    ("Ticket Type", "ticket_type"),
    ("Category", "ticket_category"),
    ("Ticket Sub Category", "ticket_sub_category"),
    ("Company", "company_name"),
    ("Branch", "branch_name"),
    ("Department Name", "department_name"),
    ("Title", "subject"),
    ("Description", "description"),
    ("Status", "current_status"),
    ("Assign From", "assign_from"),
    ("Assigned User", "assigned_to"),
    ("Assigned Date", "assigned_date"),
    ("SLA", "sla"),
    ("Live Transferred Date", "live_transferred_date"),
    ("Is Re-Submitted", "is_re_submitted"),
    ("Resolved Date", "resolved_date"),
    ("No Of Days", "no_of_days"),
    ("No Of Working Days", "no_of_working_days"),
    ("Resolver", "resolved_by"),
    ("Last Comment", "last_comment"),
    ("Last Remark", "last_remark")
  ]

  /** The header of a loaded table. */
  function LoadedNames(): (names: seq<string>)
    ensures |names| == |LoadedColumns|
    ensures forall j :: 0 <= j < |names| ==> names[j] == LoadedColumns[j].0
  {
    seq(|LoadedColumns|, j requires 0 <= j < |LoadedColumns| => LoadedColumns[j].0)
  }

  /**
   * The load mirrors the save: its j-th column is the column the save read
   * for the j-th attribute, and it reads that same attribute back.
   */
  lemma LoadMirrorsSave()
    ensures |LoadedColumns| == |SavedFields|
    ensures forall j :: 0 <= j < |SavedFields| ==>
      LoadedColumns[j] == (SavedFields[j].column, SavedFields[j].attribute)
  {
  }

  /** No two loaded columns share a name, so each is found where it was written. */
  lemma LoadedNamesDistinct()
    ensures forall i, j :: 0 <= i < j < |LoadedNames()| ==> LoadedNames()[i] != LoadedNames()[j]
  {
  }

  /** The position of `current_status`. */
  const StatusSlot: nat := 12

  // ---------------------------------------------------------------------
  // Conversions of one value
  // ---------------------------------------------------------------------

  /** `safe_string(value)`: null or any case variant of `nan` becomes the empty string, anything else `str(value)`. */
  function SafeString(c: Cell): (r: string)
    ensures c.None? ==> r == ""
    ensures c.Some? && Lower(Show(c.value)) == "nan" ==> r == ""
    ensures c.Some? && Lower(Show(c.value)) != "nan" ==> r == Show(c.value)
    ensures Lower(r) != "nan"
  {
    if c.None? || Lower(Show(c.value)) == "nan" then "" else Show(c.value)
  }

  /**
   * `safe_int(value)`: null, the empty string or a `nan` spelling become 0;
   * a number is truncated (it is whole here); a text is what `int(float(...))`
   * makes of it, 0 when that raises; a date has no `float` and becomes 0.
   */
  function SafeInt(c: Cell): (r: int)
    ensures c.None? ==> r == 0
    ensures c == Some(Str("")) ==> r == 0
    ensures c.Some? && Lower(Show(c.value)) == "nan" ==> r == 0
    ensures c.Some? && c.value.Num? ==> r == c.value.number
    ensures c.Some? && c.value.Str? && c.value.text != "" && Lower(c.value.text) != "nan" ==>
      r == (match ParseTruncatedDecimal(c.value.text) case Some(n) => n case None => 0)
    ensures c.Some? && (c.value.Time? || c.value.Day?) ==> r == 0
  {
    if c.None? || c == Some(Str("")) || Lower(Show(c.value)) == "nan" then 0
    else
      match c.value
      case Num(n) => n
      case Str(s) => (match ParseTruncatedDecimal(s) case Some(n) => n case None => 0)
      case _ => 0
  }

  /**
   * `safe_datetime(value)`: null, the empty string or a `nat` spelling
   * become `None`; otherwise the date parser's timestamp, `None` when it
   * yields NaT.
   */
  function SafeDatetime(date: Value -> Option<int>, c: Cell): (r: Option<int>)
    ensures c.None? ==> r.None?
    ensures c == Some(Str("")) ==> r.None?
    ensures c.Some? && Lower(Show(c.value)) == "nat" ==> r.None?
    ensures c.Some? && c.value.Time? && Lower(Show(c.value)) != "nat" ==> r == Some(c.value.seconds)
    ensures c.Some? && c.value.Day? && Lower(Show(c.value)) != "nat" ==> r == Some(c.value.days * 86400)
    ensures c.Some? && (c.value.Str? || c.value.Num?) && c != Some(Str("")) && Lower(Show(c.value)) != "nat" ==>
      r == date(c.value)
  {
    if c.None? || c == Some(Str("")) || Lower(Show(c.value)) == "nat" then None
    else TimeOf(ParseDate(date, c))
  }

  /** `row.get(column, default)` with a missing column gives the same result as a null cell. */
  lemma AbsentColumnDefault(parse: Value -> Option<int>)
    ensures SafeString(Some(Str(""))) == SafeString(None)
    ensures SafeInt(Some(Num(0))) == SafeInt(None)
    ensures SafeDatetime(parse, None) == None
  {
    assert Lower("") == "";
    assert Show(Num(0)) == "0";
    assert Lower("0") == "0";
  }

  /** A stored value. */
  datatype Stored = Text(text: string) | Stamp(at: Option<int>) | Whole(number: int)

  /** One value as the save stores it. */
  function Convert(parse: Value -> Option<int>, kind: FieldKind, c: Cell): Stored
  {
    match kind
    case TextField => Text(SafeString(c))
    case DateField => Stamp(SafeDatetime(parse, c))
    case CountField => Whole(SafeInt(c))
  }

  /** One stored value as it comes back in a loaded table. */
  function Restore(s: Stored): Cell
  {
    match s
    case Text(text) => Some(Str(text))
    case Stamp(None) => None
    case Stamp(Some(seconds)) => Some(Time(seconds))
    case Whole(n) => Some(Num(n))
  }

  /** The printed form of a date-time is too long to be a `nan` or `nat` spelling. */
  lemma TimestampIsNoMarker(seconds: int)
    ensures |Show(Time(seconds))| > 3
  {
    assert |Calendar.IsoDate(Calendar.DayOf(seconds))| >= 1 + 1 + 2 + 1 + 2;
  }

  /** The printed form of an integer starts with a digit or a minus sign, never an `n`. */
  lemma NumberIsNoMarker(n: int)
    ensures Lower(Show(Num(n))) != "nan"
  {
    var s := IntToString(n);
    if n < 0 { assert s[0] == '-'; }
    assert Lower(s)[0] == LowerChar(s[0]) == s[0];
  }

  /** Saving a value that was loaded back stores it unchanged: the conversions settle after one save. */
  lemma ResaveStable(parse: Value -> Option<int>, kind: FieldKind, c: Cell)
    ensures Convert(parse, kind, Restore(Convert(parse, kind, c))) == Convert(parse, kind, c)
  {
    match kind
    case TextField =>
      var s := SafeString(c);
      if s == "" { assert Lower("") == ""; }
    case DateField =>
      var stamp := SafeDatetime(parse, c);
      if stamp.Some? {
        TimestampIsNoMarker(stamp.value);
        assert |Lower(Show(Time(stamp.value)))| > 3;
      }
    case CountField =>
      NumberIsNoMarker(SafeInt(c));
  }

  // ---------------------------------------------------------------------
  // Records and tables
  // ---------------------------------------------------------------------

  /** A `Ticket` row: one stored value per attribute of `SavedFields`, in that order. */
  datatype TicketRecord = TicketRecord(fields: seq<Stored>)

  predicate Complete(r: TicketRecord)
  {
    |r.fields| == |SavedFields|
  }

  /** The `Ticket` that `save_tickets_to_db` builds from one row. */
  function ToRecord(parse: Value -> Option<int>, columns: seq<string>, row: Row): (r: TicketRecord)
    ensures Complete(r)
    ensures forall j :: 0 <= j < |SavedFields| ==>
      r.fields[j] == Convert(parse, SavedFields[j].kind, Get(columns, row, SavedFields[j].column))
  {
    TicketRecord(seq(|SavedFields|, j requires 0 <= j < |SavedFields| =>
      Convert(parse, SavedFields[j].kind, Get(columns, row, SavedFields[j].column))))
  }

  /** The records of a whole table, row by row. */
  function Converted(parse: Value -> Option<int>, t: Table): (records: seq<TicketRecord>)
    ensures |records| == |t.rows|
    ensures forall i :: 0 <= i < |t.rows| ==> records[i] == ToRecord(parse, t.columns, t.rows[i])
  {
    seq(|t.rows|, i requires 0 <= i < |t.rows| => ToRecord(parse, t.columns, t.rows[i]))
  }

  /** The `ticket_id` of a record. */
  function IdOf(r: TicketRecord): string
  {
    if |r.fields| > 0 && r.fields[0].Text? then r.fields[0].text else ""
  }

  /** The unique constraint on `ticket_id`. */
  predicate DistinctIds(records: seq<TicketRecord>)
  {
    forall i, j :: 0 <= i < j < |records| ==> IdOf(records[i]) != IdOf(records[j])
  }

  /** The dictionary `load_tickets_from_db` builds from one record. */
  function LoadRow(r: TicketRecord): (row: Row)
    ensures |row| == |r.fields|
    ensures forall j :: 0 <= j < |row| ==> row[j] == Restore(r.fields[j])
  {
    seq(|r.fields|, j requires 0 <= j < |r.fields| => Restore(r.fields[j]))
  }

  /** The table `load_tickets_from_db` returns for some records: an empty frame when there are none. */
  function LoadedTable(records: seq<TicketRecord>): (t: Table)
    ensures records == [] ==> t == EmptyFrame
    ensures records != [] ==> t.columns == LoadedNames() && |t.rows| == |records|
    ensures records != [] ==> forall i :: 0 <= i < |records| ==> t.rows[i] == LoadRow(records[i])
  {
    if records == [] then EmptyFrame
    else Table(LoadedNames(), seq(|records|, i requires 0 <= i < |records| => LoadRow(records[i])))
  }

  /**
   * Save then load: one row per saved row, in order, under the loaded
   * header; each cell is the saved row's value of that column after its
   * conversion, a text column coming back as `safe_string` of the value.
   */
  lemma SaveLoadRoundTrip(parse: Value -> Option<int>, t: Table)
    requires t.rows != []
    ensures var back := LoadedTable(Converted(parse, t));
      back.columns == LoadedNames() && |back.rows| == |t.rows| && WellFormed(back) &&
      forall i, j :: 0 <= i < |t.rows| && 0 <= j < |SavedFields| ==>
        back.rows[i][j] == Restore(Convert(parse, SavedFields[j].kind, Get(t.columns, t.rows[i], SavedFields[j].column)))
    ensures var back := LoadedTable(Converted(parse, t));
      forall i, j :: 0 <= i < |t.rows| && 0 <= j < |SavedFields| && SavedFields[j].kind == TextField ==>
        back.rows[i][j] == Some(Str(SafeString(Get(t.columns, t.rows[i], LoadedNames()[j]))))
  {
    LoadMirrorsSave();
  }

  /** Saving a loaded table again stores exactly the same records. */
  lemma ResaveLoaded(parse: Value -> Option<int>, t: Table)
    ensures Converted(parse, LoadedTable(Converted(parse, t))) == Converted(parse, t)
  {
    var records := Converted(parse, t);
    var back := LoadedTable(records);
    if t.rows != [] {
      LoadMirrorsSave();
      LoadedNamesDistinct();
      forall i | 0 <= i < |t.rows| ensures ToRecord(parse, back.columns, back.rows[i]) == records[i] {
        forall j | 0 <= j < |SavedFields|
          ensures ToRecord(parse, back.columns, back.rows[i]).fields[j] == records[i].fields[j]
        {
          var name := SavedFields[j].column;
          assert IndexOf(back.columns, name) == j;
          ResaveStable(parse, SavedFields[j].kind, Get(t.columns, t.rows[i], name));
        }
      }
    }
  }

  // ---------------------------------------------------------------------
  // Statistics
  // ---------------------------------------------------------------------

  /** The dictionary `get_ticket_stats` returns. */
  datatype Stats = Stats(total: nat, resolved: nat, pending: int)

  /** `current_status IN ('Closed', 'Completed', 'Auto Completed')` */
  predicate RecordResolved(r: TicketRecord)
  {
    StatusSlot < |r.fields| && r.fields[StatusSlot].Text? && r.fields[StatusSlot].text in ResolvedStatuses
  }

  function ResolvedRecordMask(): TicketRecord -> bool
  {
    r => RecordResolved(r)
  }

  /** The statistics of some records: the count, the resolved count, and the rest as pending. */
  function StatsOf(records: seq<TicketRecord>): (s: Stats)
    ensures s.total == |records| && s.resolved == Count(records, ResolvedRecordMask())
    ensures s.resolved <= s.total && s.pending >= 0 && s.resolved + s.pending == s.total
  {
    var resolved := Count(records, ResolvedRecordMask());
    Stats(|records|, resolved, |records| - resolved)
  }

  /** Counting converted records is counting the rows they came from. */
  lemma {:induction false} CountConverted(parse: Value -> Option<int>, columns: seq<string>, rows: seq<Row>, q: Row -> bool)
    requires forall row :: q(row) == RecordResolved(ToRecord(parse, columns, row))
    ensures Count(Converted(parse, Table(columns, rows)), ResolvedRecordMask()) == Count(rows, q)
    decreases |rows|
  {
    if rows != [] {
      var init := rows[..|rows| - 1];
      var last := rows[|rows| - 1];
      CountConverted(parse, columns, init, q);
      assert rows == init + [last];
      assert Converted(parse, Table(columns, rows)) == Converted(parse, Table(columns, init)) + [ToRecord(parse, columns, last)];
      CountSnoc(Converted(parse, Table(columns, init)), ToRecord(parse, columns, last), ResolvedRecordMask());
      CountSnoc(init, last, q);
    }
  }

  /** A text or null status is stored as a resolved status exactly when the processor counts the row resolved. */
  lemma StoredStatusResolved(parse: Value -> Option<int>, columns: seq<string>, row: Row)
    requires StatusOf(columns, row).None? || StatusOf(columns, row).value.Str?
    ensures RecordResolved(ToRecord(parse, columns, row)) == ResolvedMask(columns)(row)
  {
    assert SavedFields[StatusSlot] == Field("current_status", StatusColumn, TextField);
    var c := StatusOf(columns, row);
    var stored := SafeString(c);
    if c.Some? && c.value.text in ResolvedStatuses {
      assert |Lower(c.value.text)| == |c.value.text| > 3;
    }
  }

  /**
   * The store's statistics after saving a table whose statuses are texts or
   * nulls: the resolved count is the processor's, and pending is the
   * processor's pending count plus the `Discard` tickets, which the
   * processor leaves out.
   */
  lemma StatsAfterSave(parse: Value -> Option<int>, t: Table)
    requires StatusColumn in t.columns
    requires forall i :: 0 <= i < |t.rows| ==>
      StatusOf(t.columns, t.rows[i]).None? || StatusOf(t.columns, t.rows[i]).value.Str?
    ensures StatsOf(Converted(parse, t)).total == |t.rows|
    ensures StatsOf(Converted(parse, t)).resolved == |ResolvedTickets(t).rows|
    ensures StatsOf(Converted(parse, t)).pending == |PendingTickets(t).rows| + Count(t.rows, DiscardMask(t.columns))
  {
    var columns := t.columns;
    var q := (row: Row) => RecordResolved(ToRecord(parse, columns, row));
    CountConverted(parse, columns, t.rows, q);
    forall i | 0 <= i < |t.rows| ensures q(t.rows[i]) == ResolvedMask(columns)(t.rows[i]) {
      StoredStatusResolved(parse, columns, t.rows[i]);
    }
    CountCongruent(t.rows, q, ResolvedMask(columns));
    FilterLength(t.rows, ResolvedMask(columns));
    assert Table(columns, t.rows) == t;
    BucketsPartition(t);
  }

  // ---------------------------------------------------------------------
  // The store
  // ---------------------------------------------------------------------

  /**
   * The `tickets` table. `fails` parameters stand for the database raising
   * (no connection, a failed statement); the unique constraint on
   * `ticket_id` is checked here.
   */
  class TicketStore {
    var tickets: seq<TicketRecord>

    predicate Valid()
      reads this
    {
      forall k :: 0 <= k < |tickets| ==> Complete(tickets[k])
    }

    constructor()
      ensures tickets == [] && Valid()
    {
      tickets := [];
    }

    /**
     * `save_tickets_to_db(df)`: delete every ticket, add one record per row,
     * commit. A failure or a repeated `ticket_id` rolls the whole save back.
     */
    method SaveTickets(parse: Value -> Option<int>, t: Table, fails: bool) returns (saved: bool)
      requires Valid()
      modifies this
      ensures Valid()
      ensures saved <==> !fails && DistinctIds(Converted(parse, t))
      ensures saved ==> tickets == Converted(parse, t)
      ensures !saved ==> tickets == old(tickets)
    {
      var staged: seq<TicketRecord> := [];
      for i := 0 to |t.rows|
        invariant |staged| == i
        invariant forall k :: 0 <= k < i ==> staged[k] == ToRecord(parse, t.columns, t.rows[k])
      {
        staged := staged + [ToRecord(parse, t.columns, t.rows[i])];
      }
      assert staged == Converted(parse, t);
      if fails || !DistinctIds(staged) {
        return false;
      }
      tickets := staged;
      return true;
    }

    /** `load_tickets_from_db()`: the stored records as a table, in order; an empty frame when there are none or the query fails. */
    method LoadTickets(fails: bool) returns (r: Table)
      requires Valid()
      ensures fails ==> r == EmptyFrame
      ensures !fails ==> r == LoadedTable(tickets)
      ensures WellFormed(r)
    {
      if fails || tickets == [] {
        return EmptyFrame;
      }
      var data: seq<Row> := [];
      for i := 0 to |tickets|
        invariant |data| == i
        invariant forall k :: 0 <= k < i ==> data[k] == LoadRow(tickets[k])
      {
        data := data + [LoadRow(tickets[i])];
      }
      r := Table(LoadedNames(), data);
      assert r == LoadedTable(tickets);
      LoadMirrorsSave();
    }

    /** `get_ticket_stats()`: zeros when the query fails. */
    function GetTicketStats(fails: bool): (s: Stats)
      reads this
      ensures fails ==> s == Stats(0, 0, 0)
      ensures !fails ==> s == StatsOf(tickets)
      ensures s.resolved + s.pending == s.total && s.pending >= 0
    {
      if fails then Stats(0, 0, 0) else StatsOf(tickets)
    }

    /** `clear_all_data()`: every ticket deleted, or nothing when it fails. */
    method ClearAllData(fails: bool) returns (cleared: bool)
      requires Valid()
      modifies this
      ensures Valid()
      ensures cleared <==> !fails
      ensures cleared ==> tickets == []
      ensures !cleared ==> tickets == old(tickets)
    {
      if fails {
        return false;
      }
      tickets := [];
      return true;
    }
  }

  /** An emptied store loads as an empty frame and counts zero tickets. */
  lemma ClearedStore()
    ensures LoadedTable([]) == EmptyFrame
    ensures StatsOf([]) == Stats(0, 0, 0)
  {
  }
}
