/**
 * `DataProcessor.clean_data` and `_process_uploaded_data`: the upload gate
 * (empty file, missing required columns) and the cleaning of an accepted
 * table: headers renamed to the standard names, date columns coerced to
 * timestamps, text columns stripped with the text "nan" turned back into a
 * null, ticket ids stripped, and all-null rows dropped.
 */
module Cleaning {
  import opened Wrappers
  import opened Text
  import opened Frame
  import opened Schema

  /** The columns `clean_data` coerces to timestamps. */
  const DateColumns: seq<string> := ["Created Date", "Resolved Date"]

  /** The columns `clean_data` strips and de-"nan"s. */
  const TextColumns: seq<string> := ["Status", "Assigned User", "Resolver", "Company", "Branch", "Priority", "Category"]

  const IdColumn: string := "Ticket ID"

  /** Every column `clean_data` touches, in the order it touches them. */
  const CleanedColumns: seq<string> := DateColumns + TextColumns + [IdColumn]

  /**
   * `pd.to_datetime(cell, errors='coerce', dayfirst=True)`. Timestamps pass
   * through, a date becomes its midnight, and anything else is handed to
   * `parse`, which stands for pandas' date parser; a value it cannot read
   * becomes NaT.
   */
  function ParseDate(parse: Value -> Option<int>, c: Cell): (r: Cell)
    ensures r.None? || r.value.Time?
    ensures c.Some? && c.value.Time? ==> r == c
    ensures c.None? ==> r.None?
    ensures c.Some? && c.value.Day? ==> r == Some(Time(c.value.days * 86400))
    ensures c.Some? && (c.value.Str? || c.value.Num?) ==> (r.None? <==> parse(c.value).None?)
    ensures c.Some? && (c.value.Str? || c.value.Num?) && parse(c.value).Some? ==> r == Some(Time(parse(c.value).value))
  {
    match c
    case None => None
    case Some(Time(seconds)) => c
    case Some(Day(days)) => Some(Time(days * 86400))
    case Some(v) => match parse(v) case Some(seconds) => Some(Time(seconds)) case None => None
  }

  /** `astype(str).str.strip()` followed by `replace('nan', np.nan)` on one cell. */
  function CleanText(c: Cell): (r: Cell)
    ensures r.None? <==> Strip(ShowCell(c)) == "nan"
    ensures r.Some? ==> r == Some(Str(Strip(ShowCell(c))))
  {
    var s := Strip(ShowCell(c));
    if s == "nan" then None else Some(Str(s))
  }

  /** `astype(str).str.strip()` on a ticket id: a null id becomes the text "nan", never a null. */
  function CleanTicketId(c: Cell): (r: Cell)
    ensures r.Some? && r.value.Str? && r.value.text == Strip(ShowCell(c))
  {
    Some(Str(Strip(ShowCell(c))))
  }

  /** How `clean_data` treats a column, by its header. */
  datatype Kind = DateKind | TextKind | IdKind | Untouched

  function KindOf(header: string): (k: Kind)
    ensures k == Untouched <==> header !in CleanedColumns
  {
    if header in DateColumns then DateKind
    else if header in TextColumns then TextKind
    else if header == IdColumn then IdKind
    else Untouched
  }

  /** The cleaning `clean_data` applies to a cell under the column labelled `header`. */
  function CleanCell(header: string, parse: Value -> Option<int>, c: Cell): Cell
  {
    match KindOf(header)
    case DateKind => ParseDate(parse, c)
    case TextKind => CleanText(c)
    case IdKind => CleanTicketId(c)
    case Untouched => c
  }

  /** What a cleaned cell looks like, by its column's header. */
  predicate Conforms(header: string, c: Cell)
  {
    match KindOf(header)
    case DateKind => c.None? || c.value.Time?
    case TextKind => c.None? || (c.value.Str? && Strip(c.value.text) == c.value.text && c.value.text != "nan")
    case IdKind => c.Some? && c.value.Str? && Strip(c.value.text) == c.value.text
    case Untouched => true
  }

  /** Every cleaned cell conforms to its column, and a column `clean_data` does not touch keeps its cells. */
  lemma CleanCellConforms(header: string, parse: Value -> Option<int>, c: Cell)
    ensures Conforms(header, CleanCell(header, parse, c))
    ensures header !in CleanedColumns ==> CleanCell(header, parse, c) == c
  {
    match KindOf(header)
    case DateKind =>
    case TextKind => StripIdempotent(ShowCell(c));
    case IdKind => StripIdempotent(ShowCell(c));
    case Untouched =>
  }

  /** Cleaning a cleaned cell changes nothing. */
  lemma CleanCellIdempotent(header: string, parse: Value -> Option<int>, c: Cell)
    ensures CleanCell(header, parse, CleanCell(header, parse, c)) == CleanCell(header, parse, c)
  {
    match KindOf(header)
    case DateKind =>
    case TextKind => StripIdempotent(ShowCell(c));
    case IdKind => StripIdempotent(ShowCell(c));
    case Untouched =>
  }

  /** A cell conforming to its column is left as it is by cleaning. */
  lemma ConformingCellIsClean(header: string, parse: Value -> Option<int>, c: Cell)
    requires KindOf(header) != Untouched && Conforms(header, c)
    ensures CleanCell(header, parse, c) == c
  {
    match KindOf(header)
    case DateKind =>
    case TextKind => TrimmedTextIsClean(c);
    case IdKind => TrimmedIdIsClean(c);
  }

  lemma TrimmedTextIsClean(c: Cell)
    requires c.None? || (c.value.Str? && Strip(c.value.text) == c.value.text && c.value.text != "nan")
    ensures CleanText(c) == c
  {
    if c.None? {
      NullTextIsClean(c);
    } else {
      StripTrimmed(c.value.text);
    }
  }

  lemma TrimmedIdIsClean(c: Cell)
    requires c.Some? && c.value.Str? && Strip(c.value.text) == c.value.text
    ensures CleanTicketId(c) == c
  {
    StripTrimmed(c.value.text);
  }

  /** A null text cell stays null: its text form "nan" is turned back into a null. */
  lemma NullTextIsClean(c: Cell)
    requires c.None?
    ensures CleanText(c) == c
  {
    var s := ShowCell(c);
    assert s == "nan";
    StripTrimmed(s);
  }

  /** The number of columns labelled `name`. */
  function Occurrences(columns: seq<string>, name: string): nat
  {
    multiset(columns)[name]
  }

  /**
   * The first of `names` that labels two or more columns. With such a
   * header `df[name]` is a DataFrame, and the Series operations `clean_data`
   * applies to it raise.
   */
  function FirstRepeated(columns: seq<string>, names: seq<string>): (r: Option<string>)
    ensures r.Some? ==> r.value in names && Occurrences(columns, r.value) >= 2
    ensures r.None? <==> forall i :: 0 <= i < |names| ==> Occurrences(columns, names[i]) < 2
  {
    if names == [] then None
    else if Occurrences(columns, names[0]) >= 2 then Some(names[0])
    else FirstRepeated(columns, names[1..])
  }

  /** The first repeated name is the one before which no name repeats. */
  lemma {:induction false} FirstRepeatedAt(columns: seq<string>, names: seq<string>, k: nat)
    requires k < |names| && Occurrences(columns, names[k]) >= 2
    requires forall i :: 0 <= i < k ==> Occurrences(columns, names[i]) < 2
    ensures FirstRepeated(columns, names) == Some(names[k])
  {
    if k > 0 {
      FirstRepeatedAt(columns, names[1..], k - 1);
    }
  }

  /** Searching a concatenation searches the first part, then the second. */
  lemma {:induction false} FirstRepeatedAppend(columns: seq<string>, a: seq<string>, b: seq<string>)
    ensures FirstRepeated(columns, a + b) == if FirstRepeated(columns, a).Some? then FirstRepeated(columns, a) else FirstRepeated(columns, b)
  {
    if a != [] {
      assert (a + b)[1..] == a[1..] + b;
      FirstRepeatedAppend(columns, a[1..], b);
    } else {
      assert a + b == b;
    }
  }

  /** The repeated header `clean_data` stops at: a date column, else a text column, else the ticket id. */
  lemma FirstRepeatedCleaned(columns: seq<string>)
    ensures FirstRepeated(columns, CleanedColumns) ==
      if FirstRepeated(columns, DateColumns).Some? then FirstRepeated(columns, DateColumns)
      else if FirstRepeated(columns, TextColumns).Some? then FirstRepeated(columns, TextColumns)
      else FirstRepeated(columns, [IdColumn])
  {
    FirstRepeatedAppend(columns, DateColumns + TextColumns, [IdColumn]);
    FirstRepeatedAppend(columns, DateColumns, TextColumns);
  }

  /** Distinct labels never repeat. */
  lemma DistinctLabelsNeverRepeat(columns: seq<string>, names: seq<string>)
    requires forall i, j :: 0 <= i < j < |columns| ==> columns[i] != columns[j]
    ensures FirstRepeated(columns, names) == None
  {
    forall name | name in names ensures Occurrences(columns, name) < 2 {
      DistinctOccurrences(columns, name);
    }
  }

  lemma {:induction false} DistinctOccurrences(columns: seq<string>, name: string)
    requires forall i, j :: 0 <= i < j < |columns| ==> columns[i] != columns[j]
    ensures Occurrences(columns, name) < 2
  {
    if columns != [] {
      assert columns == [columns[0]] + columns[1..];
      assert multiset(columns) == multiset{columns[0]} + multiset(columns[1..]);
      DistinctOccurrences(columns[1..], name);
      if columns[0] == name {
        assert name !in columns[1..];
      }
    }
  }

  /** A row cleaned column by column. */
  function CleanRow(columns: seq<string>, parse: Value -> Option<int>, row: Row): (r: Row)
    ensures |r| == |row|
  {
    seq(|row|, j requires 0 <= j < |row| => if j < |columns| then CleanCell(columns[j], parse, row[j]) else row[j])
  }

  /** `dropna(how='all')` keeps a row with at least one non-null cell. */
  predicate HasValue(row: Row)
  {
    exists j :: 0 <= j < |row| && row[j].Some?
  }

  /**
   * What `clean_data` returns: the renamed table with every row cleaned and
   * the all-null rows dropped, or the header that made pandas raise.
   */
  function Cleaned(t: Table, parse: Value -> Option<int>): Result<Table, string>
  {
    var columns := Rename(t.columns);
    match FirstRepeated(columns, CleanedColumns)
    case Some(name) => Err(name)
    case None => Ok(Table(columns, CleanRows(columns, parse, t.rows)))
  }

  /** Every row cleaned, then `dropna(how='all')`. */
  function CleanRows(columns: seq<string>, parse: Value -> Option<int>, rows: seq<Row>): seq<Row>
  {
    Filter(seq(|rows|, i requires 0 <= i < |rows| => CleanRow(columns, parse, rows[i])), HasValue)
  }

  /** The rows with the columns labelled in `done` cleaned and the others as they were. */
  function CleanedFor(columns: seq<string>, parse: Value -> Option<int>, rows: seq<Row>, done: seq<string>): (r: seq<Row>)
    ensures |r| == |rows|
  {
    seq(|rows|, i requires 0 <= i < |rows| =>
      seq(|rows[i]|, j requires 0 <= j < |rows[i]| =>
        if j < |columns| && columns[j] in done then CleanCell(columns[j], parse, rows[i][j]) else rows[i][j]))
  }

  /** Cleaning one more column, even one already cleaned, extends `done` by its header. */
  lemma CleanedForStep(columns: seq<string>, parse: Value -> Option<int>, rows: seq<Row>, done: seq<string>, name: string)
    ensures MapColumn(Table(columns, CleanedFor(columns, parse, rows, done)), name, c => CleanCell(name, parse, c)).rows
         == CleanedFor(columns, parse, rows, done + [name])
  {
    var before := Table(columns, CleanedFor(columns, parse, rows, done));
    var after := MapColumn(before, name, c => CleanCell(name, parse, c));
    var goal := CleanedFor(columns, parse, rows, done + [name]);
    forall i | 0 <= i < |rows| ensures after.rows[i] == goal[i] {
      forall j | 0 <= j < |rows[i]| ensures after.rows[i][j] == goal[i][j] {
        if j < |columns| && columns[j] == name && name in done {
          CleanCellIdempotent(name, parse, rows[i][j]);
        }
      }
    }
  }

  /** A header no column carries changes no cell when added to `done`. */
  lemma CleanedForAbsent(columns: seq<string>, parse: Value -> Option<int>, rows: seq<Row>, done: seq<string>, name: string)
    requires name !in columns
    ensures CleanedFor(columns, parse, rows, done) == CleanedFor(columns, parse, rows, done + [name])
  {
    forall i | 0 <= i < |rows|
      ensures CleanedFor(columns, parse, rows, done)[i] == CleanedFor(columns, parse, rows, done + [name])[i]
    {
    }
  }

  /** With nothing done every row is as it was. */
  lemma CleanedForNothing(columns: seq<string>, parse: Value -> Option<int>, rows: seq<Row>)
    ensures CleanedFor(columns, parse, rows, []) == rows
  {
    forall i | 0 <= i < |rows| ensures CleanedFor(columns, parse, rows, [])[i] == rows[i] {
    }
  }

  /** Once every cleaned header is done, the rows are the cleaned rows. */
  lemma CleanedForAll(columns: seq<string>, parse: Value -> Option<int>, rows: seq<Row>)
    ensures CleanedFor(columns, parse, rows, CleanedColumns) == seq(|rows|, i requires 0 <= i < |rows| => CleanRow(columns, parse, rows[i]))
  {
    forall i | 0 <= i < |rows| ensures CleanedFor(columns, parse, rows, CleanedColumns)[i] == CleanRow(columns, parse, rows[i]) {
      forall j | 0 <= j < |rows[i]| && j < |columns|
        ensures CleanedFor(columns, parse, rows, CleanedColumns)[i][j] == CleanRow(columns, parse, rows[i])[j]
      {
        CleanCellConforms(columns[j], parse, rows[i][j]);
      }
    }
  }

  /**
   * One loop of `clean_data` over a list of labels: each header present is
   * cleaned in place; a header carried by two columns stops the cleaning
   * with that header, as the exception pandas raises there does.
   */
  method CleanColumns(t: Table, parse: Value -> Option<int>, ghost rows: seq<Row>, ghost done: seq<string>, names: seq<string>)
    returns (r: Result<Table, string>)
    requires t.rows == CleanedFor(t.columns, parse, rows, done)
    ensures FirstRepeated(t.columns, names).Some? ==> r == Err(FirstRepeated(t.columns, names).value)
    ensures FirstRepeated(t.columns, names).None? ==> r == Ok(Table(t.columns, CleanedFor(t.columns, parse, rows, done + names)))
  {
    var df := t;
    assert done + names[..0] == done;
    for k := 0 to |names|
      invariant df.columns == t.columns
      invariant df.rows == CleanedFor(t.columns, parse, rows, done + names[..k])
      invariant forall i :: 0 <= i < k ==> Occurrences(t.columns, names[i]) < 2
    {
      var name := names[k];
      assert done + names[..k + 1] == done + names[..k] + [name];
      if Occurrences(df.columns, name) >= 2 {
        FirstRepeatedAt(t.columns, names, k);
        return Err(name);
      }
      if name in df.columns {
        CleanedForStep(t.columns, parse, rows, done + names[..k], name);
        df := MapColumn(df, name, c => CleanCell(name, parse, c));
      } else {
        CleanedForAbsent(t.columns, parse, rows, done + names[..k], name);
      }
    }
    assert names[..|names|] == names;
    r := Ok(df);
  }

  /** The header half of `clean_data`: the mapping is built, then `df.rename(columns=column_mapping)`. */
  method RenameHeaders(headers: seq<string>) returns (columns: seq<string>)
    ensures columns == Rename(headers)
  {
    var mapping := BuildColumnMapping(headers);
    columns := seq(|headers|, i requires 0 <= i < |headers| => if headers[i] in mapping then mapping[headers[i]] else headers[i]);
  }

  /** `clean_data(df)`: `Err(header)` stands for the exception a repeated cleaned header raises. */
  method CleanData(t: Table, parse: Value -> Option<int>) returns (r: Result<Table, string>)
    ensures r == Cleaned(t, parse)
  {
    var columns := RenameHeaders(t.columns);
    CleanedForNothing(columns, parse, t.rows);
    FirstRepeatedCleaned(columns);
    var dates := CleanColumns(Table(columns, t.rows), parse, t.rows, [], DateColumns);
    if dates.Err? {
      return Err(dates.error);
    }
    assert [] + DateColumns == DateColumns;
    var texts := CleanColumns(dates.value, parse, t.rows, DateColumns, TextColumns);
    if texts.Err? {
      return Err(texts.error);
    }
    var ids := CleanColumns(texts.value, parse, t.rows, DateColumns + TextColumns, [IdColumn]);
    if ids.Err? {
      return Err(ids.error);
    }
    CleanedForAll(columns, parse, t.rows);
    assert ids.value.rows == seq(|t.rows|, i requires 0 <= i < |t.rows| => CleanRow(columns, parse, t.rows[i]));
    r := Ok(Table(columns, Filter(ids.value.rows, HasValue)));
  }

  /** Every cleaned row has one cell per column and a non-null cell, and every cell conforms to its column. */
  lemma CleanRowsConform(columns: seq<string>, parse: Value -> Option<int>, rows: seq<Row>)
    requires forall i :: 0 <= i < |rows| ==> |rows[i]| == |columns|
    ensures forall i :: 0 <= i < |CleanRows(columns, parse, rows)| ==>
      |CleanRows(columns, parse, rows)[i]| == |columns| && HasValue(CleanRows(columns, parse, rows)[i])
    ensures forall i, j :: 0 <= i < |CleanRows(columns, parse, rows)| && 0 <= j < |columns| ==>
      Conforms(columns[j], CleanRows(columns, parse, rows)[i][j])
  {
    var all := seq(|rows|, i requires 0 <= i < |rows| => CleanRow(columns, parse, rows[i]));
    var kept := CleanRows(columns, parse, rows);
    FilterMembers(all, HasValue);
    forall i | 0 <= i < |kept|
      ensures |kept[i]| == |columns|
      ensures forall j :: 0 <= j < |columns| ==> Conforms(columns[j], kept[i][j])
    {
      assert kept[i] in all;
      var k :| 0 <= k < |all| && all[k] == kept[i];
      forall j | 0 <= j < |columns| ensures Conforms(columns[j], kept[i][j]) {
        CleanCellConforms(columns[j], parse, rows[k][j]);
      }
    }
  }

  /** The cleaned rows are the input's rows, cleaned, in their order, with some dropped. */
  lemma CleanRowsInOrder(columns: seq<string>, parse: Value -> Option<int>, rows: seq<Row>)
    ensures IsSubsequence(CleanRows(columns, parse, rows), seq(|rows|, i requires 0 <= i < |rows| => CleanRow(columns, parse, rows[i])))
  {
    FilterIsSubsequence(seq(|rows|, i requires 0 <= i < |rows| => CleanRow(columns, parse, rows[i])), HasValue);
  }

  /** With a ticket id column no row is all null, so every row survives `dropna(how='all')`. */
  lemma CleanRowsKeepEveryRowWithIds(columns: seq<string>, parse: Value -> Option<int>, rows: seq<Row>)
    requires forall i :: 0 <= i < |rows| ==> |rows[i]| == |columns|
    requires IdColumn in columns
    ensures |CleanRows(columns, parse, rows)| == |rows|
    ensures forall i :: 0 <= i < |rows| ==> CleanRows(columns, parse, rows)[i] == CleanRow(columns, parse, rows[i])
  {
    var all := seq(|rows|, i requires 0 <= i < |rows| => CleanRow(columns, parse, rows[i]));
    forall i | 0 <= i < |all| ensures HasValue(all[i]) {
      RowWithIdHasValue(columns, parse, rows[i]);
    }
    FilterAll(all, HasValue);
  }

  /** The cleaned ticket id of a row is never null. */
  lemma RowWithIdHasValue(columns: seq<string>, parse: Value -> Option<int>, row: Row)
    requires |row| == |columns| && IdColumn in columns
    ensures HasValue(CleanRow(columns, parse, row))
  {
    var k := IndexOf(columns, IdColumn);
    IdHeaderKind(columns[k]);
    IdCellPresent(columns[k], parse, row[k]);
    assert CleanRow(columns, parse, row)[k].Some?;
  }

  lemma IdHeaderKind(header: string)
    requires header == IdColumn
    ensures KindOf(header) == IdKind
  {
  }

  lemma IdCellPresent(header: string, parse: Value -> Option<int>, c: Cell)
    requires KindOf(header) == IdKind
    ensures CleanCell(header, parse, c).Some?
  {
  }

  /** The cleaned table keeps the renamed headers, has no all-null row, and every cell conforms to its column. */
  lemma CleanedConforms(t: Table, parse: Value -> Option<int>)
    requires WellFormed(t) && Cleaned(t, parse).Ok?
    ensures Cleaned(t, parse).value.columns == Rename(t.columns)
    ensures WellFormed(Cleaned(t, parse).value)
    ensures forall i :: 0 <= i < |Cleaned(t, parse).value.rows| ==> HasValue(Cleaned(t, parse).value.rows[i])
    ensures forall i, j :: 0 <= i < |Cleaned(t, parse).value.rows| && 0 <= j < |Cleaned(t, parse).value.columns| ==>
      Conforms(Cleaned(t, parse).value.columns[j], Cleaned(t, parse).value.rows[i][j])
  {
    CleanRowsConform(Rename(t.columns), parse, t.rows);
  }

  /** With a ticket id column after renaming, cleaning keeps every row, in order. */
  lemma CleanedKeepsEveryRowWithIds(t: Table, parse: Value -> Option<int>)
    requires WellFormed(t) && Cleaned(t, parse).Ok? && IdColumn in Rename(t.columns)
    ensures |Cleaned(t, parse).value.rows| == |t.rows|
    ensures forall i :: 0 <= i < |t.rows| ==> Cleaned(t, parse).value.rows[i] == CleanRow(Rename(t.columns), parse, t.rows[i])
  {
    CleanRowsKeepEveryRowWithIds(Rename(t.columns), parse, t.rows);
  }

  /** Distinct headers after renaming never make cleaning raise. */
  lemma CleanedSucceeds(t: Table, parse: Value -> Option<int>)
    requires forall i, j :: 0 <= i < j < |Rename(t.columns)| ==> Rename(t.columns)[i] != Rename(t.columns)[j]
    ensures Cleaned(t, parse).Ok?
  {
    DistinctLabelsNeverRepeat(Rename(t.columns), CleanedColumns);
  }

  /** Why an upload yields no data. */
  datatype UploadError =
    | EmptyFile                              // `df.empty`
    | MissingRequired(names: seq<string>)    // the required columns not found, in order
    | Unreadable(header: string)              // cleaning raised on this repeated header

  /**
   * `_process_uploaded_data(df)`: an empty table is refused, then a table
   * missing a required column, and the rest is cleaned. The loaders around
   * it turn every refusal and every exception into `None`.
   */
  method ProcessUploadedData(t: Table, parse: Value -> Option<int>) returns (r: Result<Table, UploadError>)
    ensures IsEmpty(t) ==> r == Err(EmptyFile)
    ensures !IsEmpty(t) && MissingColumns(t.columns) != [] ==> r == Err(MissingRequired(MissingColumns(t.columns)))
    ensures !IsEmpty(t) && MissingColumns(t.columns) == [] ==>
      r == match Cleaned(t, parse) case Ok(u) => Ok(u) case Err(header) => Err(Unreadable(header))
    ensures r.Ok? ==> r.value.columns == Rename(t.columns)
    ensures r.Ok? ==> "Ticket ID" in r.value.columns && "Status" in r.value.columns
    ensures r.Ok? ==> "Assigned User" in r.value.columns && "Created Date" in r.value.columns
  {
    if IsEmpty(t) {
      return Err(EmptyFile);
    }
    var missing := ValidateColumns(t.columns);
    if missing != [] {
      return Err(MissingRequired(missing));
    }
    var cleaned := CleanData(t, parse);
    if cleaned.Err? {
      return Err(Unreadable(cleaned.error));
    }
    RenameReachesStandardNames(t.columns);
    r := Ok(cleaned.value);
  }
}
