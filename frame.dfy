/**
 * The table model: a pandas DataFrame is a list of column labels and a
 * sequence of rows, each row holding one cell per column, in column order.
 * Labels may repeat, as in pandas; a lookup by label finds the first one.
 */
module Frame {
  import opened Wrappers
  import opened Text
  import opened Calendar

  /** A non-null cell value. */
  datatype Value =
    | Str(text: string)      // a Python str
    | Num(number: int)       // a number; only integers are modelled
    | Time(seconds: int)     // a pandas Timestamp, in seconds since the epoch
    | Day(days: int)         // a datetime.date, as `.dt.date` yields it

  /** A cell; `None` stands for pandas' NaN, NaT and None alike. */
  type Cell = Option<Value>

  type Row = seq<Cell>

  datatype Table = Table(columns: seq<string>, rows: seq<Row>)

  /** `pd.DataFrame()`: no columns and no rows. */
  const EmptyFrame: Table := Table([], [])

  /** Every row has one cell per column. */
  predicate WellFormed(t: Table) {
    forall r :: 0 <= r < |t.rows| ==> |t.rows[r]| == |t.columns|
  }

  /** `df.empty`: either axis has length zero. */
  predicate IsEmpty(t: Table) {
    |t.rows| == 0 || |t.columns| == 0
  }

  /** `name in df.columns` */
  predicate Has(t: Table, name: string) {
    name in t.columns
  }

  /** The position of the first column labelled `name`, or the number of columns when none is. */
  function IndexOf(columns: seq<string>, name: string): (k: nat)
    ensures k <= |columns|
    ensures k < |columns| <==> name in columns
    ensures k < |columns| ==> columns[k] == name
    ensures forall i :: 0 <= i < k ==> columns[i] != name
  {
    if columns == [] then 0
    else if columns[0] == name then 0
    else 1 + IndexOf(columns[1..], name)
  }

  /** The cell of `row` under the first column labelled `name`; null when there is no such column. */
  function Get(columns: seq<string>, row: Row, name: string): (c: Cell)
    ensures name !in columns ==> c == None
  {
    var k := IndexOf(columns, name);
    if k < |columns| && k < |row| then row[k] else None
  }

  /** `str(v)` */
  function Show(v: Value): string
  {
    match v
    case Str(s) => s
    case Num(n) => IntToString(n)
    case Time(seconds) => IsoDateTime(seconds)
    case Day(days) => IsoDate(days)
  }

  /** `str(x)` of a cell as `astype(str)` renders it: a null cell becomes "nan". */
  function ShowCell(c: Cell): string
  {
    match c
    case None => "nan"
    case Some(v) => Show(v)
  }

  /** The timestamp held by a cell, if it holds one. */
  function TimeOf(c: Cell): (r: Option<int>)
    ensures r.Some? <==> c.Some? && c.value.Time?
  {
    match c
    case Some(Time(seconds)) => Some(seconds)
    case _ => None
  }

  /**
   * `.dt.date` of a date column: the calendar day of a timestamp (or the
   * date itself); null for a null cell. A date column holds only timestamps
   * and nulls once it has been cleaned; other values count as null here.
   */
  function DateOf(c: Cell): (r: Option<int>)
    ensures c.Some? && c.value.Time? ==> r == Some(DayOf(c.value.seconds))
    ensures c.None? ==> r.None?
  {
    match c
    case Some(Time(seconds)) => Some(DayOf(seconds))
    case Some(Day(days)) => Some(days)
    case _ => None
  }

  /** `s[p]` for a boolean mask: the elements satisfying `p`, in their original order. */
  function Filter<T>(s: seq<T>, p: T -> bool): (r: seq<T>)
    ensures |r| <= |s|
  {
    if s == [] then [] else if p(s[0]) then [s[0]] + Filter(s[1..], p) else Filter(s[1..], p)
  }

  /** The filtered sequence holds exactly the elements that satisfy `p`. */
  lemma {:induction false} FilterMembers<T>(s: seq<T>, p: T -> bool)
    ensures forall i :: 0 <= i < |Filter(s, p)| ==> p(Filter(s, p)[i]) && Filter(s, p)[i] in s
    ensures forall i :: 0 <= i < |s| && p(s[i]) ==> s[i] in Filter(s, p)
  {
    if s != [] {
      var rest := Filter(s[1..], p);
      FilterMembers(s[1..], p);
      assert s == [s[0]] + s[1..];
      forall i | 0 <= i < |Filter(s, p)| ensures Filter(s, p)[i] in s {
        if p(s[0]) && i > 0 { assert Filter(s, p)[i] == rest[i - 1]; }
      }
    }
  }

  /** The number of elements satisfying `p`. */
  function Count<T>(s: seq<T>, p: T -> bool): (n: nat)
    ensures n <= |s|
  {
    if s == [] then 0 else (if p(s[0]) then 1 else 0) + Count(s[1..], p)
  }

  /** Filtering a sequence extended by one element extends the filtered sequence by that element when it qualifies. */
  lemma {:induction false} FilterSnoc<T>(s: seq<T>, x: T, p: T -> bool)
    ensures Filter(s + [x], p) == Filter(s, p) + (if p(x) then [x] else [])
  {
    if s == [] {
      assert s + [x] == [x];
    } else {
      assert (s + [x])[1..] == s[1..] + [x];
      FilterSnoc(s[1..], x, p);
    }
  }

  lemma {:induction false} CountSnoc<T>(s: seq<T>, x: T, p: T -> bool)
    ensures Count(s + [x], p) == Count(s, p) + (if p(x) then 1 else 0)
  {
    if s == [] {
      assert s + [x] == [x];
    } else {
      assert (s + [x])[1..] == s[1..] + [x];
      CountSnoc(s[1..], x, p);
    }
  }

  lemma {:induction false} FilterLength<T>(s: seq<T>, p: T -> bool)
    ensures |Filter(s, p)| == Count(s, p)
  {
    if s != [] { FilterLength(s[1..], p); }
  }

  /** Every element satisfies `p` or fails it: the two counts make up the whole. */
  lemma {:induction false} CountComplement<T>(s: seq<T>, p: T -> bool, q: T -> bool)
    requires forall x :: q(x) == !p(x)
    ensures Count(s, p) + Count(s, q) == |s|
  {
    if s != [] { CountComplement(s[1..], p, q); }
  }

  /** Counts of disjoint predicates add up to the count of their union. */
  lemma {:induction false} CountDisjointUnion<T>(s: seq<T>, p: T -> bool, q: T -> bool, pq: T -> bool)
    requires forall x :: !(p(x) && q(x)) && (pq(x) == (p(x) || q(x)))
    ensures Count(s, p) + Count(s, q) == Count(s, pq)
  {
    if s != [] { CountDisjointUnion(s[1..], p, q, pq); }
  }

  /** A predicate implied by another holds at least as often. */
  lemma {:induction false} CountMonotone<T>(s: seq<T>, p: T -> bool, q: T -> bool)
    requires forall x :: p(x) ==> q(x)
    ensures Count(s, p) <= Count(s, q)
  {
    if s != [] { CountMonotone(s[1..], p, q); }
  }

  /** Counting over a concatenation. */
  lemma {:induction false} CountAppend<T>(a: seq<T>, b: seq<T>, p: T -> bool)
    ensures Count(a + b, p) == Count(a, p) + Count(b, p)
  {
    if a == [] {
      assert a + b == b;
    } else {
      assert (a + b)[1..] == a[1..] + b;
      CountAppend(a[1..], b, p);
    }
  }

  /** Predicates that agree on the elements give the same filter. */
  lemma {:induction false} FilterCongruent<T>(s: seq<T>, p: T -> bool, q: T -> bool)
    requires forall i :: 0 <= i < |s| ==> p(s[i]) == q(s[i])
    ensures Filter(s, p) == Filter(s, q)
  {
    if s != [] { FilterCongruent(s[1..], p, q); }
  }

  lemma {:induction false} CountCongruent<T>(s: seq<T>, p: T -> bool, q: T -> bool)
    requires forall i :: 0 <= i < |s| ==> p(s[i]) == q(s[i])
    ensures Count(s, p) == Count(s, q)
  {
    if s != [] { CountCongruent(s[1..], p, q); }
  }

  /** Filtering twice is filtering once by the conjunction. */
  lemma {:induction false} FilterFilter<T>(s: seq<T>, p: T -> bool, q: T -> bool, pq: T -> bool)
    requires forall x :: pq(x) == (p(x) && q(x))
    ensures Filter(Filter(s, p), q) == Filter(s, pq)
  {
    if s != [] { FilterFilter(s[1..], p, q, pq); }
  }

  /** A predicate every element satisfies keeps the whole sequence. */
  lemma {:induction false} FilterAll<T>(s: seq<T>, p: T -> bool)
    requires forall i :: 0 <= i < |s| ==> p(s[i])
    ensures Filter(s, p) == s
  {
    if s != [] { FilterAll(s[1..], p); }
  }

  /** A predicate that fails on exactly one position drops that element and keeps the rest. */
  lemma {:induction false} FilterAllBut<T>(s: seq<T>, p: T -> bool, k: nat)
    requires k < |s|
    requires forall i :: 0 <= i < |s| ==> (p(s[i]) <==> i != k)
    ensures Filter(s, p) == s[..k] + s[k + 1..]
  {
    var rest := s[1..];
    forall i | 0 <= i < |rest| ensures p(rest[i]) <==> i + 1 != k {
      assert rest[i] == s[i + 1];
    }
    if k == 0 {
      assert !p(s[0]);
      assert Filter(s, p) == Filter(rest, p);
      FilterAll(rest, p);
      assert s[k + 1..] == rest;
    } else {
      assert p(s[0]);
      assert Filter(s, p) == [s[0]] + Filter(rest, p);
      FilterAllBut(rest, p, k - 1);
      assert s[..k] == [s[0]] + rest[..k - 1];
      assert s[k + 1..] == rest[k..];
    }
  }

  /** The count of elements satisfying `p` is the count of the filtered sequence under any `q` that `p` implies. */
  lemma {:induction false} CountOfFilter<T>(s: seq<T>, p: T -> bool, q: T -> bool, pq: T -> bool)
    requires forall x :: pq(x) == (p(x) && q(x))
    ensures Count(Filter(s, p), q) == Count(s, pq)
  {
    if s != [] { CountOfFilter(s[1..], p, q, pq); }
  }

  /**
   * `a` is a subsequence of `b`: `a` is `b` with some elements removed, the
   * rest kept in order. Decided by matching greedily from the front.
   */
  predicate IsSubsequence<T(==)>(a: seq<T>, b: seq<T>)
    decreases |b|
  {
    if a == [] then true
    else if b == [] then false
    else if a[0] == b[0] then IsSubsequence(a[1..], b[1..])
    else IsSubsequence(a, b[1..])
  }

  /** Dropping the first element of a subsequence leaves a subsequence. */
  lemma {:induction false} SubsequenceDropHead<T>(a: seq<T>, b: seq<T>)
    requires a != [] && IsSubsequence(a, b)
    ensures IsSubsequence(a[1..], b)
    decreases |b|, |a|
  {
    if a[0] != b[0] {
      SubsequenceDropHead(a, b[1..]);
    }
    SubsequenceSkip(a[1..], b);
  }

  /** A subsequence of the tail is a subsequence of the whole. */
  lemma {:induction false} SubsequenceSkip<T>(a: seq<T>, b: seq<T>)
    requires b != [] && IsSubsequence(a, b[1..])
    ensures IsSubsequence(a, b)
    decreases |b|, |a|
  {
    if a != [] && a[0] == b[0] {
      SubsequenceDropHead(a, b[1..]);
    }
  }

  /** A filter keeps a subsequence of its input: nothing is added and nothing reordered. */
  lemma {:induction false} FilterIsSubsequence<T>(s: seq<T>, p: T -> bool)
    ensures IsSubsequence(Filter(s, p), s)
  {
    if s != [] {
      FilterIsSubsequence(s[1..], p);
      if !p(s[0]) { SubsequenceSkip(Filter(s[1..], p), s); }
    }
  }

  /** Being a subsequence is transitive. */
  lemma {:induction false} SubsequenceTransitive<T>(a: seq<T>, b: seq<T>, c: seq<T>)
    requires IsSubsequence(a, b) && IsSubsequence(b, c)
    ensures IsSubsequence(a, c)
    decreases |c|
  {
    if a != [] && c != [] {
      if b[0] == c[0] {
        if a[0] == b[0] {
          SubsequenceTransitive(a[1..], b[1..], c[1..]);
        } else {
          SubsequenceTransitive(a, b[1..], c[1..]);
        }
      } else {
        SubsequenceTransitive(a, b, c[1..]);
        if a[0] == c[0] { SubsequenceDropHead(a, c[1..]); }
      }
    }
  }

  /** `df[mask]`: the rows satisfying `p`, all columns kept. */
  function WhereRows(t: Table, p: Row -> bool): (r: Table)
    ensures r.columns == t.columns
    ensures WellFormed(t) ==> WellFormed(r)
    ensures forall row :: row in r.rows <==> row in t.rows && p(row)
  {
    FilterMembers(t.rows, p);
    Table(t.columns, Filter(t.rows, p))
  }

  /** `df[name]`: the cells of a column, one per row. */
  function Column(t: Table, name: string): (cells: seq<Cell>)
    ensures |cells| == |t.rows|
    ensures forall i :: 0 <= i < |t.rows| ==> cells[i] == Get(t.columns, t.rows[i], name)
  {
    seq(|t.rows|, i requires 0 <= i < |t.rows| => Get(t.columns, t.rows[i], name))
  }

  /** `df[names]`: the listed columns in the listed order, each row cut down accordingly. */
  function Select(t: Table, names: seq<string>): (r: Table)
    ensures r.columns == names && |r.rows| == |t.rows| && WellFormed(r)
    ensures forall i, j :: 0 <= i < |t.rows| && 0 <= j < |names| ==> r.rows[i][j] == Get(t.columns, t.rows[i], names[j])
  {
    Table(names, seq(|t.rows|, i requires 0 <= i < |t.rows| =>
      seq(|names|, j requires 0 <= j < |names| => Get(t.columns, t.rows[i], names[j]))))
  }

  /** `df[name] = f(df[name])`: every cell under a column labelled `name` is replaced, nothing else changes. */
  function MapColumn(t: Table, name: string, f: Cell -> Cell): (r: Table)
    ensures r.columns == t.columns && |r.rows| == |t.rows|
    ensures WellFormed(t) ==> WellFormed(r)
    ensures forall i, j :: 0 <= i < |t.rows| && 0 <= j < |t.rows[i]| ==>
      |r.rows[i]| == |t.rows[i]| && r.rows[i][j] == if j < |t.columns| && t.columns[j] == name then f(t.rows[i][j]) else t.rows[i][j]
  {
    Table(t.columns, seq(|t.rows|, i requires 0 <= i < |t.rows| =>
      seq(|t.rows[i]|, j requires 0 <= j < |t.rows[i]| =>
        if j < |t.columns| && t.columns[j] == name then f(t.rows[i][j]) else t.rows[i][j])))
  }

  /**
   * `df[name] = values`: the column is overwritten where it exists and
   * appended at the end otherwise; its new cells are computed from each row.
   */
  function SetColumn(t: Table, name: string, f: Row -> Cell): (r: Table)
    requires WellFormed(t)
    ensures WellFormed(r) && |r.rows| == |t.rows|
    ensures Has(r, name)
    ensures name in t.columns ==> r.columns == t.columns
    ensures name !in t.columns ==> r.columns == t.columns + [name]
    ensures forall i :: 0 <= i < |t.rows| ==> Get(r.columns, r.rows[i], name) == f(t.rows[i])
    ensures forall i, other :: 0 <= i < |t.rows| && other != name ==> Get(r.columns, r.rows[i], other) == Get(t.columns, t.rows[i], other)
  {
    if name in t.columns then OverwriteColumn(t, name, f) else AppendColumn(t, name, f)
  }

  /** `df[name] = values` for a column that exists: every cell under that label is replaced. */
  function OverwriteColumn(t: Table, name: string, f: Row -> Cell): (r: Table)
    requires WellFormed(t) && name in t.columns
    ensures WellFormed(r) && |r.rows| == |t.rows| && r.columns == t.columns
    ensures forall i :: 0 <= i < |t.rows| ==> Get(r.columns, r.rows[i], name) == f(t.rows[i])
    ensures forall i, other :: 0 <= i < |t.rows| && other != name ==> Get(r.columns, r.rows[i], other) == Get(t.columns, t.rows[i], other)
  {
    var r := Table(t.columns, seq(|t.rows|, i requires 0 <= i < |t.rows| => OverwriteCells(t.columns, t.rows[i], name, f(t.rows[i]))));
    assert forall i :: 0 <= i < |t.rows| ==> r.rows[i] == OverwriteCells(t.columns, t.rows[i], name, f(t.rows[i]));
    r
  }

  /** One row with every cell under the label `name` replaced by `c`. */
  function OverwriteCells(columns: seq<string>, row: Row, name: string, c: Cell): (r: Row)
    requires |row| == |columns| && name in columns
    ensures |r| == |row|
    ensures Get(columns, r, name) == c
    ensures forall other :: other != name ==> Get(columns, r, other) == Get(columns, row, other)
  {
    var r := seq(|row|, j requires 0 <= j < |row| => if columns[j] == name then c else row[j]);
    forall other | other != name ensures Get(columns, r, other) == Get(columns, row, other) {
      var m := IndexOf(columns, other);
      if m < |columns| { assert columns[m] != name; }
    }
    r
  }

  /** `df[name] = values` for a new column: each row gains one cell at the end. */
  function AppendColumn(t: Table, name: string, f: Row -> Cell): (r: Table)
    requires WellFormed(t) && name !in t.columns
    ensures WellFormed(r) && |r.rows| == |t.rows| && r.columns == t.columns + [name]
    ensures forall i :: 0 <= i < |t.rows| ==> Get(r.columns, r.rows[i], name) == f(t.rows[i])
    ensures forall i, other :: 0 <= i < |t.rows| && other != name ==> Get(r.columns, r.rows[i], other) == Get(t.columns, t.rows[i], other)
  {
    var r := Table(t.columns + [name], seq(|t.rows|, i requires 0 <= i < |t.rows| => t.rows[i] + [f(t.rows[i])]));
    forall i | 0 <= i < |t.rows| ensures Get(r.columns, r.rows[i], name) == f(t.rows[i]) {
      IndexOfAppend(t.columns, name, name);
    }
    forall i, other | 0 <= i < |t.rows| && other != name
      ensures Get(r.columns, r.rows[i], other) == Get(t.columns, t.rows[i], other)
    {
      IndexOfAppend(t.columns, name, other);
    }
    r
  }

  lemma {:induction false} IndexOfAppend(columns: seq<string>, last: string, name: string)
    ensures name in columns ==> IndexOf(columns + [last], name) == IndexOf(columns, name)
    ensures name !in columns && name == last ==> IndexOf(columns + [last], name) == |columns|
    ensures name !in columns && name != last ==> IndexOf(columns + [last], name) == |columns| + 1
  {
    if columns != [] {
      assert (columns + [last])[1..] == columns[1..] + [last];
      IndexOfAppend(columns[1..], last, name);
    }
  }
}
