/**
 * The three aggregations the views are built from: `value_counts()`
 * (counts per distinct non-null value, largest first), `groupby(date).size()`
 * (counts per calendar day, days ascending) and `cumsum()` (running totals).
 */
module Aggregate {
  import opened Wrappers
  import opened Frame

  /** `dropna()`: the non-null values of a column, in order. */
  function NonNull(cells: seq<Cell>): (vs: seq<Value>)
    ensures |vs| == Count(cells, (c: Cell) => c.Some?)
    ensures forall v :: multiset(vs)[v] == multiset(cells)[Some(v)]
  {
    if cells == [] then []
    else
      assert cells == [cells[0]] + cells[1..];
      match cells[0]
      case None => NonNull(cells[1..])
      case Some(v) => [v] + NonNull(cells[1..])
  }

  /** A list of (key, count) entries, as a pandas Series of counts is. */
  type Counts<K> = seq<(K, nat)>

  /** The sum of the counts of every entry with key `k`. */
  function CountFor<K(==)>(ps: Counts<K>, k: K): nat
  {
    if ps == [] then 0 else (if ps[0].0 == k then ps[0].1 else 0) + CountFor(ps[1..], k)
  }

  /** The sum of all counts. */
  function Total<K>(ps: Counts<K>): nat
  {
    if ps == [] then 0 else ps[0].1 + Total(ps[1..])
  }

  function KeySet<K>(ps: Counts<K>): set<K>
  {
    set i | 0 <= i < |ps| :: ps[i].0
  }

  predicate DistinctKeys<K(==)>(ps: Counts<K>)
  {
    forall i, j :: 0 <= i < j < |ps| ==> ps[i].0 != ps[j].0
  }

  predicate Positive<K>(ps: Counts<K>)
  {
    forall i :: 0 <= i < |ps| ==> ps[i].1 >= 1
  }

  /**
   * `ps` counts the elements of `vs`: one entry per distinct element, each
   * entry's count is the number of occurrences, so every count is positive
   * and the counts sum to the length of `vs`.
   */
  ghost predicate Tallies<K(!new)>(ps: Counts<K>, vs: seq<K>)
  {
    && DistinctKeys(ps)
    && Positive(ps)
    && (forall k :: CountFor(ps, k) == multiset(vs)[k])
    && Total(ps) == |vs|
  }

  /** A count list that tallies `vs` has an entry for exactly the elements of `vs`. */
  lemma TalliesKeys<K(!new)>(ps: Counts<K>, vs: seq<K>, k: K)
    requires Tallies(ps, vs)
    ensures k in KeySet(ps) <==> k in vs
  {
    if k in KeySet(ps) {
      var i :| 0 <= i < |ps| && ps[i].0 == k;
      CountForAtLeast(ps, i);
    } else {
      CountForAbsent(ps, k);
    }
  }

  lemma {:induction false} CountForAtLeast<K>(ps: Counts<K>, i: nat)
    requires i < |ps|
    ensures CountFor(ps, ps[i].0) >= ps[i].1
  {
    if i > 0 { CountForAtLeast(ps[1..], i - 1); }
  }

  lemma {:induction false} CountForAbsent<K>(ps: Counts<K>, k: K)
    requires k !in KeySet(ps)
    ensures CountFor(ps, k) == 0
  {
    if ps != [] {
      assert KeySet(ps[1..]) <= KeySet(ps) by {
        forall x | x in KeySet(ps[1..]) ensures x in KeySet(ps) {
          var i :| 0 <= i < |ps[1..]| && ps[1..][i].0 == x;
          assert ps[i + 1].0 == x;
        }
      }
      CountForAbsent(ps[1..], k);
    }
  }

  // ---------------------------------------------------------------------
  // value_counts()

  /** Counting one more occurrence of `v`: its entry grows by one, or a new entry is appended. */
  function Bump<K(==)>(ps: Counts<K>, v: K): (r: Counts<K>)
    ensures |r| >= 1
  {
    if ps == [] then [(v, 1)]
    else if ps[0].0 == v then [(v, ps[0].1 + 1)] + ps[1..]
    else [ps[0]] + Bump(ps[1..], v)
  }

  lemma BumpProperties<K>(ps: Counts<K>, v: K)
    ensures forall k :: CountFor(Bump(ps, v), k) == CountFor(ps, k) + (if k == v then 1 else 0)
    ensures Total(Bump(ps, v)) == Total(ps) + 1
    ensures KeySet(Bump(ps, v)) == KeySet(ps) + {v}
    ensures Positive(ps) ==> Positive(Bump(ps, v))
    ensures DistinctKeys(ps) ==> DistinctKeys(Bump(ps, v))
  {
    BumpCounts(ps, v);
    BumpKeySet(ps, v);
    BumpPositive(ps, v);
    if DistinctKeys(ps) { BumpDistinct(ps, v); }
  }

  lemma {:induction false} BumpCounts<K>(ps: Counts<K>, v: K)
    ensures forall k :: CountFor(Bump(ps, v), k) == CountFor(ps, k) + (if k == v then 1 else 0)
    ensures Total(Bump(ps, v)) == Total(ps) + 1
  {
    if ps != [] {
      var r := Bump(ps, v);
      if ps[0].0 == v {
        assert r[1..] == ps[1..];
      } else {
        BumpCounts(ps[1..], v);
        assert r[1..] == Bump(ps[1..], v);
      }
    }
  }

  lemma {:induction false} BumpKeySet<K>(ps: Counts<K>, v: K)
    ensures KeySet(Bump(ps, v)) == KeySet(ps) + {v}
  {
    var r := Bump(ps, v);
    if ps == [] {
      assert r[0].0 == v;
    } else if ps[0].0 == v {
      assert KeySet(r) == KeySet(ps) by {
        assert forall i :: 0 <= i < |ps| ==> r[i].0 == ps[i].0;
      }
    } else {
      BumpKeySet(ps[1..], v);
      assert r[1..] == Bump(ps[1..], v);
      KeySetCons(ps);
      KeySetCons(r);
    }
  }

  lemma {:induction false} BumpPositive<K>(ps: Counts<K>, v: K)
    ensures Positive(ps) ==> Positive(Bump(ps, v))
  {
    if ps != [] && ps[0].0 != v && Positive(ps) {
      var r := Bump(ps, v);
      BumpPositive(ps[1..], v);
      forall i | 0 < i < |r| ensures r[i].1 >= 1 {
        assert r[i] == Bump(ps[1..], v)[i - 1];
      }
    }
  }

  lemma {:induction false} BumpDistinct<K>(ps: Counts<K>, v: K)
    requires DistinctKeys(ps)
    ensures DistinctKeys(Bump(ps, v))
  {
    var r := Bump(ps, v);
    if ps != [] && ps[0].0 == v {
      forall i, j | 0 <= i < j < |r| ensures r[i].0 != r[j].0 {
        assert r[i].0 == ps[i].0 && r[j].0 == ps[j].0;
      }
    } else if ps != [] {
      var tail := Bump(ps[1..], v);
      BumpDistinct(ps[1..], v);
      BumpKeySet(ps[1..], v);
      assert r == [ps[0]] + tail;
      forall j | 0 < j < |r| ensures r[0].0 != r[j].0 {
        assert r[j] == tail[j - 1];
        assert r[j].0 in KeySet(tail);
        if r[j].0 != v {
          var m :| 0 <= m < |ps[1..]| && ps[1..][m].0 == r[j].0;
          assert ps[m + 1].0 == r[j].0;
        }
      }
      forall i, j | 0 < i < j < |r| ensures r[i].0 != r[j].0 {
        assert r[i] == tail[i - 1] && r[j] == tail[j - 1];
      }
    }
  }

  lemma KeySetCons<K>(ps: Counts<K>)
    requires ps != []
    ensures KeySet(ps) == {ps[0].0} + KeySet(ps[1..])
  {
    forall x | x in KeySet(ps) ensures x in {ps[0].0} + KeySet(ps[1..]) {
      var i :| 0 <= i < |ps| && ps[i].0 == x;
      if i > 0 { assert ps[1..][i - 1].0 == x; }
    }
    forall x | x in KeySet(ps[1..]) ensures x in KeySet(ps) {
      var i :| 0 <= i < |ps[1..]| && ps[1..][i].0 == x;
      assert ps[i + 1].0 == x;
    }
  }

  /** Counts of the elements of `vs` in order of first appearance. */
  function TallyInOrder<K(==,!new)>(vs: seq<K>): (r: Counts<K>)
    ensures Tallies(r, vs)
  {
    if vs == [] then []
    else
      var init := vs[..|vs| - 1];
      var last := vs[|vs| - 1];
      var r := Bump(TallyInOrder(init), last);
      BumpProperties(TallyInOrder(init), last);
      assert vs == init + [last];
      r
  }

  predicate NonIncreasing<K>(ps: Counts<K>)
  {
    forall i, j :: 0 <= i < j < |ps| ==> ps[i].1 >= ps[j].1
  }

  /** Places `p` before the first entry whose count does not exceed its own. */
  function InsertByCount<K>(p: (K, nat), ps: Counts<K>): (r: Counts<K>)
    ensures |r| == |ps| + 1
  {
    if ps == [] || ps[0].1 <= p.1 then [p] + ps else [ps[0]] + InsertByCount(p, ps[1..])
  }

  lemma {:induction false} InsertByCountProperties<K>(p: (K, nat), ps: Counts<K>)
    ensures forall k :: CountFor(InsertByCount(p, ps), k) == CountFor(ps, k) + (if k == p.0 then p.1 else 0)
    ensures Total(InsertByCount(p, ps)) == Total(ps) + p.1
    ensures KeySet(InsertByCount(p, ps)) == KeySet(ps) + {p.0}
    ensures Positive(ps) && p.1 >= 1 ==> Positive(InsertByCount(p, ps))
  {
    var r := InsertByCount(p, ps);
    if ps == [] || ps[0].1 <= p.1 {
      assert r[1..] == ps;
      KeySetCons(r);
    } else {
      InsertByCountProperties(p, ps[1..]);
      assert r[1..] == InsertByCount(p, ps[1..]);
      KeySetCons(r);
      KeySetCons(ps);
    }
  }

  lemma {:induction false} InsertByCountDistinct<K>(p: (K, nat), ps: Counts<K>)
    requires DistinctKeys(ps) && p.0 !in KeySet(ps)
    ensures DistinctKeys(InsertByCount(p, ps))
  {
    var r := InsertByCount(p, ps);
    if ps == [] || ps[0].1 <= p.1 {
      assert r[1..] == ps;
      forall j | 0 < j < |r| ensures r[0].0 != r[j].0 {
        assert r[j] == ps[j - 1];
      }
    } else {
      KeySetCons(ps);
      InsertByCountDistinct(p, ps[1..]);
      InsertByCountProperties(p, ps[1..]);
      assert r[1..] == InsertByCount(p, ps[1..]);
      forall j | 0 < j < |r| ensures r[0].0 != r[j].0 {
        assert r[j] == r[1..][j - 1];
        assert r[j].0 in KeySet(r[1..]);
      }
    }
  }

  lemma {:induction false} InsertByCountOrdered<K>(p: (K, nat), ps: Counts<K>)
    requires NonIncreasing(ps)
    ensures NonIncreasing(InsertByCount(p, ps))
  {
    var r := InsertByCount(p, ps);
    if ps == [] || ps[0].1 <= p.1 {
      assert r[1..] == ps;
    } else {
      InsertByCountOrdered(p, ps[1..]);
      InsertByCountElements(p, ps[1..]);
      assert r[1..] == InsertByCount(p, ps[1..]);
      forall j | 0 < j < |r| ensures r[0].1 >= r[j].1 {
        assert r[j] == r[1..][j - 1];
      }
    }
  }

  lemma {:induction false} InsertByCountElements<K>(p: (K, nat), ps: Counts<K>)
    ensures forall i :: 0 <= i < |InsertByCount(p, ps)| ==> InsertByCount(p, ps)[i] == p || InsertByCount(p, ps)[i] in ps
  {
    var r := InsertByCount(p, ps);
    if ps == [] || ps[0].1 <= p.1 {
      assert r[1..] == ps;
    } else {
      InsertByCountElements(p, ps[1..]);
      assert r[1..] == InsertByCount(p, ps[1..]);
      forall i | 0 < i < |r| ensures r[i] == p || r[i] in ps {
        assert r[i] == r[1..][i - 1];
      }
    }
  }

  /** A stable sort by descending count: entries with equal counts keep their order. */
  function SortByCount<K>(ps: Counts<K>): (r: Counts<K>)
    ensures |r| == |ps|
  {
    if ps == [] then [] else InsertByCount(ps[0], SortByCount(ps[1..]))
  }

  lemma {:induction false} SortByCountProperties<K>(ps: Counts<K>)
    ensures forall k :: CountFor(SortByCount(ps), k) == CountFor(ps, k)
    ensures Total(SortByCount(ps)) == Total(ps)
    ensures KeySet(SortByCount(ps)) == KeySet(ps)
    ensures Positive(ps) ==> Positive(SortByCount(ps))
    ensures DistinctKeys(ps) ==> DistinctKeys(SortByCount(ps))
    ensures NonIncreasing(SortByCount(ps))
  {
    if ps != [] {
      SortByCountProperties(ps[1..]);
      InsertByCountProperties(ps[0], SortByCount(ps[1..]));
      InsertByCountOrdered(ps[0], SortByCount(ps[1..]));
      KeySetCons(ps);
      if DistinctKeys(ps) {
        assert DistinctKeys(ps[1..]);
        forall i | 0 <= i < |ps[1..]| ensures ps[1..][i].0 != ps[0].0 {
          assert ps[1..][i] == ps[i + 1];
        }
        InsertByCountDistinct(ps[0], SortByCount(ps[1..]));
      }
    }
  }

  /**
   * `cells.value_counts()`: one entry per distinct non-null value with its
   * number of occurrences, largest count first. Nulls are not counted.
   */
  function ValueCounts(cells: seq<Cell>): (r: Counts<Value>)
    ensures Tallies(r, NonNull(cells))
    ensures NonIncreasing(r)
    ensures Total(r) == Count(cells, (c: Cell) => c.Some?)
    ensures forall v :: CountFor(r, v) == multiset(cells)[Some(v)]
  {
    var tally := TallyInOrder(NonNull(cells));
    SortByCountProperties(tally);
    SortByCount(tally)
  }

  // ---------------------------------------------------------------------
  // groupby(day).size()

  predicate StrictlyAscending(ps: Counts<int>)
  {
    forall i, j :: 0 <= i < j < |ps| ==> ps[i].0 < ps[j].0
  }

  /** Counting one more row on day `d` in a day-ascending count list. */
  function AddDay(ps: Counts<int>, d: int): (r: Counts<int>)
    ensures |r| >= 1
    ensures ps != [] ==> r[0].0 == if d < ps[0].0 then d else ps[0].0
  {
    if ps == [] || d < ps[0].0 then [(d, 1)] + ps
    else if d == ps[0].0 then [(d, ps[0].1 + 1)] + ps[1..]
    else [ps[0]] + AddDay(ps[1..], d)
  }

  lemma AddDayProperties(ps: Counts<int>, d: int)
    ensures forall k :: CountFor(AddDay(ps, d), k) == CountFor(ps, k) + (if k == d then 1 else 0)
    ensures Total(AddDay(ps, d)) == Total(ps) + 1
    ensures Positive(ps) ==> Positive(AddDay(ps, d))
    ensures StrictlyAscending(ps) ==> StrictlyAscending(AddDay(ps, d))
  {
    AddDayCounts(ps, d);
    if StrictlyAscending(ps) { AddDayAscending(ps, d); }
  }

  lemma {:induction false} AddDayCounts(ps: Counts<int>, d: int)
    ensures forall k :: CountFor(AddDay(ps, d), k) == CountFor(ps, k) + (if k == d then 1 else 0)
    ensures Total(AddDay(ps, d)) == Total(ps) + 1
    ensures Positive(ps) ==> Positive(AddDay(ps, d))
  {
    var r := AddDay(ps, d);
    if ps == [] || d < ps[0].0 {
      assert r[1..] == ps;
    } else if d == ps[0].0 {
      assert r[1..] == ps[1..];
    } else {
      AddDayCounts(ps[1..], d);
      assert r[1..] == AddDay(ps[1..], d);
    }
  }

  lemma {:induction false} AddDayAscending(ps: Counts<int>, d: int)
    requires StrictlyAscending(ps)
    ensures StrictlyAscending(AddDay(ps, d))
  {
    var r := AddDay(ps, d);
    if ps == [] || d < ps[0].0 {
      assert r[1..] == ps;
    } else if d == ps[0].0 {
      assert r[1..] == ps[1..];
    } else {
      var tail := AddDay(ps[1..], d);
      assert StrictlyAscending(ps[1..]);
      AddDayAscending(ps[1..], d);
      assert r == [ps[0]] + tail;
      if |ps| > 1 {
        assert r[0].0 < tail[0].0;
      }
      forall i, j | 0 <= i < j < |r| ensures r[i].0 < r[j].0 {
        assert r[j] == tail[j - 1];
        if i == 0 && j > 1 {
          assert tail[0].0 < tail[j - 1].0;
        } else if i > 0 {
          assert r[i] == tail[i - 1];
        }
      }
    }
  }

  /**
   * `groupby(day).size()` sorted by day: one entry per distinct day with
   * its number of rows, days strictly ascending.
   */
  function GroupByDay(days: seq<int>): (r: Counts<int>)
    ensures Tallies(r, days)
    ensures StrictlyAscending(r)
  {
    if days == [] then []
    else
      var init := days[..|days| - 1];
      var last := days[|days| - 1];
      AddDayProperties(GroupByDay(init), last);
      assert days == init + [last];
      AddDay(GroupByDay(init), last)
  }

  /** The non-null days of a date column, in row order. */
  function DaysOf(cells: seq<Cell>): (days: seq<int>)
    ensures |days| == Count(cells, (c: Cell) => DateOf(c).Some?)
  {
    if cells == [] then []
    else
      match DateOf(cells[0])
      case None => DaysOf(cells[1..])
      case Some(d) => [d] + DaysOf(cells[1..])
  }

  // ---------------------------------------------------------------------
  // cumsum()

  /** Running totals of the counts, starting from `start`. */
  function RunningTotals<K>(start: nat, ps: Counts<K>): (r: seq<nat>)
    ensures |r| == |ps|
    decreases |ps|
  {
    if ps == [] then [] else [start + ps[0].1] + RunningTotals(start + ps[0].1, ps[1..])
  }

  /** `counts.cumsum()` */
  function Cumulative<K>(ps: Counts<K>): (r: seq<nat>)
    ensures |r| == |ps|
  {
    RunningTotals(0, ps)
  }

  /** The i-th running total is the sum of the first i + 1 counts. */
  lemma {:induction false} RunningTotalsAt<K>(start: nat, ps: Counts<K>, i: nat)
    requires i < |ps|
    ensures RunningTotals(start, ps)[i] == start + Total(ps[..i + 1])
    decreases i
  {
    if i > 0 {
      RunningTotalsAt(start + ps[0].1, ps[1..], i - 1);
      assert ps[..i + 1][1..] == ps[1..][..i];
    }
  }

  /** A running total never decreases, and the last one is the sum of all counts. */
  lemma CumulativeProperties<K>(ps: Counts<K>)
    ensures forall i, j :: 0 <= i <= j < |ps| ==> Cumulative(ps)[i] <= Cumulative(ps)[j]
    ensures |ps| > 0 ==> Cumulative(ps)[|ps| - 1] == Total(ps)
  {
    forall i, j | 0 <= i <= j < |ps| ensures Cumulative(ps)[i] <= Cumulative(ps)[j] {
      CumulativeMonotone(ps, i, j);
    }
    if |ps| > 0 {
      RunningTotalsAt(0, ps, |ps| - 1);
      assert ps[..|ps|] == ps;
    }
  }

  lemma CumulativeMonotone<K>(ps: Counts<K>, i: nat, j: nat)
    requires i <= j < |ps|
    ensures Cumulative(ps)[i] <= Cumulative(ps)[j]
  {
    RunningTotalsAt(0, ps, i);
    RunningTotalsAt(0, ps, j);
    TotalPrefixMonotone(ps, i + 1, j + 1);
  }

  lemma {:induction false} TotalPrefixMonotone<K>(ps: Counts<K>, m: nat, n: nat)
    requires m <= n <= |ps|
    ensures Total(ps[..m]) <= Total(ps[..n])
  {
    if m > 0 {
      assert ps[..m][1..] == ps[1..][..m - 1];
      assert ps[..n][1..] == ps[1..][..n - 1];
      TotalPrefixMonotone(ps[1..], m - 1, n - 1);
    }
  }
}
