/** The fixed record schema of one end-of-day bhavcopy row, daily tables, and
    the reference (per-symbol) definitions the accumulators are measured
    against. */
module Bhavcopy {

  /** One row of a day's file, reduced to the columns the screen reads.
      `volume` is the exchange's TOTTRDQTY (total traded quantity). */
  datatype Row = Row(symbol: string, series: string, high: real, low: real, close: real, volume: nat)

  /** One trading day's rows, in file order. */
  type Table = seq<Row>

  /** The two per-row quantities that are averaged over the window. */
  datatype Measure = Range | Volume

  function MeasureOf(m: Measure, row: Row): real
  {
    match m
    case Range => row.high - row.low
    case Volume => row.volume as real
  }

  /** The rows of several days, day after day, each day in file order. */
  function Flatten(days: seq<Table>): (rows: seq<Row>)
    ensures forall row :: row in rows <==> exists d :: 0 <= d < |days| && row in days[d]
  {
    if |days| == 0 then []
    else
      var rest := Flatten(days[..|days| - 1]);
      assert forall d :: 0 <= d < |days| - 1 ==> days[..|days| - 1][d] == days[d];
      rest + days[|days| - 1]
  }

  /** The symbols that occur in some row. */
  function Symbols(rows: seq<Row>): (r: set<string>)
    ensures forall i :: 0 <= i < |rows| ==> rows[i].symbol in r
  {
    if |rows| == 0 then {}
    else Symbols(rows[..|rows| - 1]) + {rows[|rows| - 1].symbol}
  }

  /** A symbol no row carries is not among the symbols. */
  lemma {:induction false} AbsentSymbol(rows: seq<Row>, s: string)
    requires forall i :: 0 <= i < |rows| ==> rows[i].symbol != s
    ensures s !in Symbols(rows)
    decreases |rows|
  {
    if |rows| > 0 {
      AbsentSymbol(rows[..|rows| - 1], s);
    }
  }

  /** Number of rows of `rows` that belong to symbol `s`. */
  function Occurrences(rows: seq<Row>, s: string): (k: nat)
    ensures k <= |rows|
    ensures k > 0 <==> s in Symbols(rows)
  {
    if |rows| == 0 then 0
    else
      var last := rows[|rows| - 1];
      assert rows == rows[..|rows| - 1] + [last];
      Occurrences(rows[..|rows| - 1], s) + (if last.symbol == s then 1 else 0)
  }

  /** Sum of measure `m` over the rows of `rows` that belong to symbol `s`. */
  function Total(rows: seq<Row>, s: string, m: Measure): (t: real)
    ensures s !in Symbols(rows) ==> t == 0.0
  {
    if |rows| == 0 then 0.0
    else
      var last := rows[|rows| - 1];
      assert rows == rows[..|rows| - 1] + [last];
      Total(rows[..|rows| - 1], s, m) + (if last.symbol == s then MeasureOf(m, last) else 0.0)
  }

  /** Mean of measure `m` over the rows of symbol `s`: the total divided by
      the number of rows the symbol actually has. */
  function Mean(rows: seq<Row>, s: string, m: Measure): real
    requires s in Symbols(rows)
  {
    Total(rows, s, m) / (Occurrences(rows, s) as real)
  }

  /** True when no symbol occurs twice in one table. */
  predicate DistinctSymbols(t: Table)
  {
    forall i, j :: 0 <= i < j < |t| ==> t[i].symbol != t[j].symbol
  }

  /** Number of tables among `days` in which symbol `s` occurs. */
  function DaysPresent(days: seq<Table>, s: string): (k: nat)
    ensures k <= |days|
  {
    if |days| == 0 then 0
    else DaysPresent(days[..|days| - 1], s) + (if s in Symbols(days[|days| - 1]) then 1 else 0)
  }

  /** The rows of `s` that satisfy `p`, in their original order. */
  function Filter(s: seq<Row>, p: Row -> bool): (r: seq<Row>)
    ensures multiset(r) <= multiset(s)
    ensures forall x :: multiset(r)[x] == if p(x) then multiset(s)[x] else 0
    ensures forall x :: x in r <==> x in s && p(x)
  {
    if |s| == 0 then []
    else
      assert s == [s[0]] + s[1..];
      (if p(s[0]) then [s[0]] else []) + Filter(s[1..], p)
  }

  /** Filtering keeps rows in their original order: filtering a
      concatenation concatenates the filtered parts. */
  lemma {:induction false} FilterAppend(a: seq<Row>, b: seq<Row>, p: Row -> bool)
    ensures Filter(a + b, p) == Filter(a, p) + Filter(b, p)
    decreases |a|
  {
    if |a| == 0 {
      assert a + b == b;
    } else {
      assert (a + b)[0] == a[0];
      assert (a + b)[1..] == a[1..] + b;
      FilterAppend(a[1..], b, p);
    }
  }

  /** Occurrences over a concatenation is the sum of the parts. */
  lemma {:induction false} OccurrencesAppend(a: seq<Row>, b: seq<Row>, s: string)
    ensures Occurrences(a + b, s) == Occurrences(a, s) + Occurrences(b, s)
    decreases |b|
  {
    if |b| > 0 {
      var ab := a + b;
      assert ab[..|ab| - 1] == a + b[..|b| - 1];
      OccurrencesAppend(a, b[..|b| - 1], s);
    } else {
      assert a + b == a;
    }
  }

  /** In a table without repeated symbols a symbol occurs at most once. */
  lemma {:induction false} OccurrencesInDistinctTable(t: Table, s: string)
    requires DistinctSymbols(t)
    ensures Occurrences(t, s) == if s in Symbols(t) then 1 else 0
    decreases |t|
  {
    if |t| > 0 {
      var init := t[..|t| - 1];
      assert DistinctSymbols(init);
      OccurrencesInDistinctTable(init, s);
      if t[|t| - 1].symbol == s {
        assert forall i :: 0 <= i < |init| ==> init[i].symbol != s;
        AbsentSymbol(init, s);
      }
      assert t == init + [t[|t| - 1]];
      assert Symbols(t) == Symbols(init) + {t[|t| - 1].symbol};
    }
  }

  /** When every table lists each symbol at most once, the number of rows a
      symbol contributes to a window is the number of days it traded, so
      dividing by it averages over the days actually present. */
  lemma {:induction false} OccurrencesAreDays(days: seq<Table>, s: string)
    requires forall d :: 0 <= d < |days| ==> DistinctSymbols(days[d])
    ensures Occurrences(Flatten(days), s) == DaysPresent(days, s)
    decreases |days|
  {
    if |days| > 0 {
      var init := days[..|days| - 1];
      OccurrencesAreDays(init, s);
      OccurrencesAppend(Flatten(init), days[|days| - 1], s);
      OccurrencesInDistinctTable(days[|days| - 1], s);
    }
  }
}
