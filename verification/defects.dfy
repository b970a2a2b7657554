/** The window statistics as the program computes them, kept beside the
    corrected ones so that each difference can be exhibited. */
module Defects {
  import opened Bhavcopy
  import opened Accumulators

  /** Number of days the program divides every window sum by. */
  const FixedDivisor: real := 20.0

  /** Index of the last row of symbol `s`. */
  function LastIndexOf(rows: seq<Row>, s: string): (k: nat)
    requires s in Symbols(rows)
    ensures k < |rows| && rows[k].symbol == s
    ensures forall j :: k < j < |rows| ==> rows[j].symbol != s
  {
    var init := rows[..|rows| - 1];
    assert rows == init + [rows[|rows| - 1]];
    assert Symbols(rows) == Symbols(init) + {rows[|rows| - 1].symbol};
    if rows[|rows| - 1].symbol == s then |rows| - 1 else LastIndexOf(init, s)
  }

  /** The range loop as written: its "already seen" test looks in the volume
      dictionary, which is still empty when this loop runs, so every row of a
      symbol of `universe` overwrites the entry instead of adding to it. */
  function RangeSumsAsWritten(rows: seq<Row>, universe: set<string>): (r: map<string, real>)
    ensures r.Keys == universe * Symbols(rows)
    ensures forall s :: s in r ==> r[s] == MeasureOf(Range, rows[LastIndexOf(rows, s)])
  {
    if |rows| == 0 then map[]
    else
      var init := rows[..|rows| - 1];
      var row := rows[|rows| - 1];
      var acc := RangeSumsAsWritten(init, universe);
      assert Symbols(rows) == Symbols(init) + {row.symbol} by {
        assert rows == init + [row];
      }
      var r := if row.symbol in universe then acc[row.symbol := MeasureOf(Range, row)] else acc;
      assert forall s :: s in r ==> r[s] == MeasureOf(Range, rows[LastIndexOf(rows, s)]) by {
        forall s | s in r
          ensures r[s] == MeasureOf(Range, rows[LastIndexOf(rows, s)])
        {
          if s != row.symbol {
            assert s in acc && s in Symbols(init);
            var k := LastIndexOf(init, s);
            assert LastIndexOf(rows, s) == k;
            assert rows[k] == init[k];
          } else {
            assert LastIndexOf(rows, s) == |rows| - 1;
          }
        }
      }
      r
  }

  /** The per-symbol sums of the corrected fold, without the counts. */
  function Sums(rows: seq<Row>, universe: set<string>, m: Measure): (r: map<string, real>)
    ensures r.Keys == universe * Symbols(rows)
    ensures forall s :: s in r ==> r[s] == Total(rows, s, m)
  {
    var t := Tallies(rows, universe, m);
    map s | s in t :: t[s].sum
  }

  /** The averaging step as written: every sum divided by 20, however many
      days the symbol traded in the window. */
  function FixedDivisorAverage(sums: map<string, real>): (r: map<string, real>)
    ensures r.Keys == sums.Keys
    ensures forall s :: s in r ==> r[s] * FixedDivisor == sums[s]
  {
    map s | s in sums :: sums[s] / FixedDivisor
  }

  /** Two window rows of one symbol with ranges 1 and 2: the loop as written
      keeps 2, where the sum is 3. */
  lemma OverwriteLosesEarlierRanges(rows: seq<Row>, universe: set<string>, first: Row, second: Row)
    requires rows == [first, second] && first.symbol == second.symbol && first.symbol in universe
    requires MeasureOf(Range, first) == 1.0 && MeasureOf(Range, second) == 2.0
    ensures RangeSumsAsWritten(rows, universe)[first.symbol] == 2.0
    ensures Sums(rows, universe, Range)[first.symbol] == 3.0
  {
  }

  /** A symbol that traded on fewer than 20 window days with the same
      positive measure `c` every day gets less than `c` from the fixed
      divisor, while the corrected average is exactly `c`. This is the
      program's quantity average, whose loop sums correctly: with 5 days of
      quantity `q` it gives `q / 4`. */
  lemma FixedDivisorDilutesShortHistory(rows: seq<Row>, universe: set<string>, m: Measure, s: string, c: real)
    requires s in universe && s in Symbols(rows)
    requires forall i :: 0 <= i < |rows| && rows[i].symbol == s ==> MeasureOf(m, rows[i]) == c
    requires c > 0.0 && Occurrences(rows, s) < 20
    ensures FixedDivisorAverage(Sums(rows, universe, m))[s] < c
    ensures Average(rows, universe, m)[s] == c
  {
    AverageOfConstant(rows, universe, m, s, c);
    TotalOfConstant(rows, s, m, c);
    var k := Occurrences(rows, s);
    var total := Total(rows, s, m);
    var diluted := FixedDivisorAverage(Sums(rows, universe, m))[s];
    assert diluted * FixedDivisor == total;
    ShortHistoryScale(diluted, c, k);
  }

  /** A sum of `k < 20` copies of a positive `c`, divided by 20, is below `c`. */
  lemma ShortHistoryScale(diluted: real, c: real, k: nat)
    requires diluted * FixedDivisor == Times(c, k)
    requires c > 0.0 && k < 20
    ensures diluted < c
  {
    TimesGrows(c, k, 20);
    TimesIsProduct(c, 20);
    assert diluted * 20.0 < c * 20.0;
  }

  /** More copies of a positive number add up to more. */
  lemma {:induction false} TimesGrows(c: real, k: nat, n: nat)
    requires c > 0.0 && k < n
    ensures Times(c, k) < Times(c, n)
    decreases n
  {
    if k < n - 1 {
      TimesGrows(c, k, n - 1);
    }
  }

  /** On the range path both defects act: five window rows of range 1 are
      first overwritten down to the last one, then divided by 20, giving
      0.05 where the average range is 1. */
  lemma RangePathCompoundsBothDefects(rows: seq<Row>, universe: set<string>, x: Row)
    requires rows == [x, x, x, x, x] && x.symbol in universe
    requires MeasureOf(Range, x) == 1.0
    ensures FixedDivisorAverage(RangeSumsAsWritten(rows, universe))[x.symbol] == 0.05
    ensures Average(rows, universe, Range)[x.symbol] == 1.0
  {
    assert x.symbol in Symbols(rows);
    assert LastIndexOf(rows, x.symbol) == 4;
    AverageOfConstant(rows, universe, Range, x.symbol, 1.0);
  }
}
