/** The four per-symbol statistics the screen builds: the running maximum
    close over every day, and, over the trailing window, the average range,
    the average traded quantity and the minimum traded quantity. Each map is
    built by the same dictionary fold the program uses, row by row, and its
    contract relates it to the per-symbol reference definitions. */
module Accumulators {
  import opened Bhavcopy

  /** Running sum and number of contributing rows for one symbol. */
  datatype Tally = Tally(sum: real, count: nat)

  /** One row of the running-maximum loop: the first row of a symbol
      inserts its close, a later one raises the entry to a larger close. */
  function MaxStep(acc: map<string, real>, row: Row): (r: map<string, real>)
    ensures r.Keys == acc.Keys + {row.symbol}
    ensures row.close <= r[row.symbol]
    ensures forall s :: s in acc ==> acc[s] <= r[s]
    ensures forall s :: s in r ==> (s in acc && r[s] == acc[s]) || (s == row.symbol && r[s] == row.close)
  {
    if row.symbol in acc then
      if acc[row.symbol] < row.close then acc[row.symbol := row.close] else acc
    else acc[row.symbol := row.close]
  }

  /** Running maximum close of every symbol seen in `rows`. */
  function MaxClose(rows: seq<Row>): (r: map<string, real>)
    ensures forall i :: 0 <= i < |rows| ==> rows[i].symbol in r && rows[i].close <= r[rows[i].symbol]
    ensures forall s :: s in r ==> exists i :: 0 <= i < |rows| && rows[i].symbol == s && rows[i].close == r[s]
  {
    if |rows| == 0 then map[]
    else
      var init := rows[..|rows| - 1];
      var row := rows[|rows| - 1];
      var acc := MaxClose(init);
      var r := MaxStep(acc, row);
      assert forall i :: 0 <= i < |rows| ==> rows[i].symbol in r && rows[i].close <= r[rows[i].symbol] by {
        forall i | 0 <= i < |rows|
          ensures rows[i].symbol in r && rows[i].close <= r[rows[i].symbol]
        {
          if i < |rows| - 1 {
            assert rows[i] == init[i];
          }
        }
      }
      assert forall s :: s in r ==> exists i :: 0 <= i < |rows| && rows[i].symbol == s && rows[i].close == r[s] by {
        forall s | s in r
          ensures exists i :: 0 <= i < |rows| && rows[i].symbol == s && rows[i].close == r[s]
        {
          if s in acc && r[s] == acc[s] {
            var j :| 0 <= j < |init| && init[j].symbol == s && init[j].close == acc[s];
            assert rows[j] == init[j];
          } else {
            assert rows[|rows| - 1].symbol == s && rows[|rows| - 1].close == r[s];
          }
        }
      }
      r
  }

  /** One row of the loop as written: the first row of a symbol is inserted
      only when its close is at least three quarters of itself, which is to
      say when it is not negative; every other row is the ordinary step. */
  function FirstSightStep(acc: map<string, real>, row: Row): (r: map<string, real>)
    ensures row.close >= 0.0 || row.symbol in acc ==> r == MaxStep(acc, row)
    ensures row.close < 0.0 && row.symbol !in acc ==> r == acc
  {
    if row.symbol in acc then
      if acc[row.symbol] < row.close then acc[row.symbol := row.close] else acc
    else if row.close >= 0.75 * row.close then acc[row.symbol := row.close]
    else acc
  }

  /** The running-maximum loop exactly as the program writes it. Its result
      is the running maximum over the non-negative closes: a symbol whose
      closes so far were all negative is treated as unseen. */
  function MaxCloseAsWritten(rows: seq<Row>): (r: map<string, real>)
    ensures forall i :: 0 <= i < |rows| && rows[i].close >= 0.0 ==> rows[i].symbol in r
    ensures forall i :: 0 <= i < |rows| && rows[i].symbol in r ==> rows[i].close <= r[rows[i].symbol]
    ensures forall s :: s in r ==> r[s] >= 0.0 && exists i :: 0 <= i < |rows| && rows[i].symbol == s && rows[i].close == r[s]
  {
    if |rows| == 0 then map[]
    else
      var init := rows[..|rows| - 1];
      var acc := MaxCloseAsWritten(init);
      var row := rows[|rows| - 1];
      var r := FirstSightStep(acc, row);
      assert forall i :: 0 <= i < |rows| && rows[i].close >= 0.0 ==> rows[i].symbol in r by {
        forall i | 0 <= i < |rows| && rows[i].close >= 0.0
          ensures rows[i].symbol in r
        {
          if i < |rows| - 1 {
            assert rows[i] == init[i];
          }
        }
      }
      assert forall i :: 0 <= i < |rows| && rows[i].symbol in r ==> rows[i].close <= r[rows[i].symbol] by {
        forall i | 0 <= i < |rows| && rows[i].symbol in r
          ensures rows[i].close <= r[rows[i].symbol]
        {
          if i < |rows| - 1 {
            assert rows[i] == init[i];
            if rows[i].symbol !in acc {
              assert rows[i].close < 0.0;
            }
          }
        }
      }
      assert forall s :: s in r ==> r[s] >= 0.0 && exists i :: 0 <= i < |rows| && rows[i].symbol == s && rows[i].close == r[s] by {
        forall s | s in r
          ensures r[s] >= 0.0 && exists i :: 0 <= i < |rows| && rows[i].symbol == s && rows[i].close == r[s]
        {
          if s in acc && r[s] == acc[s] {
            var j :| 0 <= j < |init| && init[j].symbol == s && init[j].close == acc[s];
            assert rows[j] == init[j];
          } else {
            assert rows[|rows| - 1].symbol == s && rows[|rows| - 1].close == r[s];
          }
        }
      }
      r
  }

  /** For the non-negative prices of a bhavcopy the first-sight guard always
      holds, so the loop as written computes the running maximum. */
  lemma {:induction false} FirstSightGuardIsVacuous(rows: seq<Row>)
    requires forall i :: 0 <= i < |rows| ==> rows[i].close >= 0.0
    ensures MaxCloseAsWritten(rows) == MaxClose(rows)
    decreases |rows|
  {
    if |rows| > 0 {
      var init := rows[..|rows| - 1];
      var row := rows[|rows| - 1];
      assert forall i :: 0 <= i < |init| ==> init[i].close >= 0.0 by {
        forall i | 0 <= i < |init|
          ensures init[i].close >= 0.0
        {
          assert init[i] == rows[i];
        }
      }
      FirstSightGuardIsVacuous(init);
      var acc := MaxClose(init);
      assert MaxCloseAsWritten(rows) == FirstSightStep(acc, row);
      assert MaxClose(rows) == MaxStep(acc, row);
    }
  }

  /** A symbol all of whose closes are negative is never entered into the map
      by the loop as written, while the running maximum holds it. */
  lemma NegativeCloseIsNeverInserted(rows: seq<Row>, i: nat)
    requires i < |rows|
    requires forall j :: 0 <= j < |rows| && rows[j].symbol == rows[i].symbol ==> rows[j].close < 0.0
    ensures rows[i].symbol !in MaxCloseAsWritten(rows)
    ensures rows[i].symbol in MaxClose(rows)
  {
  }

  /** One row of a summing loop: rows of symbols outside `universe` are
      skipped; otherwise the row's measure is added to its symbol's entry,
      which is created on the symbol's first row. */
  function TallyStep(acc: map<string, Tally>, universe: set<string>, m: Measure, row: Row): (r: map<string, Tally>)
    ensures row.symbol !in universe ==> r == acc
    ensures r.Keys == if row.symbol in universe then acc.Keys + {row.symbol} else acc.Keys
    ensures forall s :: s in r && s != row.symbol ==> r[s] == acc[s]
    ensures row.symbol in universe ==>
      r[row.symbol] == if row.symbol in acc
        then Tally(acc[row.symbol].sum + MeasureOf(m, row), acc[row.symbol].count + 1)
        else Tally(MeasureOf(m, row), 1)
  {
    if row.symbol !in universe then acc
    else if row.symbol in acc then
      acc[row.symbol := Tally(acc[row.symbol].sum + MeasureOf(m, row), acc[row.symbol].count + 1)]
    else acc[row.symbol := Tally(MeasureOf(m, row), 1)]
  }

  /** Per-symbol sum of measure `m` and row count over the rows of `rows`
      whose symbol is in `universe`. */
  function Tallies(rows: seq<Row>, universe: set<string>, m: Measure): (r: map<string, Tally>)
    ensures r.Keys == universe * Symbols(rows)
    ensures forall s :: s in r ==> r[s] == Tally(Total(rows, s, m), Occurrences(rows, s))
  {
    if |rows| == 0 then map[]
    else
      var init := rows[..|rows| - 1];
      var row := rows[|rows| - 1];
      var acc := Tallies(init, universe, m);
      var r := TallyStep(acc, universe, m, row);
      assert Symbols(rows) == Symbols(init) + {row.symbol} by {
        assert rows == init + [row];
      }
      assert forall s :: s in r ==> r[s] == Tally(Total(rows, s, m), Occurrences(rows, s)) by {
        forall s | s in r
          ensures r[s] == Tally(Total(rows, s, m), Occurrences(rows, s))
        {
          if s != row.symbol {
            assert r[s] == acc[s];
          } else if s !in acc {
            assert s !in Symbols(init);
          }
        }
      }
      r
  }

  /** Average of measure `m` per symbol of `universe` that occurs in `rows`,
      divided by the number of rows the symbol actually contributed. A symbol
      without rows has no entry (it is not given the value 0). */
  function Average(rows: seq<Row>, universe: set<string>, m: Measure): (r: map<string, real>)
    ensures r.Keys == universe * Symbols(rows)
    ensures forall s :: s in r ==> r[s] == Mean(rows, s, m)
  {
    var t := Tallies(rows, universe, m);
    map s | s in t :: t[s].sum / (t[s].count as real)
  }

  /** One row of the minimum loop: rows outside `universe` are skipped; a
      symbol's first row inserts its quantity, a later one lowers the entry
      to a smaller quantity. */
  function MinStep(acc: map<string, nat>, universe: set<string>, row: Row): (r: map<string, nat>)
    ensures row.symbol !in universe ==> r == acc
    ensures r.Keys == if row.symbol in universe then acc.Keys + {row.symbol} else acc.Keys
    ensures row.symbol in universe ==> r[row.symbol] <= row.volume
    ensures forall s :: s in acc ==> r[s] <= acc[s]
    ensures forall s :: s in r ==> (s in acc && r[s] == acc[s]) || (s == row.symbol && r[s] == row.volume)
  {
    if row.symbol !in universe then acc
    else if row.symbol !in acc then acc[row.symbol := row.volume]
    else if acc[row.symbol] > row.volume then acc[row.symbol := row.volume]
    else acc
  }

  /** Minimum traded quantity per symbol of `universe` that occurs in `rows`. */
  function MinVolume(rows: seq<Row>, universe: set<string>): (r: map<string, nat>)
    ensures r.Keys == universe * Symbols(rows)
    ensures forall i :: 0 <= i < |rows| && rows[i].symbol in universe ==> r[rows[i].symbol] <= rows[i].volume
    ensures forall s :: s in r ==> exists i :: 0 <= i < |rows| && rows[i].symbol == s && rows[i].volume == r[s]
  {
    if |rows| == 0 then map[]
    else
      var init := rows[..|rows| - 1];
      var row := rows[|rows| - 1];
      var acc := MinVolume(init, universe);
      var r := MinStep(acc, universe, row);
      assert Symbols(rows) == Symbols(init) + {row.symbol} by {
        assert rows == init + [row];
      }
      assert forall i :: 0 <= i < |rows| && rows[i].symbol in universe ==> r[rows[i].symbol] <= rows[i].volume by {
        forall i | 0 <= i < |rows| && rows[i].symbol in universe
          ensures r[rows[i].symbol] <= rows[i].volume
        {
          if i < |rows| - 1 {
            assert rows[i] == init[i];
          }
        }
      }
      assert forall s :: s in r ==> exists i :: 0 <= i < |rows| && rows[i].symbol == s && rows[i].volume == r[s] by {
        forall s | s in r
          ensures exists i :: 0 <= i < |rows| && rows[i].symbol == s && rows[i].volume == r[s]
        {
          if s in acc && r[s] == acc[s] {
            var j :| 0 <= j < |init| && init[j].symbol == s && init[j].volume == acc[s];
            assert rows[j] == init[j];
          } else {
            assert rows[|rows| - 1].symbol == s && rows[|rows| - 1].volume == r[s];
          }
        }
      }
      r
  }

  /** If every row of a symbol carries the same measure `c`, its average is
      `c` whatever the number of days it traded: a short history is not
      diluted. */
  lemma AverageOfConstant(rows: seq<Row>, universe: set<string>, m: Measure, s: string, c: real)
    requires s in universe && s in Symbols(rows)
    requires forall i :: 0 <= i < |rows| && rows[i].symbol == s ==> MeasureOf(m, rows[i]) == c
    ensures Average(rows, universe, m)[s] == c
  {
    TotalOfConstant(rows, s, m, c);
    TimesOverCount(c, Occurrences(rows, s));
  }

  /** `n` copies of `c` added up. */
  function Times(c: real, n: nat): real
  {
    if n == 0 then 0.0 else Times(c, n - 1) + c
  }

  lemma {:induction false} TimesIsProduct(c: real, n: nat)
    ensures Times(c, n) == c * (n as real)
  {
    if n > 0 {
      TimesIsProduct(c, n - 1);
      var k := (n - 1) as real;
      assert c * k + c == c * (k + 1.0);
    }
  }

  lemma TimesOverCount(c: real, n: nat)
    requires n > 0
    ensures Times(c, n) / (n as real) == c
  {
  }

  /** Sum of a measure that is `c` on every row of `s` is `c` added once per row. */
  lemma {:induction false} TotalOfConstant(rows: seq<Row>, s: string, m: Measure, c: real)
    requires forall i :: 0 <= i < |rows| && rows[i].symbol == s ==> MeasureOf(m, rows[i]) == c
    ensures Total(rows, s, m) == Times(c, Occurrences(rows, s))
    decreases |rows|
  {
    if |rows| > 0 {
      var init := rows[..|rows| - 1];
      assert forall i :: 0 <= i < |init| ==> init[i] == rows[i];
      TotalOfConstant(init, s, m, c);
    }
  }

  /** The running maximum of the rows of a single day without repeated
      symbols is that day's close of each symbol. */
  lemma MaxCloseOfOneDay(day: Table)
    requires DistinctSymbols(day)
    ensures forall i :: 0 <= i < |day| ==> MaxClose(day)[day[i].symbol] == day[i].close
  {
  }
}
