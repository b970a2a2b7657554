/** What each stage of the screen keeps, stated directly in terms of the
    daily tables (without the accumulator maps), and the behaviour of the
    screen at its boundaries. */
module ScreenProperties {
  import opened Bhavcopy
  import opened Accumulators
  import opened Window
  import opened Screening

  /** Stage 1 keeps exactly the equity rows of the latest day whose close is
      at least three quarters of every close its symbol had on any day,
      the latest day included. */
  lemma ClosingHighKeeps(days: seq<Table>, row: Row)
    requires |days| > 0
    ensures row in Screen(days).value.first <==>
      && row in days[|days| - 1]
      && row.series == TargetSeries
      && forall d, other :: 0 <= d < |days| && other in days[d] && other.symbol == row.symbol ==>
           row.close >= CloseRatio * other.close
  {
    var all := Flatten(days);
    var high := MaxClose(all);
    var latest := days[|days| - 1];
    if row in latest {
      assert row in all;
      var i :| 0 <= i < |all| && all[i] == row;
      assert row.symbol in high;
      var s := row.symbol;
      if row.close >= CloseRatio * high[s] {
        forall d, other | 0 <= d < |days| && other in days[d] && other.symbol == s
          ensures row.close >= CloseRatio * other.close
        {
          assert other in all;
          var j :| 0 <= j < |all| && all[j] == other;
          assert other.close <= high[s];
        }
      } else {
        var j :| 0 <= j < |all| && all[j].symbol == s && all[j].close == high[s];
        assert all[j] in all;
        var d :| 0 <= d < |days| && all[j] in days[d];
        assert row.close < CloseRatio * all[j].close;
      }
    }
  }

  /** Stage 2 keeps exactly the rows whose symbol traded in the window and
      whose range today is below half its mean range over the window rows it
      actually has. */
  lemma RangeStageKeeps(rows: seq<Row>, window: seq<Row>, row: Row)
    ensures row in RangeStage(rows, Average(window, Symbols(rows), Range)) <==>
      && row in rows
      && row.symbol in Symbols(window)
      && row.high - row.low < RangeRatio * Mean(window, row.symbol, Range)
  {
  }

  /** Stage 3 keeps exactly the rows whose symbol traded in the window with a
      mean traded quantity above 25000 over the window rows it actually has. */
  lemma VolumeStageKeeps(rows: seq<Row>, window: seq<Row>, row: Row)
    ensures row in VolumeStage(rows, Average(window, Symbols(rows), Volume)) <==>
      && row in rows
      && row.symbol in Symbols(window)
      && Mean(window, row.symbol, Volume) > VolumeFloor
  {
  }

  /** Stage 4 keeps exactly the rows whose symbol traded in the window and
      whose quantity today is at most every quantity of the symbol in the
      window: a tie with the window low is kept. */
  lemma LowVolumeStageKeeps(rows: seq<Row>, window: seq<Row>, row: Row)
    ensures row in LowVolumeStage(rows, MinVolume(window, Symbols(rows))) <==>
      && row in rows
      && row.symbol in Symbols(window)
      && forall other :: other in window && other.symbol == row.symbol ==> row.volume <= other.volume
  {
  }

  /** The three window stages of the whole screen, each stated against the
      tables preceding the latest day: every report keeps exactly the rows of
      the report before it that pass its test. */
  lemma WindowStagesKeep(days: seq<Table>, row: Row)
    requires |days| > 0
    ensures var window := Flatten(Preceding(days));
      var reports := Screen(days).value;
      && (row in reports.second <==>
            && row in reports.first
            && row.symbol in Symbols(window)
            && row.high - row.low < RangeRatio * Mean(window, row.symbol, Range))
      && (row in reports.third <==>
            && row in reports.second
            && row.symbol in Symbols(window)
            && Mean(window, row.symbol, Volume) > VolumeFloor)
      && (row in reports.final <==>
            && row in reports.third
            && row.symbol in Symbols(window)
            && forall other :: other in window && other.symbol == row.symbol ==> row.volume <= other.volume)
  {
    var window := Flatten(Preceding(days));
    var reports := Screen(days).value;
    RangeStageKeeps(reports.first, window, row);
    VolumeStageKeeps(reports.second, window, row);
    LowVolumeStageKeeps(reports.third, window, row);
  }

  /** Once a stage leaves nothing, the later statistics are built over an
      empty universe and hold no entry, and the later reports are empty. */
  lemma EmptyUniverseShortCircuits(days: seq<Table>)
    requires |days| > 0
    requires Screen(days).value.first == []
    ensures var window := Flatten(Preceding(days));
      && Average(window, Symbols(Screen(days).value.first), Range) == map[]
      && Screen(days).value.second == []
      && Screen(days).value.third == []
      && Screen(days).value.final == []
  {
  }

  /** A report drawn from `[x, y]` that holds `x` but not `y` is `[x]`. */
  lemma KeptOnly(report: seq<Row>, x: Row, y: Row)
    requires multiset(report) <= multiset([x, y])
    requires x in report && y !in report
    ensures report == [x]
  {
    var m := multiset(report);
    assert m[y] == 0 && m[x] >= 1;
    assert m == multiset{x};
    assert |report| == 1;
  }

  /** A close is kept by stage 1 when it is at least three quarters of every
      close of its symbol. */
  lemma ScenarioKeeps(days: seq<Table>, a1: Row, a2: Row, a3: Row, b1: Row, b2: Row, b3: Row)
    requires days == [[a1, b1], [a2, b2], [a3, b3]]
    requires a1.symbol == a2.symbol == a3.symbol != b1.symbol == b2.symbol == b3.symbol
    requires a3.series == TargetSeries
    requires a1.close == 100.0 && a2.close == 90.0 && a3.close == 80.0
    ensures a3 in Screen(days).value.first
  {
    assert forall d, other :: 0 <= d < |days| && other in days[d] && other.symbol == a3.symbol ==>
           a3.close >= CloseRatio * other.close by {
      forall d, other | 0 <= d < |days| && other in days[d] && other.symbol == a3.symbol
        ensures a3.close >= CloseRatio * other.close
      {
        assert other == days[d][0] || other == days[d][1];
      }
    }
    assert a3 in days[|days| - 1];
    ClosingHighKeeps(days, a3);
  }

  /** A close below three quarters of a close its symbol had on any day is
      dropped. */
  lemma ScenarioDrops(days: seq<Table>, d: nat, earlier: Row, today: Row)
    requires d < |days| && earlier in days[d] && today in days[|days| - 1]
    requires earlier.symbol == today.symbol
    requires today.close < CloseRatio * earlier.close
    ensures today !in Screen(days).value.first
  {
    ClosingHighKeeps(days, today);
  }

  /** Three trading days of two symbols A and B. A closes at 100, 90 and 80,
      B at 100, 60 and 50. Today A is at 0.8 of its high and stays; B is at
      0.5 of its high and is dropped: the first report holds only A's row. */
  lemma ThreeDayScenario(days: seq<Table>, a1: Row, a2: Row, a3: Row, b1: Row, b2: Row, b3: Row)
    requires days == [[a1, b1], [a2, b2], [a3, b3]]
    requires a1.symbol == a2.symbol == a3.symbol != b1.symbol == b2.symbol == b3.symbol
    requires a3.series == TargetSeries && b3.series == TargetSeries
    requires a1.close == 100.0 && a2.close == 90.0 && a3.close == 80.0
    requires b1.close == 100.0 && b2.close == 60.0 && b3.close == 50.0
    ensures Screen(days).value.first == [a3]
  {
    ScenarioKeeps(days, a1, a2, a3, b1, b2, b3);
    ScenarioDrops(days, 0, b1, b3);
    KeptOnly(Screen(days).value.first, a3, b3);
  }

  /** The stage-1 boundary is inclusive: against a high close of 100, a
      close of exactly 75 is kept. */
  lemma BoundaryCloseKept(days: seq<Table>, high: Row, today: Row)
    requires days == [[high], [today]]
    requires high.symbol == today.symbol && today.series == TargetSeries
    requires high.close == 100.0 && today.close == 75.0
    ensures Screen(days).value.first == [today]
  {
    assert forall d, other :: 0 <= d < |days| && other in days[d] && other.symbol == today.symbol ==>
           today.close >= CloseRatio * other.close by {
      forall d, other | 0 <= d < |days| && other in days[d] && other.symbol == today.symbol
        ensures today.close >= CloseRatio * other.close
      {
        assert other == days[d][0];
      }
    }
    assert today in days[|days| - 1];
    ClosingHighKeeps(days, today);
    SingleReport(Screen(days).value.first, today);
  }

  /** A report drawn from `[x]` is `[x]` or empty, as it holds `x` or not. */
  lemma SingleReport(report: seq<Row>, x: Row)
    requires multiset(report) <= multiset([x])
    ensures x in report ==> report == [x]
    ensures x !in report ==> report == []
  {
    var m := multiset(report);
    if x in report {
      assert m[x] >= 1;
      assert m == multiset{x};
    } else {
      assert m[x] == 0;
      assert m == multiset{};
    }
  }

  /** Just below the boundary, a close of 74.9 against a high of 100 is
      dropped. */
  lemma BelowBoundaryCloseDropped(days: seq<Table>, high: Row, today: Row)
    requires days == [[high], [today]]
    requires high.symbol == today.symbol
    requires high.close == 100.0 && today.close == 74.9
    ensures Screen(days).value.first == []
  {
    ScenarioDrops(days, 0, high, today);
    SingleReport(Screen(days).value.first, today);
  }
}
