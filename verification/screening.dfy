/** The four-stage screen run over an ordered list of daily tables (oldest
    first; the last one is the day being screened). Each stage keeps the rows
    of the previous stage's report that pass one test against one per-symbol
    statistic, and that statistic is rebuilt for the symbols still in play. */
module Screening {
  import opened Bhavcopy
  import opened Accumulators
  import opened Window

  /** Only rows of the equity series enter the screen. */
  const TargetSeries: string := "EQ"
  /** A close within a quarter of the running high passes stage 1. */
  const CloseRatio: real := 0.75
  /** Today's range must be below half the average range for stage 2. */
  const RangeRatio: real := 0.5
  /** The average traded quantity must exceed this for stage 3. */
  const VolumeFloor: real := 25000.0

  /** The report written after each stage: the surviving rows of the latest
      day, unchanged. */
  datatype Reports = Reports(first: seq<Row>, second: seq<Row>, third: seq<Row>, final: seq<Row>)

  /** The program indexes the last file of an empty list and fails. */
  datatype ScreenError = NoTradingDays

  datatype Result<T> = Ok(value: T) | Err(error: ScreenError)

  /** Stage 1 test: an equity row whose close is at least three quarters of
      its symbol's running high. A symbol without a high is not kept. */
  predicate NearHigh(row: Row, high: map<string, real>)
  {
    row.series == TargetSeries && row.symbol in high && row.close >= CloseRatio * high[row.symbol]
  }

  /** Stage 2 test: today's range is strictly below half the average range. */
  predicate NarrowRange(row: Row, avgRange: map<string, real>)
  {
    row.symbol in avgRange && row.high - row.low < RangeRatio * avgRange[row.symbol]
  }

  /** Stage 3 test: the average traded quantity is strictly above the floor. */
  predicate Liquid(row: Row, avgVolume: map<string, real>)
  {
    row.symbol in avgVolume && avgVolume[row.symbol] > VolumeFloor
  }

  /** Stage 4 test: today's traded quantity is at or below the window low. */
  predicate AtVolumeLow(row: Row, lowVolume: map<string, nat>)
  {
    row.symbol in lowVolume && row.volume <= lowVolume[row.symbol]
  }

  /** Stage 1: the rows of the latest day near their symbol's running high. */
  function ClosingHighStage(latest: Table, high: map<string, real>): (r: seq<Row>)
    ensures multiset(r) <= multiset(latest)
    ensures forall row :: row in r <==> row in latest && NearHigh(row, high)
    ensures forall row :: multiset(r)[row] == if NearHigh(row, high) then multiset(latest)[row] else 0
  {
    Filter(latest, row => NearHigh(row, high))
  }

  /** Stage 2: the rows whose range today is narrow against `avgRange`. */
  function RangeStage(rows: seq<Row>, avgRange: map<string, real>): (r: seq<Row>)
    ensures multiset(r) <= multiset(rows)
    ensures forall row :: row in r <==> row in rows && NarrowRange(row, avgRange)
    ensures forall row :: multiset(r)[row] == if NarrowRange(row, avgRange) then multiset(rows)[row] else 0
  {
    Filter(rows, row => NarrowRange(row, avgRange))
  }

  /** Stage 3: the rows whose symbol is liquid according to `avgVolume`. */
  function VolumeStage(rows: seq<Row>, avgVolume: map<string, real>): (r: seq<Row>)
    ensures multiset(r) <= multiset(rows)
    ensures forall row :: row in r <==> row in rows && Liquid(row, avgVolume)
    ensures forall row :: multiset(r)[row] == if Liquid(row, avgVolume) then multiset(rows)[row] else 0
  {
    Filter(rows, row => Liquid(row, avgVolume))
  }

  /** Stage 4: the rows traded at or below their symbol's `lowVolume`. */
  function LowVolumeStage(rows: seq<Row>, lowVolume: map<string, nat>): (r: seq<Row>)
    ensures multiset(r) <= multiset(rows)
    ensures forall row :: row in r <==> row in rows && AtVolumeLow(row, lowVolume)
    ensures forall row :: multiset(r)[row] == if AtVolumeLow(row, lowVolume) then multiset(rows)[row] else 0
  {
    Filter(rows, row => AtVolumeLow(row, lowVolume))
  }

  /** The whole screen: the running high over every day, then the three
      window statistics over the tables preceding the latest one, each built
      for the symbols the previous stage left. Every
      report is a sub-multiset of the one before it, and of the latest day. */
  function Screen(days: seq<Table>): (r: Result<Reports>)
    ensures r.Err? <==> |days| == 0
    ensures r.Ok? ==> multiset(r.value.first) <= multiset(days[|days| - 1])
    ensures r.Ok? ==> multiset(r.value.second) <= multiset(r.value.first)
    ensures r.Ok? ==> multiset(r.value.third) <= multiset(r.value.second)
    ensures r.Ok? ==> multiset(r.value.final) <= multiset(r.value.third)
  {
    if |days| == 0 then Err(NoTradingDays)
    else
      var latest := days[|days| - 1];
      var window := Flatten(Preceding(days));
      var first := ClosingHighStage(latest, MaxClose(Flatten(days)));
      var second := RangeStage(first, Average(window, Symbols(first), Range));
      var third := VolumeStage(second, Average(window, Symbols(second), Volume));
      Ok(Reports(first, second, third, LowVolumeStage(third, MinVolume(window, Symbols(third)))))
  }
}
