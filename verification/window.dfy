/** Selection of the trailing window of daily tables the averaging stages
    read. Days are given oldest first, as the date-stamped file names sort;
    the last day is the one being screened. */
module Window {
  import opened Bhavcopy

  /** Number of tables in a full trailing window. */
  const WindowDays: nat := 20

  function Min(a: int, b: int): int
  {
    if a <= b then a else b
  }

  /** Normalises a slice bound of a sequence of length `n` for a slice with
      step -1: negative bounds count from the end, and out-of-range bounds are
      clamped to -1 (before the first element) or `n - 1` (the last one). */
  function DescendingBound(n: nat, i: int): (b: int)
    ensures -1 <= b < n
  {
    var j := if i < 0 then i + n else i;
    if j < 0 then -1 else if j >= n then n - 1 else j
  }

  /** The indices `range(n)[start:stop:-1]` selects: from the normalised
      start down to just above the normalised stop. */
  function DescendingSlice(n: nat, start: int, stop: int): (r: seq<nat>)
    ensures forall k :: 0 <= k < |r| ==> r[k] < n
    ensures forall k :: 0 <= k < |r| ==> r[k] == DescendingBound(n, start) - k
    ensures |r| == if DescendingBound(n, start) <= DescendingBound(n, stop) then 0
                   else DescendingBound(n, start) - DescendingBound(n, stop)
  {
    var a := DescendingBound(n, start);
    var b := DescendingBound(n, stop);
    if a <= b then [] else seq(a - b, k requires 0 <= k < a - b => (a - k) as nat)
  }

  /** The tables immediately preceding the latest one, most recent first,
      at most `WindowDays` of them: `days[-2:-22:-1]`. */
  function Preceding(days: seq<Table>): (w: seq<Table>)
    ensures |w| == if |days| == 0 then 0 else Min(WindowDays, |days| - 1)
    ensures forall k :: 0 <= k < |w| ==> w[k] == days[|days| - 2 - k]
  {
    var idx := DescendingSlice(|days|, -2, -(WindowDays as int) - 2);
    seq(|idx|, k requires 0 <= k < |idx| => days[idx[k]])
  }

  /** The window the program actually reads: it counts the elements of
      `days[-2:-21:-1]` and then reads that many tables from the front of the
      list, that is, the oldest ones. */
  function PrecedingAsWritten(days: seq<Table>): (w: seq<Table>)
    ensures |w| == if |days| == 0 then 0 else Min(WindowDays - 1, |days| - 1)
    ensures w == days[..|w|]
  {
    var count := |DescendingSlice(|days|, -2, -(WindowDays as int) - 1)|;
    days[..count]
  }

  /** With at least 21 days of files the program averages over 19 tables
      where 20 are meant, and they are the oldest 19 instead of the 20 most
      recent ones before the latest; the table just before the latest one is
      never read. */
  lemma WindowAsWrittenIsShortAndOld(days: seq<Table>)
    requires |days| >= WindowDays + 1
    ensures |PrecedingAsWritten(days)| == WindowDays - 1
    ensures |Preceding(days)| == WindowDays
    ensures PrecedingAsWritten(days) == days[..WindowDays - 1]
    ensures Preceding(days)[0] == days[|days| - 2]
    ensures |PrecedingAsWritten(days)| <= |days| - 2
  {
  }
}
