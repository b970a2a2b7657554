/** The name rewrite applied to each extracted daily file: a name
    `cmDDMONYYYYbhav.csv` becomes `YYYY-MM-DD-NSE-EQ.csv`, whose names sort
    in date order. The day-month-year reading follows the regular expression
    Python's own `strptime` builds for the pattern `%d%b%Y`: the whole slice
    must be consumed, the month abbreviation is matched without regard to
    ASCII letter case, and the date must exist. */
module FileNames {

  datatype Option<T> = None | Some(value: T)

  datatype Date = Date(year: nat, month: nat, day: nat)

  /** What happens to one directory entry. */
  datatype Rename =
    | Kept                      // not a bhavcopy name: reported and left alone
    | Renamed(newName: string)  // renamed to the date-stamped name
    | Malformed                 // the date part does not parse: the rename aborts

  const BhavSuffix: string := "bhav.csv"
  const IsoSuffix: string := "-NSE-EQ.csv"

  /** The English month abbreviations, as the exchange writes them. */
  const MonthAbbrevs: seq<string> :=
    ["JAN", "FEB", "MAR", "APR", "MAY", "JUN", "JUL", "AUG", "SEP", "OCT", "NOV", "DEC"]

  predicate IsDigit(c: char)
  {
    '0' <= c <= '9'
  }

  function DigitValue(c: char): nat
    requires IsDigit(c)
  {
    (c - '0') as nat
  }

  function DigitChar(n: nat): (c: char)
    requires n < 10
    ensures IsDigit(c) && DigitValue(c) == n
  {
    '0' + n as char
  }

  /** Upper-cases an ASCII letter; leaves every other character alone. */
  function Upper(c: char): char
  {
    if 'a' <= c <= 'z' then c - 'a' + 'A' else c
  }

  predicate SameIgnoringCase(a: string, b: string)
  {
    |a| == |b| && forall k :: 0 <= k < |a| ==> Upper(a[k]) == Upper(b[k])
  }

  predicate EndsWith(s: string, suffix: string)
  {
    |suffix| <= |s| && s[|s| - |suffix|..] == suffix
  }

  /** `s[lo:hi]` for non-negative bounds: bounds past the end are clamped. */
  function ClampedSlice(s: string, lo: nat, hi: nat): (r: string)
    requires lo <= hi
    ensures |r| <= hi - lo
    ensures hi <= |s| ==> r == s[lo..hi]
  {
    var a := if lo <= |s| then lo else |s|;
    var b := if hi <= |s| then hi else |s|;
    s[a..b]
  }

  predicate IsLeapYear(y: nat)
  {
    y % 4 == 0 && (y % 100 != 0 || y % 400 == 0)
  }

  function DaysInMonth(y: nat, m: nat): nat
    requires 1 <= m <= 12
  {
    if m == 2 then (if IsLeapYear(y) then 29 else 28)
    else if m == 4 || m == 6 || m == 9 || m == 11 then 30
    else 31
  }

  /** A date the calendar has, with a year the date type accepts. */
  predicate ValidDate(d: Date)
  {
    1 <= d.year <= 9999 && 1 <= d.month <= 12 && 1 <= d.day <= DaysInMonth(d.year, d.month)
  }

  /** `f` is a way the day field may write `day`: two digits, or a space
      and one digit for days 1-9. */
  predicate DayField(f: string, day: nat)
    requires day < 100
  {
    f == Pad2(day) || (1 <= day < 10 && f == [' ', DigitChar(day)])
  }

  /** The nine characters `s` write the existing date `d` as day, month
      abbreviation in any letter case, and four-digit year. */
  predicate Spells(s: string, d: Date)
  {
    && ValidDate(d)
    && |s| == 9
    && DayField(s[..2], d.day)
    && SameIgnoringCase(s[2..5], MonthAbbrevs[d.month - 1])
    && s[5..] == Pad4(d.year)
  }

  /** The two-character day field: `01`-`09`, `10`-`29`, `30`, `31`, or a
      space followed by a digit 1-9. */
  function ParseDay(s: string): (r: Option<nat>)
    ensures r.Some? ==> 1 <= r.value <= 31 && DayField(s, r.value)
  {
    if |s| != 2 || !IsDigit(s[1]) then None
    else if s[0] == ' ' then (if s[1] != '0' then Some(DigitValue(s[1])) else None)
    else if !IsDigit(s[0]) then None
    else
      var n := 10 * DigitValue(s[0]) + DigitValue(s[1]);
      if 1 <= n <= 31 then Some(n) else None
  }

  /** Number (1-12) of the month whose abbreviation `s` spells, in any case,
      searching the table from index `i`. */
  function FindMonth(s: string, i: nat): (r: Option<nat>)
    requires i <= 12
    ensures r.Some? ==> i < r.value <= 12 && SameIgnoringCase(s, MonthAbbrevs[r.value - 1])
    ensures r.None? ==> forall k :: i <= k < 12 ==> !SameIgnoringCase(s, MonthAbbrevs[k])
    decreases 12 - i
  {
    if i == 12 then None
    else if SameIgnoringCase(s, MonthAbbrevs[i]) then Some(i + 1)
    else FindMonth(s, i + 1)
  }

  /** The four-digit year field. */
  function ParseYear(s: string): (r: Option<nat>)
    ensures r.Some? ==> r.value < 10000 && s == Pad4(r.value)
  {
    if |s| == 4 && IsDigit(s[0]) && IsDigit(s[1]) && IsDigit(s[2]) && IsDigit(s[3]) then
      var hi := 10 * DigitValue(s[0]) + DigitValue(s[1]);
      var lo := 10 * DigitValue(s[2]) + DigitValue(s[3]);
      TwoDigits(s[..2]);
      TwoDigits(s[2..]);
      Pad4Halves(hi, lo);
      assert s == s[..2] + s[2..];
      Some(100 * hi + lo)
    else None
  }

  /** The four-digit rendering is the two-digit renderings of the hundreds
      and of the rest. */
  lemma Pad4Halves(hi: nat, lo: nat)
    requires hi < 100 && lo < 100
    ensures Pad4(100 * hi + lo) == Pad2(hi) + Pad2(lo)
  {
  }

  /** Two digits are the zero-padded rendering of the number they spell. */
  lemma TwoDigits(s: string)
    requires |s| == 2 && IsDigit(s[0]) && IsDigit(s[1])
    ensures s == Pad2(10 * DigitValue(s[0]) + DigitValue(s[1]))
  {
  }

  /** Reads `DDMONYYYY` (exactly nine characters) as a date, or fails. */
  function ParseBhavDate(s: string): (r: Option<Date>)
    ensures r.Some? ==> Spells(s, r.value)
  {
    if |s| != 9 then None
    else
      match (ParseDay(s[..2]), FindMonth(s[2..5], 0), ParseYear(s[5..]))
      case (Some(d), Some(m), Some(y)) =>
        var date := Date(y, m, d);
        if ValidDate(date) then Some(date) else None
      case _ => None
  }

  /** Zero-padded two-digit rendering. */
  function Pad2(n: nat): (s: string)
    requires n < 100
    ensures |s| == 2 && IsDigit(s[0]) && IsDigit(s[1])
  {
    [DigitChar(n / 10), DigitChar(n % 10)]
  }

  /** Zero-padded four-digit rendering. */
  function Pad4(n: nat): (s: string)
    requires n < 10000
    ensures |s| == 4
  {
    Pad2(n / 100) + Pad2(n % 100)
  }

  /** `YYYY-MM-DD-NSE-EQ.csv`. */
  function IsoName(d: Date): (s: string)
    requires ValidDate(d)
  {
    Pad4(d.year) + "-" + Pad2(d.month) + "-" + Pad2(d.day) + IsoSuffix
  }

  /** The name the exchange gives a day's file: `cm`, the day, the upper-case
      month abbreviation, the year, `bhav.csv`. */
  function BhavName(d: Date): (s: string)
    requires ValidDate(d)
  {
    "cm" + Pad2(d.day) + MonthAbbrevs[d.month - 1] + Pad4(d.year) + BhavSuffix
  }

  /** The rewrite of one directory entry. A name without the bhavcopy suffix
      is kept; otherwise the nine characters after the first two are read as
      a date, which must parse. */
  function RewriteName(name: string): (r: Rename)
    ensures r.Kept? <==> !EndsWith(name, BhavSuffix)
    ensures r.Renamed? ==> exists d :: Spells(ClampedSlice(name, 2, 11), d) && r.newName == IsoName(d)
    ensures r.Malformed? ==> forall d :: !Spells(ClampedSlice(name, 2, 11), d)
  {
    var field := ClampedSlice(name, 2, 11);
    if !EndsWith(name, BhavSuffix) then Kept
    else
      match ParseBhavDate(field)
      case Some(d) => Renamed(IsoName(d))
      case None =>
        assert forall d :: !Spells(field, d) by {
          forall d
            ensures !Spells(field, d)
          {
            ParseBhavDateExact(field, d);
          }
        }
        Malformed
  }

  /** Reading a rendered day gives it back. */
  lemma ParseDayOfPad2(day: nat)
    requires 1 <= day <= 31
    ensures ParseDay(Pad2(day)) == Some(day)
  {
  }

  /** Reading a rendered year gives it back. */
  lemma ParseYearOfPad4(year: nat)
    requires year < 10000
    ensures ParseYear(Pad4(year)) == Some(year)
  {
  }

  /** A field that spells a month's abbreviation, in any letter case, is
      recognised as that month: no earlier abbreviation matches it. */
  lemma FindMonthOfField(f: string, m: nat)
    requires 1 <= m <= 12
    requires SameIgnoringCase(f, MonthAbbrevs[m - 1])
    ensures FindMonth(f, 0) == Some(m)
  {
    var a := MonthAbbrevs[m - 1];
    forall k | 0 <= k < m - 1
      ensures !SameIgnoringCase(f, MonthAbbrevs[k])
    {
      var b := MonthAbbrevs[k];
      assert Upper(a[0]) != Upper(b[0]) || Upper(a[1]) != Upper(b[1]) || Upper(a[2]) != Upper(b[2]);
    }
    FindMonthStops(f, 0, m);
  }

  lemma {:induction false} FindMonthStops(s: string, i: nat, m: nat)
    requires i < m <= 12
    requires SameIgnoringCase(s, MonthAbbrevs[m - 1])
    requires forall k :: i <= k < m - 1 ==> !SameIgnoringCase(s, MonthAbbrevs[k])
    ensures FindMonth(s, i) == Some(m)
    decreases m - i
  {
    if i < m - 1 {
      FindMonthStops(s, i + 1, m);
    }
  }

  /** The name the exchange gives a day's file is rewritten to that day's
      date-stamped name. */
  lemma BhavNameRewritesToIsoName(d: Date)
    requires ValidDate(d)
    ensures RewriteName(BhavName(d)) == Renamed(IsoName(d))
  {
    var name := BhavName(d);
    var dd := Pad2(d.day);
    var mon := MonthAbbrevs[d.month - 1];
    var yyyy := Pad4(d.year);
    assert |mon| == 3;
    assert name == "cm" + dd + mon + yyyy + BhavSuffix;
    assert |name| == 19;
    assert name[|name| - |BhavSuffix|..] == BhavSuffix;
    var field := ClampedSlice(name, 2, 11);
    assert field == dd + mon + yyyy;
    assert field[..2] == dd && field[2..5] == mon && field[5..] == yyyy;
    ParseDayOfPad2(d.day);
    FindMonthOfField(MonthAbbrevs[d.month - 1], d.month);
    ParseYearOfPad4(d.year);
    assert ParseBhavDate(field) == Some(d);
  }

  /** Every way of writing an existing date in the nine-character field is
      read back as that date, so a field parses to `d` exactly when it
      spells `d`. */
  lemma ParseBhavDateExact(s: string, d: Date)
    ensures ParseBhavDate(s) == Some(d) <==> Spells(s, d)
  {
    if Spells(s, d) {
      var day := s[..2];
      if day == Pad2(d.day) {
        ParseDayOfPad2(d.day);
      } else {
        assert day == [' ', DigitChar(d.day)];
      }
      assert ParseDay(day) == Some(d.day);
      FindMonthOfField(s[2..5], d.month);
      ParseYearOfPad4(d.year);
      assert ParseYear(s[5..]) == Some(d.year);
    }
  }

  /** Calendar order of dates. */
  predicate DateBefore(a: Date, b: Date)
  {
    a.year < b.year || (a.year == b.year && (a.month < b.month || (a.month == b.month && a.day < b.day)))
  }

  /** Lexicographic order of strings, as names are compared and sorted. */
  predicate LexLess(a: string, b: string)
    decreases |a|
  {
    if |a| == 0 then |b| > 0
    else if |b| == 0 then false
    else a[0] < b[0] || (a[0] == b[0] && LexLess(a[1..], b[1..]))
  }

  lemma {:induction false} LexIrreflexive(s: string)
    ensures !LexLess(s, s)
    decreases |s|
  {
    if |s| > 0 {
      LexIrreflexive(s[1..]);
    }
  }

  /** Comparing two strings that start with parts of equal length compares
      those parts first and the rests only on a tie. */
  lemma {:induction false} LexAppend(x: string, y: string, r: string, t: string)
    requires |x| == |y|
    ensures LexLess(x + r, y + t) <==> LexLess(x, y) || (x == y && LexLess(r, t))
    decreases |x|
  {
    if |x| > 0 {
      assert (x + r)[0] == x[0] && (y + t)[0] == y[0];
      assert (x + r)[1..] == x[1..] + r && (y + t)[1..] == y[1..] + t;
      LexAppend(x[1..], y[1..], r, t);
      if x[0] == y[0] && x[1..] == y[1..] {
        assert x == y;
      }
    } else {
      assert x + r == r && y + t == t;
    }
  }

  lemma LexPad2(a: nat, b: nat)
    requires a < 100 && b < 100
    ensures LexLess(Pad2(a), Pad2(b)) <==> a < b
    ensures Pad2(a) == Pad2(b) <==> a == b
  {
    var x := Pad2(a);
    var y := Pad2(b);
    assert x == [x[0]] + [x[1]] && y == [y[0]] + [y[1]];
    LexAppend([x[0]], [y[0]], [x[1]], [y[1]]);
    assert LexLess([x[1]], [y[1]]) <==> x[1] < y[1] by {
      assert [x[1]][1..] == [] && [y[1]][1..] == [];
    }
    assert LexLess([x[0]], [y[0]]) <==> x[0] < y[0] by {
      assert [x[0]][1..] == [] && [y[0]][1..] == [];
    }
    assert x[0] < y[0] <==> a / 10 < b / 10;
    assert x[1] < y[1] <==> a % 10 < b % 10;
  }

  lemma LexPad4(a: nat, b: nat)
    requires a < 10000 && b < 10000
    ensures LexLess(Pad4(a), Pad4(b)) <==> a < b
    ensures Pad4(a) == Pad4(b) <==> a == b
  {
    LexPad2(a / 100, b / 100);
    LexPad2(a % 100, b % 100);
    LexAppend(Pad2(a / 100), Pad2(b / 100), Pad2(a % 100), Pad2(b % 100));
    if Pad4(a) == Pad4(b) {
      assert Pad4(a)[..2] == Pad2(a / 100) && Pad4(b)[..2] == Pad2(b / 100);
      assert Pad4(a)[2..] == Pad2(a % 100) && Pad4(b)[2..] == Pad2(b % 100);
    }
  }

  /** The day and the fixed ending of a date-stamped name. */
  function DayPart(d: Date): string
    requires ValidDate(d)
  {
    Pad2(d.day) + IsoSuffix
  }

  /** The month onwards of a date-stamped name. */
  function MonthPart(d: Date): string
    requires ValidDate(d)
  {
    Pad2(d.month) + ("-" + DayPart(d))
  }

  lemma DayPartOrder(a: Date, b: Date)
    requires ValidDate(a) && ValidDate(b)
    ensures LexLess(DayPart(a), DayPart(b)) <==> a.day < b.day
  {
    LexPad2(a.day, b.day);
    LexIrreflexive(IsoSuffix);
    LexAppend(Pad2(a.day), Pad2(b.day), IsoSuffix, IsoSuffix);
  }

  lemma MonthPartOrder(a: Date, b: Date)
    requires ValidDate(a) && ValidDate(b)
    ensures LexLess(MonthPart(a), MonthPart(b)) <==> a.month < b.month || (a.month == b.month && a.day < b.day)
  {
    LexPad2(a.month, b.month);
    DayPartOrder(a, b);
    LexIrreflexive("-");
    LexAppend("-", "-", DayPart(a), DayPart(b));
    LexAppend(Pad2(a.month), Pad2(b.month), "-" + DayPart(a), "-" + DayPart(b));
  }

  /** The date-stamped names sort exactly as their dates do, so the file
      sorting last is the most recent trading day. */
  lemma IsoNameOrder(a: Date, b: Date)
    requires ValidDate(a) && ValidDate(b)
    ensures DateBefore(a, b) <==> LexLess(IsoName(a), IsoName(b))
  {
    assert IsoName(a) == Pad4(a.year) + ("-" + MonthPart(a));
    assert IsoName(b) == Pad4(b.year) + ("-" + MonthPart(b));
    LexPad4(a.year, b.year);
    MonthPartOrder(a, b);
    LexIrreflexive("-");
    LexAppend("-", "-", MonthPart(a), MonthPart(b));
    LexAppend(Pad4(a.year), Pad4(b.year), "-" + MonthPart(a), "-" + MonthPart(b));
  }

  /** Distinct trading days never share a date-stamped name. */
  lemma IsoNameInjective(a: Date, b: Date)
    requires ValidDate(a) && ValidDate(b)
    ensures IsoName(a) == IsoName(b) <==> a == b
  {
    if a != b {
      IsoNameOrder(a, b);
      IsoNameOrder(b, a);
      LexIrreflexive(IsoName(a));
      assert DateBefore(a, b) || DateBefore(b, a);
    }
  }
}
