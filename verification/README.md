# Stock screening pipeline: a Dafny model

This project models the end-of-day stock screen of a small tool that works
on the daily "bhavcopy" files of the National Stock Exchange of India. Each
file is one trading day's table: one row per symbol and series, with the
day's high, low and close prices and the traded quantity. The screen reads
these files and narrows the latest day in four stages. Each stage writes a
report:

1. **Near the high.** Keep the equity (`EQ` series) rows of the latest day
   whose close is at least 0.75 of the symbol's running maximum close over
   every file.
2. **Narrow range.** Keep rows whose range today (high − low) is strictly
   below half the symbol's average range over the trailing window.
3. **Liquid.** Keep rows whose symbol's average traded quantity over the
   window is strictly above 25000.
4. **At the volume low.** Keep rows whose traded quantity today is at most
   the symbol's lowest quantity in the window. A tie counts as kept.

The model also covers the filename rewrite the tool applies to each
extracted file. It turns `cmDDMONYYYYbhav.csv` into `YYYY-MM-DD-NSE-EQ.csv`.

Modules:

- `Bhavcopy` (bhavcopy.dfy): a row record holding the six columns the screen
  reads, a day's table as a sequence of rows, and the per-symbol reference
  definitions the accumulators are checked against. Those definitions are
  `Symbols`, `Occurrences`, `Total`, `Mean` and `DaysPresent`. The module also
  has the sequence `Filter` every stage uses.
- `Accumulators` (accumulators.dfy): the four dictionary folds. Each one is
  written as the program's row-by-row loop, and its contract relates it to
  the reference definitions.
- `Window` (window.dfy): which tables the window stages read. This covers
  Python's negative-step slice semantics.
- `Screening` (screening.dfy): the four stage filters and the whole screen.
- `ScreenProperties` (screen_properties.dfy): what each stage keeps, stated
  without the accumulator maps, and concrete boundary scenarios.
- `Defects` (defects.dfy): the window statistics as the program computes
  them, kept beside the corrected ones (see Findings).
- `FileNames` (file_names.dfy): the name rewrite, with its date parser and
  renderer, and the proof that the new names sort in date order.

The screen takes the days as a sequence of tables, oldest first. A
date-stamped name sorts in this order, and `FileNames.IsoNameOrder` proves
that this order is calendar order. The screen returns the four reports, or
`NoTradingDays` when there is no file at all. The program fails on that
input: it indexes the last element of an empty list.

Where the program's code is evidently wrong, the screen uses the intended
behaviour, and the as-written behaviour is modelled in `Defects` and
`Window` (see Findings). Three further points follow the program's code:

- The window accumulators fold over every row of the window tables, whatever
  its series, because the program does not filter series there.
- The corrected averages divide by the number of rows that contributed to a
  symbol. `Bhavcopy.OccurrencesAreDays` shows this equals the number of days
  the symbol traded when no table repeats a symbol.
- A symbol with no entry in a statistic is dropped by the stage that reads
  it. A map lookup of a missing key yields NaN, and every comparison with NaN
  is false, so the symbol is never treated as having the value 0.

The first-sight guard of the running maximum (main.py:114) compares a close
with three quarters of itself. `Accumulators.FirstSightGuardIsVacuous` shows
the guard is always true for non-negative prices, so the loop as written is
the running maximum. `Accumulators.FirstSightStep` shows that the only row
on which the guard matters is a symbol's first row with a negative close, and
`Accumulators.NegativeCloseIsNeverInserted` shows that a symbol all of whose
closes are negative is then missing from the map.

## Model

| member | source | states |
|---|---|---|
| Accumulators.MaxStep | main.py:109-116 | one row of the loop inserts a new symbol's close and raises an existing entry only to a larger close; other entries stay or grow |
| Accumulators.MaxClose | main.py:104-116 | the map holds exactly the symbols seen on any day; each value is at least every close of its symbol and is one of those closes, so it is the maximum |
| Accumulators.FirstSightStep | main.py:109-116 | one row of the loop as written is the ordinary running-maximum step unless it is the first row of its symbol and its close is negative, in which case nothing changes |
| Accumulators.MaxCloseAsWritten | main.py:104-116 | the loop as written keeps every symbol that has a non-negative close; each value is non-negative, at least every close of its symbol, and one of them: the running maximum over the non-negative closes |
| Accumulators.FirstSightGuardIsVacuous | main.py:113-116 | for non-negative closes, the loop as written (with its self-comparing guard) computes the same map as the running maximum |
| Accumulators.NegativeCloseIsNeverInserted | main.py:114 | for every table, a symbol all of whose closes are negative is left out by the loop as written but entered by the running maximum |
| Accumulators.MaxCloseOfOneDay | main.py:104-116 | over a single day with no repeated symbol, each symbol's running maximum is that day's close |
| Accumulators.TallyStep | main.py:136-142 | a row outside the current universe changes nothing; otherwise its measure is added to its symbol's sum and count, starting a new entry on first sight |
| Accumulators.Tallies | main.py:136-142 | the keys are the universe symbols that occur in the window; each value is the symbol's total measure and its number of rows |
| Accumulators.Average | main.py:143-145 | the keys are the universe symbols present in the window, and no absent symbol gets 0; each value is the symbol's total divided by its own row count |
| Accumulators.MinStep | main.py:181-190 | a row outside the universe changes nothing; a first-seen symbol gets its quantity; an entry only ever decreases, to the row's quantity |
| Accumulators.MinVolume | main.py:177-190 | the keys are the universe symbols present in the window; each value is at most every window quantity of the symbol and equals one of them, so it is the minimum |
| Accumulators.AverageOfConstant | main.py:143-145 | a symbol whose every window row has the same measure c averages to exactly c, however few days it traded |
| Bhavcopy.OccurrencesAreDays | main.py:143-145 | when no table repeats a symbol, the rows a symbol contributes to the flattened window equal the number of days it appears |
| Bhavcopy.Filter | main.py:121-122 | a stage's output is a sub-multiset of its input and holds exactly the input rows passing the test, each as often as in the input |
| Bhavcopy.FilterAppend | main.py:121-122 | filtering a concatenation is the concatenation of the filtered parts, so a report keeps the rows in the order of the day's table |
| Window.Preceding | main.py:130 | the window holds min(20, n − 1) tables, element k being the table k + 2 places from the end: most recent first, never the latest day |
| Window.PrecedingAsWritten | main.py:130-131 | the tables the program reads are min(19, n − 1) in number and form a prefix of the list, the oldest files |
| Window.WindowAsWrittenIsShortAndOld | main.py:130-131 | with at least 21 files the program reads the oldest 19 tables while the intended window is 20 tables starting with the one just before the latest, which the program never reads |
| Screening.ClosingHighStage | main.py:118-122 | the first report is a sub-multiset of the latest day and keeps a row, as often as it occurs there, exactly when it is EQ, its symbol has a running high, and its close is at least 0.75 of it |
| Screening.RangeStage | main.py:146-149 | the stage output is a sub-multiset of its input and keeps a row, as often as it occurs there, exactly when its symbol has an average range entry and today's range is strictly below half of it; a missing entry drops the row |
| Screening.VolumeStage | main.py:170-172 | the stage output is a sub-multiset of its input and keeps a row, as often as it occurs there, exactly when its symbol has an average quantity entry strictly above 25000; a missing entry drops the row |
| Screening.LowVolumeStage | main.py:192-194 | the stage output is a sub-multiset of its input and keeps a row, as often as it occurs there, exactly when its symbol has a lowest-quantity entry and today's quantity is at most it, ties included |
| Screening.Screen | main.py:104-198 | the screen fails exactly on an empty file list; otherwise each report is a sub-multiset of the one before it, and the first of the latest day |
| ScreenProperties.ClosingHighKeeps | main.py:104-122 | a row is in the first report iff it is a latest-day EQ row whose close is at least 0.75 of every close its symbol had on any day |
| ScreenProperties.RangeStageKeeps | main.py:130-149 | a row survives stage 2 iff its symbol traded in the window and today's range is strictly below half its mean window range |
| ScreenProperties.VolumeStageKeeps | main.py:155-172 | a row survives stage 3 iff its symbol traded in the window and its mean window quantity is strictly above 25000 |
| ScreenProperties.LowVolumeStageKeeps | main.py:177-194 | a row survives stage 4 iff its symbol traded in the window and today's quantity is at most every window quantity of the symbol, ties included |
| ScreenProperties.WindowStagesKeep | main.py:130-194 | in the whole screen, each of the second, third and final reports keeps exactly the rows of the report before it that pass its test against the tables preceding the latest day |
| ScreenProperties.EmptyUniverseShortCircuits | main.py:138-149 | once the first report is empty, a statistic built for it has no entry and every later report is empty |
| ScreenProperties.ScenarioKeeps | main.py:118-122 | a close of 80 after closes of 100 and 90 is kept by stage 1 |
| ScreenProperties.ScenarioDrops | main.py:118-122 | a close below 0.75 of some earlier close of its symbol is dropped by stage 1 |
| ScreenProperties.ThreeDayScenario | main.py:104-122 | with A closing 100, 90, 80 and B closing 100, 60, 50, the first report holds only A's latest row |
| ScreenProperties.BoundaryCloseKept | main.py:122 | a close of exactly 75 against a high of 100 is kept: the bound is inclusive |
| ScreenProperties.BelowBoundaryCloseDropped | main.py:122 | a close of 74.9 against a high of 100 is dropped |
| Defects.LastIndexOf | main.py:136-142 | the index returned is the last row carrying the symbol |
| Defects.RangeSumsAsWritten | main.py:136-142 | the range loop as written keeps, for each universe symbol in the window, only the range of its last window row |
| Defects.Sums | main.py:136-142 | the corrected sums hold each universe symbol's total range over the window |
| Defects.OverwriteLosesEarlierRanges | main.py:139-142 | two window rows of one symbol with ranges 1 and 2 give 2 as written, where the sum is 3 |
| Defects.FixedDivisorDilutesShortHistory | main.py:166-168 | a symbol with fewer than 20 window rows, all of positive measure c, gets less than c when its correct sum is divided by 20, as the quantity average does, and exactly c from the corrected average |
| Defects.RangePathCompoundsBothDefects | main.py:136-145 | on the range path five window rows of range 1 give 0.05 as written (the overwrite leaves 1, then it is divided by 20), where the average range is 1 |
| FileNames.ParseBhavDate | main.py:27-30 | a parsed date exists in the calendar (year 1-9999, day within the month, counting leap years) and is the date the nine characters write: day as two digits or space and digit, month abbreviation in any letter case, four-digit year |
| FileNames.ParseBhavDateExact | main.py:27-30 | a nine-character field parses to a date exactly when it writes that existing date in one of the accepted forms |
| FileNames.FindMonth | main.py:30 | a month is found exactly when the field spells its abbreviation in any letter case; otherwise no abbreviation matches |
| FileNames.RewriteName | main.py:25-39 | a name is left alone exactly when it does not end in "bhav.csv"; a rewritten name is the date-stamped name of the date that characters 2 to 10 write; the rename fails only when those characters write no existing date |
| FileNames.BhavNameRewritesToIsoName | main.py:26-31 | the exchange's name for a date, `cm` + DD + MON + YYYY + `bhav.csv`, is rewritten to that date's `YYYY-MM-DD-NSE-EQ.csv` |
| FileNames.IsoNameOrder | main.py:31 | one date is before another iff its date-stamped name sorts before the other's |
| FileNames.IsoNameInjective | main.py:31 | two dates share a date-stamped name only when they are the same date |

## Left out

- Downloading, extracting and deleting the archive files (main.py:9-19,
  42-85) is network and file-system I/O. Failed downloads are swallowed as
  holidays there.
- The weekday calendar of download dates (main.py:51-56) depends on the
  date library's weekday arithmetic.
- Reading the CSV files, dropping the unused columns, and writing the Excel
  reports (main.py:93-94, 101-107, 125, 151, 175, 198) are framework calls.
  A table is a sequence of six-field records, and the reports are returned
  values.
- The order of the directory listing is taken as given: the days are
  supplied oldest first. `FileNames.IsoNameOrder` shows that sorting the
  renamed files yields that order.
- The reports do not carry the columns the program appends to them. The
  stage tests compute the same values directly: today's range in
  `NarrowRange` (main.py:146, 149), the average quantity in `Liquid`
  (main.py:170, 172) and the lowest quantity in `AtVolumeLow` (main.py:192,
  194). The average-range column (main.py:147-148) is display only. The
  reports hold the surviving rows unchanged.
- The interactive menu and the module-level globals (main.py:202-241) are
  user interface and process state.
- Prices are exact reals, so floating-point rounding is not modelled. The
  thresholds 0.75, 0.5 and 25000 are exact comparisons. Quantities are
  natural numbers.
- Missing cells (NaN) inside a file are not modelled. Every row has all six
  fields.
- The renaming itself (`os.rename`) and the list of renamed pairs are left
  out. The model returns the new name, or `Malformed` where the date parser
  raises and the loop aborts.
- Line 29 builds a name that line 31 overwrites. It has no effect and is not
  modelled.
- FileNames.ParseBhavDate: does not model the date parser's acceptance of
  non-ASCII Unicode digits, its locale-dependent month names, or the
  Unicode case folding of its pattern, under which a month written `ſEP`
  (long s) matches `SEP`. It accepts
  the ASCII digits and English abbreviations the exchange uses.
- FileNames.RewriteName: a year below 1000 is rendered with four digits. The
  platform's year formatting may not pad such a year, and no bhavcopy bears
  one.

## Findings

| source | as written | input that shows it | evidently intended | confidence | as-written member | corrected member |
|---|---|---|---|---|---|---|
| main.py:139 | the "already seen" test of the range loop looks in the volume dictionary, which is still empty, so each row overwrites its symbol's range | two window rows of one symbol with ranges 1 and 2: the entry is 2, not 3 | add each row's range to its symbol's running sum | not executed | Defects.RangeSumsAsWritten, Defects.OverwriteLosesEarlierRanges | Accumulators.Tallies |
| main.py:166-168 | every window sum is divided by 20 (and likewise the range sums at main.py:143-145), however many days the symbol traded | five window days of quantity 40000: average 10000 where 40000 is meant, so the symbol fails the 25000 floor; on the range path, where the overwrite at main.py:139 acts first, five days of range 1 give 0.05 | divide by the number of days the symbol appears in the window | not executed | Defects.FixedDivisorAverage, Defects.FixedDivisorDilutesShortHistory, Defects.RangePathCompoundsBothDefects | Accumulators.Average, Accumulators.AverageOfConstant |
| main.py:130-131 | the loop counts `files_list[-2:-21:-1]`, which holds at most 19 files, and then reads that many files from the front of the list (likewise at main.py:155-156 and 177-178) | 21 files: files 0-18 are read, file 19 (the day before the latest) is not | the 20 files just before the latest, most recent first | not executed | Window.PrecedingAsWritten, Window.WindowAsWrittenIsShortAndOld | Window.Preceding |
