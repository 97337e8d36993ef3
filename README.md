# Stopwatch: a Dafny model of the timer core of `script.js`

`script.js` drives a browser stopwatch. It keeps four pieces of state:
- `running`;
- `startTime`, the clock reading when the current run began;
- `elapsedBefore`, the milliseconds banked by earlier runs;
- `laps`, the list of recorded laps.

Its handlers are `start`, `pause`, `reset`, `lap`, the clear-laps button and
the start/pause toggle, and they update that state in place. `formatTime`
prints a number of milliseconds as `MM:SS.mmm`. `exportCSV` turns the lap
list into a CSV text.

The model has five modules:

- `Opt` (`opt.dfy`): the `Option` datatype.
- `TimeFormat` (`time_format.dfy`): `formatTime`, with JavaScript's arithmetic
  written out.
  - `Math.floor(a / b)` is Dafny's `/` for a positive divisor.
  - JavaScript's `%` truncates toward zero; that is `JsRem`.
  - `String(n)` puts a minus sign before a negative number.
  - `padStart` only ever adds fill characters in front.

  Besides the function itself, this module proves:
  - the `MM:SS.mmm` layout of the output;
  - that each field holds the matching component;
  - that the text reads back as the same number of milliseconds;
  - that no text contains a CSV delimiter.
- `Laps` (`laps.dfy`): the lap entry that `lap()` builds, and `Recorded`, the
  invariant of a list built only by `lap()`:
  - entries numbered 1, 2, 3, …;
  - each text is `formatTime` of its lap time and of its total;
  - the totals are non-negative and never decrease.
- `LapCsv` (`lap_csv.dfy`): the text built by
  `[header, ...rows].map(r => r.join(',')).join('\n')`, and `None` where the
  script alerts "No laps to export" instead. Splitting the text back on
  newlines and commas returns the header and one `index,time,cumulative` row
  per lap. `SplitOn` is that reader; it models nothing in `script.js` and is
  there only to state the round trip of the join (`SplitJoin`, `CsvLines`,
  `ExportLines`). `TimeFormat.ParseTime` plays the same part for the
  `MM:SS.mmm` text.
- `Timer` (`stopwatch.dfy`): the class `Stopwatch`, with the four state
  fields and one method per handler.
  - Each method that reads the clock takes the reading `now` that the script
    would get from `performance.now()`.
  - A ghost field `clock` records the latest reading. Each handler that reads
    the clock requires `clock <= now`, because the browser's monotonic clock never goes back.
  - `Valid()` is the invariant every handler keeps: the paused total is never
    negative, a running stopwatch started no later than `clock`, the lap list
    is `Recorded`, and the last lap's total does not exceed the current time.

What `script.js` does, and the model with it:
- `lap()` always pushes an entry, even at 0 ms or while paused;
- laps are not tagged fastest or slowest;
- the clear-laps button empties the list at once, without asking;
- `reset()` always runs, whatever the state.

## Model

| member | source | states |
|---|---|---|
| TimeFormat.NatToString | script.js:27 | String(n) of a non-negative n is the shortest run of decimal digits that denotes n (no leading '0' unless n is 0), with two digits from 10 to 99 and three from 100 to 999 |
| TimeFormat.IntToString | script.js:27 | String(n) holds only digits and '-'; for n >= 0 it is the unsigned rendering, and for n < 0 it is '-' followed by digits that denote -n |
| TimeFormat.PadStart | script.js:27 | padStart gives length the larger of the length of s and width and is s preceded by fill characters only |
| TimeFormat.JsRem | script.js:25-26 | JavaScript's `%` with a positive divisor: strictly inside (-b, b), equal to the Euclidean remainder for a >= 0, and taking the dividend's sign for a < 0 |
| TimeFormat.Components | script.js:23-26 | for ms >= 0, minutes >= 0, seconds in 0..59 and milliseconds in 0..999, with minutes*60000 + seconds*1000 + millis = ms; for ms < 0 every component is <= 0 |
| TimeFormat.ClockText | script.js:27 | the padded `MM:SS.mmm` text never holds ',' or a newline |
| TimeFormat.FormatTime | script.js:22-28 | formatTime's output never holds ',' or a newline |
| TimeFormat.PaddedValue | script.js:27 | zero-padding String(n) keeps it all digits and still denotes n |
| TimeFormat.LeadingZeros | script.js:27 | leading '0's do not change the value of a digit string |
| TimeFormat.ClockTextFields | script.js:27 | for components in range, the text has the `MM:SS.mmm` layout (at least two minute digits, two second digits, three millisecond digits) and each field denotes its component |
| TimeFormat.FormatTimeFields | script.js:22-28 | for ms >= 0, formatTime(ms) has the `MM:SS.mmm` layout, its minute field is max(2, digits of the minutes) wide, and its fields denote the minutes, seconds and milliseconds of ms |
| TimeFormat.ParseFormatTime | script.js:22-28 | round trip: reading formatTime(ms) back as minutes, seconds and milliseconds gives ms, for every ms >= 0 |
| TimeFormat.FormatTimeInjective | script.js:22-28 | two different non-negative durations never print alike |
| TimeFormat.FormatTimeSubSecond | script.js:22-28 | from 100 to 999 ms the text is `00:00.` followed by the number's digits |
| TimeFormat.ThreeDigits | script.js:27 | String(n) for 100 <= n <= 999 is its hundreds, tens and units digits |
| TimeFormat.FormatTimeExample | script.js:22-28 | formatTime(65432) is `01:05.432` |
| TimeFormat.FormatTimeOfAnHour | script.js:22-28 | formatTime(3600000) is `60:00.000`: the minutes do not wrap at the hour |
| TimeFormat.FormatTimeOfNegative | script.js:22-28 | formatTime(-5) is `-1:-1.0-5`, because floor division and truncating `%` disagree in sign |
| Laps.PreviousCumulative | script.js:73 | the `cumulativeMs` of the last lap, 0 for no laps; in a chronological list it is non-negative and no earlier total exceeds it |
| Laps.LapTime | script.js:73 | the whole current total for the first lap, otherwise the current total minus the last lap's total; for a chronological list and a non-negative total it never exceeds the current total |
| Laps.NewEntry | script.js:74-79 | the entry is numbered one past the last lap, keeps the current total, and its two texts hold no ',' or newline |
| Laps.RecordedEntries | script.js:72-79 | every entry of a recorded list is exactly the entry lap() builds from the entries before it and its own total |
| Laps.RecordNewEntry | script.js:71-80 | pushing the entry lap() builds keeps the list recorded, provided the new total is non-negative and not below the last one |
| Laps.LastTotal | script.js:73 | after a push, the last lap's total is the total just recorded |
| Laps.LapTimes | script.js:73 | in a chronological list no lap time is negative, the first lap time is the first total, and each later one is the difference of two consecutive totals |
| Laps.LapTimesAddUp | script.js:73 | the lap times of the first n laps add up to the total of lap n |
| Laps.TextsReadBack | script.js:76-77 | every stored lap-time text reads back as that lap's duration and every total text as its total |
| Laps.TextsFreeOfDelimiters | script.js:76-77 | no stored text holds ',' or a newline |
| LapCsv.Join | script.js:105 | `join`: no parts give the empty text; otherwise the text starts with the first part, followed by the separator when there is more than one part |
| LapCsv.CsvText | script.js:105 | `.map(r => r.join(',')).join('\n')`: the text starts with the first row joined by ',' |
| LapCsv.Header | script.js:103 | the header row has three names, none holding ',' or a newline |
| LapCsv.Fields | script.js:104 | a lap's row has three cells: digits that read back as the lap number, then its lap time and its total time |
| LapCsv.LapTable | script.js:104 | `laps.map(...)`: one row per lap, in list order |
| LapCsv.SplitJoin | script.js:105 | splitting a join on its separator gives the parts back when no part holds the separator |
| LapCsv.CsvLines | script.js:105 | round trip of the CSV layout: with no delimiter in any cell and no empty row, splitting on newlines and then on ',' gives the table back |
| LapCsv.ExportText | script.js:98-105 | there is no CSV text exactly when the lap list is empty |
| LapCsv.ExportTablePlain | script.js:103-104 | every exported row has three cells and none holds a delimiter |
| LapCsv.ExportLines | script.js:103-105 | the export of a non-empty list has one line more than there are laps: the header `Lap,LapTime,CumulativeTime`, then for each lap in order its number, lap time and total time |
| LapCsv.ExportOfRecordedLaps | script.js:98-105 | for laps the stopwatch recorded, line i + 1 reads `i + 1`, then a lap time that parses to that lap's duration, then a total that parses to its total |
| LapCsv.ExportExample | script.js:103-105 | laps with totals 500 ms and 800 ms export as the header line, `1,00:00.500,00:00.500` and `2,00:00.300,00:00.800` |
| LapCsv.ExportEmpty | script.js:99-102 | an empty list exports nothing |
| Timer.Elapsed | script.js:72 | the current time: the banked total while paused, and no less than it while running since a reading no later than now; never negative when the banked total is not |
| Timer.Stopwatch.ElapsedAt | script.js:72 | in a valid state and at any later reading, the time lap() reads is never negative and never behind the last lap's total |
| Timer.LapKeepsConsistent | script.js:71-80 | a lap taken at a later reading keeps the stopwatch's invariant |
| Timer.ElapsedNeverDecreases | script.js:72 | in a consistent state the time read later is never smaller, never negative, and never behind the last lap's total |
| Timer.Stopwatch.constructor | script.js:15-18 | the page starts paused, with a start time of 0, 0 ms banked and no laps |
| Timer.Stopwatch.Start | script.js:38-45 | no change while running; otherwise running with startTime = now; the banked total and the laps are untouched, and the current time is unchanged |
| Timer.Stopwatch.Pause | script.js:48-55 | no change while paused; otherwise stops and banks now - startTime; the banked total never decreases, the laps are untouched, and the current time is unchanged |
| Timer.Stopwatch.Toggle | script.js:118-120 | flips running: pauses with the pause effect while running, starts with the start effect otherwise |
| Timer.Stopwatch.Reset | script.js:58-68 | every field returns to its initial value and the current time reads 0 |
| Timer.Stopwatch.Lap | script.js:71-82 | appends exactly the entry numbered one past the last lap for the current time, whether running or paused, and changes nothing else; the invariant is kept |
| Timer.Stopwatch.ClearLaps | script.js:126-129 | empties the lap list and changes no timing state |
| Timer.Stopwatch.ExportCsv | script.js:98-105 | returns the CSV text of the current laps, and None exactly when there are none |
| Timer.LapScenario | script.js:71-82 | start at 0 ms, lap at 500 ms and at 800 ms, then export: the header line, `1,00:00.500,00:00.500` and `2,00:00.300,00:00.800` |

## Left out

- The DOM is not modelled: the display text, button labels and classes, the lap list rendering (`renderLaps`, script.js:85-95) and the lap counter.
- `updateDisplay` and `requestAnimationFrame` / `cancelAnimationFrame` (script.js:31-35, 54) only repaint, so `animationId` is not modelled either.
- `performance.now()` is not called; each handler takes its reading as the parameter `now`.
- Each handler that reads the clock requires the readings never to decrease (`clock <= now`), which the browser's monotonic clock guarantees.
- Numbers are unbounded integers. JavaScript's are doubles, exact only up to 2^53, and String() uses exponent notation from 1e21. No duration the page can measure comes near either bound. So the claims "for every ms >= 0" in `FormatTimeFields`, `ParseFormatTime` and `FormatTimeInjective`, and the shortest-digits rendering of `NatToString`, describe the program only below those bounds.
- The download is not modelled: the `Blob`, the object URL and the anchor click (script.js:106-114). The `alert` on an empty export is the `None` result.
- Event wiring, the keyboard shortcuts (script.js:134-147) and the visibility handler (script.js:150-152) are not modelled. The visibility handler only calls `pause()`, which `Stopwatch.Pause` models. The Space key calls the same toggle as the start button, which `Stopwatch.Toggle` models.
- Times are integers: `performance.now()` returns fractional milliseconds, which `Math.floor(ms % 1000)` would truncate. The model has whole milliseconds only.
- TimeFormat.FormatTimeFields: states the `MM:SS.mmm` layout for ms >= 0 only, because a negative input prints a '-' inside its fields (see `FormatTimeOfNegative`). No handler can produce a negative input while `Valid()` holds.
- TimeFormat.ParseFormatTime: the round trip is stated for ms >= 0 only, for the same reason.
