/**
 * The CSV text exportCSV builds from the lap list: a header row, then one
 * row `index,time,cumulative` per lap, each row joined with ',' and the rows
 * joined with '\n'. An empty list produces no text at all (the source shows
 * a notice instead of downloading).
 */
module LapCsv {
  import opened Opt
  import opened TimeFormat
  import opened Laps

  /**
   * Array.prototype.join with a one-character separator: the parts in
   * order, the separator between each two.
   */
  function Join(parts: seq<string>, sep: char): (r: string)
    ensures |parts| == 0 ==> r == ""
    ensures |parts| >= 1 ==> parts[0] <= r
    ensures |parts| >= 2 ==> |parts[0]| < |r| && r[|parts[0]|] == sep
  {
    if |parts| == 0 then ""
    else if |parts| == 1 then parts[0]
    else parts[0] + [sep] + Join(parts[1..], sep)
  }

  /** String.prototype.split with a one-character separator: the pieces between separators. */
  function SplitOn(s: string, sep: char): (parts: seq<string>)
    ensures |parts| >= 1
  {
    if s == [] then [""]
    else
      var rest := SplitOn(s[1..], sep);
      if s[0] == sep then [""] + rest else [[s[0]] + rest[0]] + rest[1..]
  }

  /** The header row: three names, none holding a delimiter. */
  function Header(): (h: seq<string>)
    ensures |h| == 3 && forall i :: 0 <= i < 3 ==> FreeOfDelimiters(h[i])
  {
    ["Lap", "LapTime", "CumulativeTime"]
  }

  /** The row of one lap: [l.index, l.time, l.cumulative]; the first cell reads back as the number. */
  function Fields(l: LapEntry): (r: seq<string>)
    ensures |r| == 3 && r[1] == l.time && r[2] == l.cumulative
    ensures AllDigits(r[0]) && DigitsValue(r[0]) == l.index
  {
    [NatToString(l.index), l.time, l.cumulative]
  }

  /** laps.map(...): one row per lap, in list order. */
  function LapTable(laps: seq<LapEntry>): (t: seq<seq<string>>)
    ensures |t| == |laps| && forall i :: 0 <= i < |laps| ==> t[i] == Fields(laps[i])
  {
    seq(|laps|, i requires 0 <= i < |laps| => Fields(laps[i]))
  }

  /** table.map(r => r.join(',')).join('\n'): the text starts with the first row's line. */
  function CsvText(table: seq<seq<string>>): (r: string)
    ensures |table| >= 1 ==> Join(table[0], ',') <= r
  {
    Join(seq(|table|, i requires 0 <= i < |table| => Join(table[i], ',')), '\n')
  }

  /** The text exportCSV would download; None when there are no laps to export. */
  function ExportText(laps: seq<LapEntry>): (csv: Option<string>)
    ensures csv.None? <==> laps == []
  {
    if laps == [] then None else Some(CsvText([Header()] + LapTable(laps)))
  }

  lemma {:induction false} SplitWithoutSeparator(s: string, sep: char)
    requires sep !in s
    ensures SplitOn(s, sep) == [s]
  {
    if s != [] {
      assert sep !in s[1..];
      SplitWithoutSeparator(s[1..], sep);
      assert [s[0]] + s[1..] == s;
    }
  }

  /** Splitting stops at the first separator. */
  lemma {:induction false} SplitAtFirstSeparator(first: string, sep: char, rest: string)
    requires sep !in first
    ensures SplitOn(first + [sep] + rest, sep) == [first] + SplitOn(rest, sep)
  {
    var s := first + [sep] + rest;
    if first == [] {
      assert s[0] == sep && s[1..] == rest;
    } else {
      assert sep !in first[1..];
      SplitAtFirstSeparator(first[1..], sep, rest);
      assert s[0] == first[0] && s[0] != sep;
      assert s[1..] == first[1..] + [sep] + rest;
      assert [first[0]] + first[1..] == first;
    }
  }

  /** Round trip: splitting a join gives back the parts, when no part holds the separator. */
  lemma {:induction false} SplitJoin(parts: seq<string>, sep: char)
    requires |parts| >= 1
    requires forall i :: 0 <= i < |parts| ==> sep !in parts[i]
    ensures SplitOn(Join(parts, sep), sep) == parts
  {
    if |parts| == 1 {
      SplitWithoutSeparator(parts[0], sep);
    } else {
      SplitJoin(parts[1..], sep);
      SplitAtFirstSeparator(parts[0], sep, Join(parts[1..], sep));
      assert [parts[0]] + parts[1..] == parts;
    }
  }

  /** A join holds a character only if a part or the separator does. */
  lemma {:induction false} JoinWithout(parts: seq<string>, sep: char, c: char)
    requires c != sep
    requires forall i :: 0 <= i < |parts| ==> c !in parts[i]
    ensures c !in Join(parts, sep)
  {
    if |parts| > 1 {
      JoinWithout(parts[1..], sep, c);
    }
  }

  /** No cell of the table holds a ',' or a newline. */
  ghost predicate PlainCells(table: seq<seq<string>>) {
    forall i, j :: 0 <= i < |table| && 0 <= j < |table[i]| ==> FreeOfDelimiters(table[i][j])
  }

  /**
   * Round trip of the CSV layout: when no cell holds a delimiter and no row
   * is empty, splitting the text on newlines and each line on ',' gives the
   * table back.
   */
  lemma CsvLines(table: seq<seq<string>>)
    requires |table| >= 1
    requires forall i :: 0 <= i < |table| ==> |table[i]| >= 1
    requires PlainCells(table)
    ensures var lines := SplitOn(CsvText(table), '\n');
      |lines| == |table| && forall i :: 0 <= i < |table| ==> SplitOn(lines[i], ',') == table[i]
  {
    var rows := seq(|table|, i requires 0 <= i < |table| => Join(table[i], ','));
    forall i | 0 <= i < |table|
      ensures '\n' !in rows[i] && SplitOn(rows[i], ',') == table[i]
    {
      forall j | 0 <= j < |table[i]|
        ensures ',' !in table[i][j] && '\n' !in table[i][j]
      {
        TextWithoutDelimiters(table[i][j]);
      }
      JoinWithout(table[i], ',', '\n');
      SplitJoin(table[i], ',');
    }
    SplitJoin(rows, '\n');
  }

  lemma DigitsWithoutDelimiters(s: string)
    requires AllDigits(s)
    ensures FreeOfDelimiters(s)
  {
  }

  /** The membership form of FreeOfDelimiters, as the split and join lemmas state it. */
  lemma TextWithoutDelimiters(s: string)
    requires FreeOfDelimiters(s)
    ensures ',' !in s && '\n' !in s
  {
    assert forall i :: 0 <= i < |s| ==> s[i] != ',' && s[i] != '\n';
  }

  /** The rows exportCSV builds: three cells each, none holding a delimiter. */
  lemma ExportTablePlain(laps: seq<LapEntry>)
    requires forall i :: 0 <= i < |laps| ==> FreeOfDelimiters(laps[i].time) && FreeOfDelimiters(laps[i].cumulative)
    ensures var table := [Header()] + LapTable(laps);
      (forall i :: 0 <= i < |table| ==> |table[i]| == 3) && PlainCells(table)
  {
    var table := [Header()] + LapTable(laps);
    forall i, j | 0 <= i < |table| && 0 <= j < |table[i]|
      ensures FreeOfDelimiters(table[i][j])
    {
      if i > 0 {
        var l := laps[i - 1];
        assert table[i] == Fields(l);
        DigitsWithoutDelimiters(NatToString(l.index));
      }
    }
  }

  /**
   * The exported text of a non-empty list whose texts hold no delimiter has
   * |laps| + 1 lines: the header, then for each lap in order a line whose
   * three fields are its number, its lap time and its total time.
   */
  lemma ExportLines(laps: seq<LapEntry>)
    requires laps != []
    requires forall i :: 0 <= i < |laps| ==> FreeOfDelimiters(laps[i].time) && FreeOfDelimiters(laps[i].cumulative)
    ensures var lines := SplitOn(ExportText(laps).value, '\n');
      |lines| == |laps| + 1
      && SplitOn(lines[0], ',') == Header()
      && forall i :: 0 <= i < |laps| ==> SplitOn(lines[i + 1], ',') == [NatToString(laps[i].index), laps[i].time, laps[i].cumulative]
  {
    var table := [Header()] + LapTable(laps);
    ExportTablePlain(laps);
    CsvLines(table);
    assert forall i :: 0 <= i < |laps| ==> table[i + 1] == Fields(laps[i]);
  }

  /**
   * A line's fields read `number,<lap time>,<total time>`, both times reading
   * back as the given numbers of milliseconds.
   */
  ghost predicate ReadsAs(fields: seq<string>, number: nat, lapMs: int, totalMs: int) {
    |fields| == 3
    && fields[0] == NatToString(number)
    && ParseTime(fields[1]) == Some(lapMs)
    && ParseTime(fields[2]) == Some(totalMs)
  }

  /**
   * The export of laps recorded by the stopwatch: a header line, then line
   * i + 1 reads `i + 1,<lap time>,<total time>`, and both times read back as
   * the lap's duration and total in milliseconds.
   */
  lemma ExportOfRecordedLaps(laps: seq<LapEntry>)
    requires laps != [] && Recorded(laps)
    ensures var lines := SplitOn(ExportText(laps).value, '\n');
      |lines| == |laps| + 1
      && SplitOn(lines[0], ',') == Header()
      && forall i :: 0 <= i < |laps| ==>
           ReadsAs(SplitOn(lines[i + 1], ','), i + 1, LapTime(laps[..i], laps[i].cumulativeMs), laps[i].cumulativeMs)
  {
    var lines := SplitOn(ExportText(laps).value, '\n');
    TextsFreeOfDelimiters(laps);
    ExportLines(laps);
    TextsReadBack(laps);
    forall i | 0 <= i < |laps|
      ensures ReadsAs(SplitOn(lines[i + 1], ','), i + 1, LapTime(laps[..i], laps[i].cumulativeMs), laps[i].cumulativeMs)
    {
      EntryLine(laps[i], SplitOn(lines[i + 1], ','), i + 1, LapTime(laps[..i], laps[i].cumulativeMs));
    }
  }

  lemma EntryLine(l: LapEntry, fields: seq<string>, number: nat, lapMs: int)
    requires fields == [NatToString(l.index), l.time, l.cumulative] && l.index == number
    requires ParseTime(l.time) == Some(lapMs) && ParseTime(l.cumulative) == Some(l.cumulativeMs)
    ensures ReadsAs(fields, number, lapMs, l.cumulativeMs)
  {
  }

  /** The two-lap example: totals of 500 ms and 800 ms. */
  lemma ExportExample()
    ensures ExportText([LapEntry(1, "00:00.500", "00:00.500", 500), LapEntry(2, "00:00.300", "00:00.800", 800)])
      == Some("Lap,LapTime,CumulativeTime" + "\n" + "1,00:00.500,00:00.500" + "\n" + "2,00:00.300,00:00.800")
  {
    var laps := [LapEntry(1, "00:00.500", "00:00.500", 500), LapEntry(2, "00:00.300", "00:00.800", 800)];
    assert NatToString(1) == "1" && NatToString(2) == "2";
    assert LapTable(laps)[0] == Fields(laps[0]) && LapTable(laps)[1] == Fields(laps[1]);
    assert [Header()] + LapTable(laps) == [Header(), ["1", "00:00.500", "00:00.500"], ["2", "00:00.300", "00:00.800"]];
    ExampleText();
  }

  lemma ExampleText()
    ensures CsvText([Header(), ["1", "00:00.500", "00:00.500"], ["2", "00:00.300", "00:00.800"]])
      == "Lap,LapTime,CumulativeTime" + "\n" + "1,00:00.500,00:00.500" + "\n" + "2,00:00.300,00:00.800"
  {
    var table := [Header(), ["1", "00:00.500", "00:00.500"], ["2", "00:00.300", "00:00.800"]];
    var rows := seq(|table|, i requires 0 <= i < |table| => Join(table[i], ','));
    HeaderLine();
    ExampleRows();
    assert rows == ["Lap,LapTime,CumulativeTime", "1,00:00.500,00:00.500", "2,00:00.300,00:00.800"];
    JoinThree("Lap,LapTime,CumulativeTime", "1,00:00.500,00:00.500", "2,00:00.300,00:00.800", '\n');
  }

  /** The first line of every export. */
  lemma HeaderLine()
    ensures Join(Header(), ',') == "Lap,LapTime,CumulativeTime"
  {
    JoinedRow("Lap", "LapTime", "CumulativeTime", "Lap,LapTime,CumulativeTime");
  }

  lemma ExampleRows()
    ensures Join(["1", "00:00.500", "00:00.500"], ',') == "1,00:00.500,00:00.500"
    ensures Join(["2", "00:00.300", "00:00.800"], ',') == "2,00:00.300,00:00.800"
  {
    FirstRow();
    SecondRow();
  }

  lemma FirstRow()
    ensures Join(["1", "00:00.500", "00:00.500"], ',') == "1,00:00.500,00:00.500"
  {
    JoinedRow("1", "00:00.500", "00:00.500", "1,00:00.500,00:00.500");
  }

  lemma SecondRow()
    ensures Join(["2", "00:00.300", "00:00.800"], ',') == "2,00:00.300,00:00.800"
  {
    JoinedRow("2", "00:00.300", "00:00.800", "2,00:00.300,00:00.800");
  }

  lemma JoinThree(a: string, b: string, c: string, sep: char)
    ensures Join([a, b, c], sep) == a + [sep] + b + [sep] + c
  {
    assert [a, b, c][1..] == [b, c];
    assert [b, c][1..] == [c];
    assert Join([b, c], sep) == b + [sep] + c;
    assert Join([a, b, c], sep) == a + [sep] + (b + [sep] + c);
    assert a + [sep] + (b + [sep] + c) == a + [sep] + b + [sep] + c;
  }

  lemma JoinedRow(a: string, b: string, c: string, row: string)
    requires a + [','] + b + [','] + c == row
    ensures Join([a, b, c], ',') == row
  {
    JoinThree(a, b, c, ',');
  }

  /** The empty list exports nothing. */
  lemma ExportEmpty()
    ensures ExportText([]) == None
  {
  }
}
