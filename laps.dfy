/**
 * The lap list of the stopwatch: the entries lap() pushes and the
 * invariants a list built only by lap() and by clearing keeps.
 */
module Laps {
  import opened Opt
  import opened TimeFormat

  /**
   * One recorded lap, as lap() builds it: its 1-based number, the printed
   * lap time, the printed total time and the total in milliseconds.
   */
  datatype LapEntry = LapEntry(index: nat, time: string, cumulative: string, cumulativeMs: int)

  /**
   * laps[laps.length - 1].cumulativeMs, or 0 for an empty list: in a
   * chronological list the largest total so far.
   */
  function PreviousCumulative(laps: seq<LapEntry>): (r: int)
    ensures laps == [] ==> r == 0
    ensures laps != [] ==> r == laps[|laps| - 1].cumulativeMs
    ensures Chronological(laps) ==> 0 <= r && forall i :: 0 <= i < |laps| ==> laps[i].cumulativeMs <= r
  {
    if laps == [] then 0 else laps[|laps| - 1].cumulativeMs
  }

  /**
   * The lap time lap() computes: the current total minus the total of the
   * last lap, or the whole current total for the first lap.
   */
  function LapTime(laps: seq<LapEntry>, currentMs: int): (r: int)
    ensures laps == [] ==> r == currentMs
    ensures laps != [] ==> r == currentMs - laps[|laps| - 1].cumulativeMs
    ensures Chronological(laps) && 0 <= currentMs ==> r <= currentMs
  {
    currentMs - PreviousCumulative(laps)
  }

  /**
   * The entry lap() pushes onto `laps` when the stopwatch reads currentMs:
   * the next number, the printed lap time and total, and the total itself.
   */
  function NewEntry(laps: seq<LapEntry>, currentMs: int): (e: LapEntry)
    ensures e.index == |laps| + 1 && e.cumulativeMs == currentMs
    ensures FreeOfDelimiters(e.time) && FreeOfDelimiters(e.cumulative)
  {
    LapEntry(|laps| + 1, FormatTime(LapTime(laps, currentMs)), FormatTime(currentMs), currentMs)
  }

  /** The lap numbers run 1, 2, 3, ... */
  ghost predicate Numbered(laps: seq<LapEntry>) {
    forall i :: 0 <= i < |laps| ==> laps[i].index == i + 1
  }

  /** Each entry's texts are formatTime of its lap time and of its total. */
  ghost predicate Printed(laps: seq<LapEntry>) {
    forall i {:trigger LapTime(laps[..i], laps[i].cumulativeMs)} :: 0 <= i < |laps| ==>
      laps[i].time == FormatTime(LapTime(laps[..i], laps[i].cumulativeMs))
      && laps[i].cumulative == FormatTime(laps[i].cumulativeMs)
  }

  /** Totals are never negative and never go down along the list. */
  ghost predicate Chronological(laps: seq<LapEntry>) {
    forall i, j :: 0 <= i <= j < |laps| ==> 0 <= laps[i].cumulativeMs <= laps[j].cumulativeMs
  }

  /** What a list built by lap() alone looks like. */
  ghost predicate Recorded(laps: seq<LapEntry>) {
    Numbered(laps) && Printed(laps) && Chronological(laps)
  }

  /** Each entry of a recorded list is exactly what lap() pushed onto the entries before it. */
  lemma RecordedEntries(laps: seq<LapEntry>)
    requires Recorded(laps)
    ensures forall i :: 0 <= i < |laps| ==> laps[i] == NewEntry(laps[..i], laps[i].cumulativeMs)
  {
    forall i | 0 <= i < |laps|
      ensures laps[i] == NewEntry(laps[..i], laps[i].cumulativeMs)
    {
      assert |laps[..i]| + 1 == laps[i].index;
    }
  }

  lemma NumberNewEntry(laps: seq<LapEntry>, currentMs: int)
    requires Numbered(laps)
    ensures Numbered(laps + [NewEntry(laps, currentMs)])
  {
  }

  lemma PrintNewEntry(laps: seq<LapEntry>, currentMs: int)
    requires Printed(laps)
    ensures Printed(laps + [NewEntry(laps, currentMs)])
  {
    var laps' := laps + [NewEntry(laps, currentMs)];
    forall i | 0 <= i < |laps'|
      ensures laps'[i].time == FormatTime(LapTime(laps'[..i], laps'[i].cumulativeMs))
      ensures laps'[i].cumulative == FormatTime(laps'[i].cumulativeMs)
    {
      PushedPrefix(laps, NewEntry(laps, currentMs), i);
    }
  }

  /** What pushing x leaves at position i and before it. */
  lemma PushedPrefix(laps: seq<LapEntry>, x: LapEntry, i: nat)
    requires i <= |laps|
    ensures (laps + [x])[..i] == laps[..i]
    ensures i < |laps| ==> (laps + [x])[i] == laps[i]
    ensures i == |laps| ==> (laps + [x])[i] == x && laps[..i] == laps
  {
  }

  lemma OrderNewEntry(laps: seq<LapEntry>, currentMs: int)
    requires Chronological(laps)
    requires 0 <= currentMs && PreviousCumulative(laps) <= currentMs
    ensures Chronological(laps + [NewEntry(laps, currentMs)])
  {
    var laps' := laps + [NewEntry(laps, currentMs)];
    forall i, j | 0 <= i <= j < |laps'|
      ensures 0 <= laps'[i].cumulativeMs <= laps'[j].cumulativeMs
    {
      if j == |laps| && i < |laps| {
        assert laps[i].cumulativeMs <= laps[|laps| - 1].cumulativeMs;
      }
    }
  }

  /**
   * Pushing the entry lap() builds keeps the list recorded, provided the
   * total has not gone down since the last lap.
   */
  lemma RecordNewEntry(laps: seq<LapEntry>, currentMs: int)
    requires Recorded(laps)
    requires 0 <= currentMs && PreviousCumulative(laps) <= currentMs
    ensures Recorded(laps + [NewEntry(laps, currentMs)])
  {
    NumberNewEntry(laps, currentMs);
    PrintNewEntry(laps, currentMs);
    OrderNewEntry(laps, currentMs);
  }

  /** After a push, the last total is the one just recorded. */
  lemma LastTotal(laps: seq<LapEntry>, currentMs: int)
    ensures PreviousCumulative(laps + [NewEntry(laps, currentMs)]) == currentMs
  {
  }

  /**
   * In a chronological list no lap time is negative, the first lap time is
   * the first total, and every later one is the difference of two
   * consecutive totals.
   */
  lemma LapTimes(laps: seq<LapEntry>)
    requires Chronological(laps)
    ensures forall i :: 0 <= i < |laps| ==> 0 <= LapTime(laps[..i], laps[i].cumulativeMs)
    ensures |laps| > 0 ==> LapTime(laps[..0], laps[0].cumulativeMs) == laps[0].cumulativeMs
    ensures forall i :: 0 < i < |laps| ==>
      LapTime(laps[..i], laps[i].cumulativeMs) == laps[i].cumulativeMs - laps[i - 1].cumulativeMs
  {
    forall i | 0 < i < |laps|
      ensures LapTime(laps[..i], laps[i].cumulativeMs) == laps[i].cumulativeMs - laps[i - 1].cumulativeMs
    {
      assert laps[..i][i - 1] == laps[i - 1];
    }
  }

  /** The sum of the first n lap times. */
  function SumOfLapTimes(laps: seq<LapEntry>, n: nat): int
    requires n <= |laps|
  {
    if n == 0 then 0 else SumOfLapTimes(laps, n - 1) + LapTime(laps[..n - 1], laps[n - 1].cumulativeMs)
  }

  /** The lap times add up to the total of the last lap: the differences telescope. */
  lemma {:induction false} LapTimesAddUp(laps: seq<LapEntry>, n: nat)
    requires n <= |laps|
    ensures SumOfLapTimes(laps, n) == PreviousCumulative(laps[..n])
  {
    if n > 0 {
      LapTimesAddUp(laps, n - 1);
      assert laps[..n][n - 1] == laps[n - 1];
    }
  }

  /**
   * Every text of a printed, chronological list reads back as the number it
   * was printed from: the lap time as that lap's duration, the total time as
   * its total.
   */
  lemma TextsReadBack(laps: seq<LapEntry>)
    requires Printed(laps) && Chronological(laps)
    ensures forall i :: 0 <= i < |laps| ==>
      ParseTime(laps[i].time) == Some(LapTime(laps[..i], laps[i].cumulativeMs))
      && ParseTime(laps[i].cumulative) == Some(laps[i].cumulativeMs)
  {
    LapTimes(laps);
    forall i | 0 <= i < |laps|
      ensures ParseTime(laps[i].time) == Some(LapTime(laps[..i], laps[i].cumulativeMs))
      ensures ParseTime(laps[i].cumulative) == Some(laps[i].cumulativeMs)
    {
      ParseFormatTime(LapTime(laps[..i], laps[i].cumulativeMs));
      ParseFormatTime(laps[i].cumulativeMs);
    }
  }

  /** No text of a printed list holds a ',' or a newline. */
  lemma TextsFreeOfDelimiters(laps: seq<LapEntry>)
    requires Printed(laps)
    ensures forall i :: 0 <= i < |laps| ==> FreeOfDelimiters(laps[i].time) && FreeOfDelimiters(laps[i].cumulative)
  {
    forall i | 0 <= i < |laps|
      ensures FreeOfDelimiters(laps[i].time) && FreeOfDelimiters(laps[i].cumulative)
    {
      assert laps[i].time == FormatTime(LapTime(laps[..i], laps[i].cumulativeMs));
    }
  }
}
