/**
 * The stopwatch itself: the four state variables of the page script and
 * the handlers that update them. performance.now() is not called here;
 * every handler that reads the clock takes its reading as `now`.
 */
module Timer {
  import opened Opt
  import opened TimeFormat
  import opened Laps
  import opened LapCsv

  /** The time on the stopwatch at clock reading now: the paused total plus the running stretch. */
  function Elapsed(running: bool, startTime: int, elapsedBefore: int, now: int): (r: int)
    ensures !running ==> r == elapsedBefore
    ensures running && startTime <= now ==> elapsedBefore <= r
    ensures 0 <= elapsedBefore && (running ==> startTime <= now) ==> 0 <= r
  {
    elapsedBefore + (if running then now - startTime else 0)
  }

  /**
   * The state the handlers keep: time accumulated while paused is never
   * negative, a running stopwatch started no later than the latest clock
   * reading, the lap list is one lap() built, and no lap's total lies
   * ahead of the time the stopwatch shows.
   */
  ghost predicate Consistent(running: bool, startTime: int, elapsedBefore: int, laps: seq<LapEntry>, clock: int) {
    0 <= elapsedBefore
    && (running ==> startTime <= clock)
    && Recorded(laps)
    && PreviousCumulative(laps) <= Elapsed(running, startTime, elapsedBefore, clock)
  }

  /** Pushing the entry lap() builds at a later reading keeps the state consistent. */
  lemma LapKeepsConsistent(running: bool, startTime: int, elapsedBefore: int, laps: seq<LapEntry>, clock: int, now: int,
                           laps': seq<LapEntry>)
    requires Consistent(running, startTime, elapsedBefore, laps, clock) && clock <= now
    requires laps' == laps + [NewEntry(laps, Elapsed(running, startTime, elapsedBefore, now))]
    ensures Consistent(running, startTime, elapsedBefore, laps', now)
  {
    RecordNewEntry(laps, Elapsed(running, startTime, elapsedBefore, now));
    LastTotal(laps, Elapsed(running, startTime, elapsedBefore, now));
  }

  /**
   * In a consistent state the time read at a later clock reading is never
   * smaller, never negative, and never behind the total of the last lap.
   */
  lemma ElapsedNeverDecreases(running: bool, startTime: int, elapsedBefore: int, laps: seq<LapEntry>, clock: int,
                              t1: int, t2: int)
    requires Consistent(running, startTime, elapsedBefore, laps, clock) && clock <= t1 <= t2
    ensures 0 <= Elapsed(running, startTime, elapsedBefore, t1) <= Elapsed(running, startTime, elapsedBefore, t2)
    ensures PreviousCumulative(laps) <= Elapsed(running, startTime, elapsedBefore, t1)
  {
  }

  class Stopwatch {
    var running: bool
    var startTime: int
    var elapsedBefore: int
    var laps: seq<LapEntry>
    /** The latest clock reading a handler has been given. */
    ghost var clock: int

    /** The state the handlers keep; see Consistent. */
    ghost predicate Valid()
      reads this
    {
      Consistent(running, startTime, elapsedBefore, laps, clock)
    }

    /**
     * The time lap() reads at clock reading now: in a valid state, at any
     * later reading, never negative and never behind the last lap's total.
     */
    function ElapsedAt(now: int): (r: int)
      reads this
      ensures Valid() && clock <= now ==> 0 <= r && PreviousCumulative(laps) <= r
    {
      Elapsed(running, startTime, elapsedBefore, now)
    }

    /** The page's initial state, with the clock reading `now` at load time. */
    constructor(now: int)
      ensures Valid()
      ensures !running && startTime == 0 && elapsedBefore == 0 && laps == []
      ensures clock == now
    {
      running := false;
      startTime := 0;
      elapsedBefore := 0;
      laps := [];
      clock := now;
    }

    /** start(): nothing while running; otherwise run from the reading now. */
    method Start(now: int)
      requires Valid() && clock <= now
      modifies this
      ensures Valid() && clock == now
      ensures old(running) ==> running == old(running) && startTime == old(startTime)
      ensures !old(running) ==> running && startTime == now
      ensures elapsedBefore == old(elapsedBefore) && laps == old(laps)
      ensures ElapsedAt(now) == old(ElapsedAt(now))
    {
      clock := now;
      if running {
        return;
      }
      running := true;
      startTime := now;
    }

    /** pause(): nothing while paused; otherwise bank the running stretch and stop. */
    method Pause(now: int)
      requires Valid() && clock <= now
      modifies this
      ensures Valid() && clock == now
      ensures !running && startTime == old(startTime) && laps == old(laps)
      ensures old(running) ==> elapsedBefore == old(elapsedBefore) + (now - old(startTime))
      ensures !old(running) ==> elapsedBefore == old(elapsedBefore)
      ensures old(elapsedBefore) <= elapsedBefore
      ensures ElapsedAt(now) == old(ElapsedAt(now))
    {
      clock := now;
      if !running {
        return;
      }
      running := false;
      elapsedBefore := elapsedBefore + (now - startTime);
    }

    /** The start/pause button and the Space key: pause() while running, start() otherwise. */
    method Toggle(now: int)
      requires Valid() && clock <= now
      modifies this
      ensures Valid() && clock == now
      ensures running == !old(running)
      ensures old(running) ==> elapsedBefore == old(elapsedBefore) + (now - old(startTime)) && startTime == old(startTime)
      ensures !old(running) ==> elapsedBefore == old(elapsedBefore) && startTime == now
      ensures laps == old(laps)
      ensures ElapsedAt(now) == old(ElapsedAt(now))
    {
      if running {
        Pause(now);
      } else {
        Start(now);
      }
    }

    /** reset(): pause, then zero every piece of state and drop the laps. */
    method Reset(now: int)
      requires Valid() && clock <= now
      modifies this
      ensures Valid() && clock == now
      ensures !running && startTime == 0 && elapsedBefore == 0 && laps == []
      ensures ElapsedAt(now) == 0
    {
      Pause(now);
      running := false;
      startTime := 0;
      elapsedBefore := 0;
      laps := [];
    }

    /**
     * lap(): push the entry for the time read now, whether running or
     * paused; nothing else changes.
     */
    method Lap(now: int)
      requires Valid() && clock <= now
      modifies this
      ensures Valid() && clock == now
      ensures laps == old(laps) + [NewEntry(old(laps), old(ElapsedAt(now)))]
      ensures running == old(running) && startTime == old(startTime) && elapsedBefore == old(elapsedBefore)
    {
      laps := laps + [NewEntry(laps, ElapsedAt(now))];
      clock := now;
      LapKeepsConsistent(running, startTime, elapsedBefore, old(laps), old(clock), now, laps);
    }

    /** The clear-laps button: drop the laps and keep the timing state. */
    method ClearLaps()
      requires Valid()
      modifies this
      ensures Valid()
      ensures laps == []
      ensures running == old(running) && startTime == old(startTime) && elapsedBefore == old(elapsedBefore)
      ensures clock == old(clock)
    {
      laps := [];
    }

    /** The text exportCSV() puts in the download, or None where it alerts instead. */
    method ExportCsv() returns (csv: Option<string>)
      ensures csv == ExportText(laps)
      ensures csv.None? <==> laps == []
    {
      csv := ExportText(laps);
    }
  }

  /**
   * Start at 0 ms, lap at 500 ms and at 800 ms, then export: the CSV lists
   * the two laps with their own times and their running totals.
   */
  method LapScenario() returns (csv: Option<string>)
    ensures csv == Some("Lap,LapTime,CumulativeTime" + "\n" + "1,00:00.500,00:00.500" + "\n" + "2,00:00.300,00:00.800")
  {
    var watch := new Stopwatch(0);
    watch.Start(0);
    assert watch.ElapsedAt(500) == 500;
    watch.Lap(500);
    FirstLap();
    assert watch.laps == [LapEntry(1, "00:00.500", "00:00.500", 500)];
    assert watch.ElapsedAt(800) == 800;
    watch.Lap(800);
    SecondLap();
    ExportExample();
    csv := watch.ExportCsv();
  }

  /** The entry lap() pushes at 500 ms onto no laps. */
  lemma FirstLap()
    ensures NewEntry([], 500) == LapEntry(1, "00:00.500", "00:00.500", 500)
  {
    assert LapTime([], 500) == 500;
    PrintedAs(500, "00:00.500");
  }

  /** The entry lap() pushes at 800 ms after a lap at 500 ms, appended to that lap. */
  lemma SecondLap()
    ensures [LapEntry(1, "00:00.500", "00:00.500", 500)] + [NewEntry([LapEntry(1, "00:00.500", "00:00.500", 500)], 800)]
      == [LapEntry(1, "00:00.500", "00:00.500", 500), LapEntry(2, "00:00.300", "00:00.800", 800)]
  {
    SecondEntry();
  }

  lemma SecondEntry()
    ensures NewEntry([LapEntry(1, "00:00.500", "00:00.500", 500)], 800) == LapEntry(2, "00:00.300", "00:00.800", 800)
  {
    assert LapTime([LapEntry(1, "00:00.500", "00:00.500", 500)], 800) == 300;
    PrintedAs(300, "00:00.300");
    PrintedAs(800, "00:00.800");
  }

  /** A sub-second time whose digits are known. */
  lemma PrintedAs(ms: int, text: string)
    requires 100 <= ms < 1000
    requires text == "00:00." + [DigitChar(ms / 100), DigitChar(ms / 10 % 10), DigitChar(ms % 10)]
    ensures FormatTime(ms) == text
  {
    FormatTimeSubSecond(ms);
    ThreeDigits(ms);
  }
}
