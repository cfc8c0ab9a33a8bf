/** The nonogram game timer: a running/paused state machine over an injected millisecond clock,
    and the HH:MM:SS text it displays on every tick. */
module Timer {
  import opened Opt
  import opened Strings
  import opened KotlinInt

  const MillisPerSecond: int := 1000

  /** `String.format("%02d", v)`: zero-padded to two characters; a negative value keeps its sign. */
  function Pad2(v: int): (s: string)
    ensures 0 <= v ==> AllDigits(s) && DigitsValue(s) == v
    ensures 0 <= v ==> |s| >= 2 && (|s| > 2 ==> s[0] != '0')
    ensures 0 <= v < 100 ==> |s| == 2
  {
    if 0 <= v < 10 then
      NatToStringValue(v);
      assert "0" + NatToString(v) == ['0', DigitChar(v)];
      "0" + NatToString(v)
    else if v >= 10 then
      NatToStringValue(v);
      NatToString(v)
    else IntToString(v)
  }

  /** The components the tick shows for an elapsed time: hours, minutes mod 60 and seconds mod 60,
      from a seconds count truncated to a 32-bit Int. */
  function Components(elapsedMillis: int): (hms: (int, int, int))
  {
    var seconds := ToInt32(Quot(elapsedMillis, MillisPerSecond));
    var minutes := Quot(seconds, 60);
    var hours := Quot(minutes, 60);
    (hours, Rem(minutes, 60), Rem(seconds, 60))
  }

  /** The text a tick displays for an elapsed time. */
  function ElapsedText(elapsedMillis: int): string
  {
    var (h, m, s) := Components(elapsedMillis);
    Pad2(h) + ":" + Pad2(m) + ":" + Pad2(s)
  }

  /** For any elapsed time below about 68 years, the components are whole hours, minutes in 0..59 and
      seconds in 0..59 that add up to the elapsed whole seconds. */
  lemma ComponentsDecompose(elapsedMillis: int)
    requires 0 <= elapsedMillis < MillisPerSecond * (IntMax + 1)
    ensures var (h, m, s) := Components(elapsedMillis);
      0 <= h && 0 <= m < 60 && 0 <= s < 60 && h * 3600 + m * 60 + s == elapsedMillis / MillisPerSecond
  {
    var seconds := elapsedMillis / MillisPerSecond;
    assert seconds <= IntMax;
    assert ToInt32(seconds) == seconds;
  }

  /** The elapsed whole seconds a displayed HH:MM:SS text stands for, when every field is a number. */
  function ReadElapsedText(text: string): Option<int>
  {
    var fields := Split(text, ':');
    if |fields| != 3 then None
    else
      match (ParseInt(fields[0]), ParseInt(fields[1]), ParseInt(fields[2]))
      case (Some(h), Some(m), Some(s)) => Some(h * 3600 + m * 60 + s)
      case _ => None
  }

  lemma ParsePad2(v: int)
    requires 0 <= v <= IntMax
    ensures ParseInt(Pad2(v)) == Some(v)
  {
    var s := Pad2(v);
    assert s[0] != '-' && s[0] != '+' by {
      assert IsDigit(s[0]);
    }
  }

  lemma SplitFields(h: int, m: int, s: int)
    requires 0 <= h && 0 <= m && 0 <= s
    ensures Split(Pad2(h) + ":" + Pad2(m) + ":" + Pad2(s), ':') == [Pad2(h), Pad2(m), Pad2(s)]
  {
    var parts := [Pad2(h), Pad2(m), Pad2(s)];
    forall i | 0 <= i < 3
      ensures ':' !in parts[i]
    {
      assert AllDigits(parts[i]);
    }
    assert parts[1..][1..] == [Pad2(s)];
    assert Join(parts[1..], ":") == Pad2(m) + ":" + Pad2(s);
    assert Join(parts, ":") == Pad2(h) + ":" + Pad2(m) + ":" + Pad2(s);
    SplitJoin(parts, ':');
  }

  lemma ReadFields(h: int, m: int, s: int)
    requires 0 <= h <= IntMax && 0 <= m <= IntMax && 0 <= s <= IntMax
    ensures ReadElapsedText(Pad2(h) + ":" + Pad2(m) + ":" + Pad2(s)) == Some(h * 3600 + m * 60 + s)
  {
    SplitFields(h, m, s);
    ParsePad2(h);
    ParsePad2(m);
    ParsePad2(s);
  }

  /** Reading back the displayed text gives the elapsed whole seconds. */
  lemma ElapsedTextRoundTrip(elapsedMillis: int)
    requires 0 <= elapsedMillis < MillisPerSecond * (IntMax + 1)
    ensures ReadElapsedText(ElapsedText(elapsedMillis)) == Some(elapsedMillis / MillisPerSecond)
  {
    ComponentsDecompose(elapsedMillis);
    var (h, m, s) := Components(elapsedMillis);
    assert h <= IntMax;
    ReadFields(h, m, s);
  }

  class GameTimer {
    var startTime: int
    var pausedTime: int
    var totalElapsed: int
    var isRunning: bool

    /** A stopped timer with nothing accumulated. */
    constructor ()
      ensures startTime == 0 && pausedTime == 0 && totalElapsed == 0 && !isRunning
    {
      startTime := 0;
      pausedTime := 0;
      totalElapsed := 0;
      isRunning := false;
    }

    /** Milliseconds of play at clock reading `now`: the accumulated time plus the current stretch. */
    function Elapsed(now: int): int
      reads this
    {
      totalElapsed + (now - startTime)
    }

    /** What a tick shows at clock reading `now`; a tick of a timer that is not running shows nothing. */
    function Display(now: int): (text: Option<string>)
      reads this
      ensures text.Some? <==> isRunning
      ensures isRunning && 0 <= Elapsed(now) < MillisPerSecond * (IntMax + 1) ==>
                ReadElapsedText(text.value) == Some(Elapsed(now) / MillisPerSecond)
    {
      if !isRunning then None
      else
        if 0 <= Elapsed(now) < MillisPerSecond * (IntMax + 1) then
          ElapsedTextRoundTrip(Elapsed(now));
          Some(ElapsedText(Elapsed(now)))
        else Some(ElapsedText(Elapsed(now)))
    }

    /** Starts a new stretch at `now`; a running timer is left alone. */
    method Start(now: int)
      modifies this
      ensures old(isRunning) ==> unchanged(this)
      ensures !old(isRunning) ==>
        isRunning && startTime == now && totalElapsed == old(totalElapsed) && pausedTime == old(pausedTime)
    {
      if isRunning {
        return;
      }
      isRunning := true;
      startTime := now;
    }

    /** Ends the current stretch at `now`, adding it to the accumulated time; a stopped timer is left alone. */
    method Pause(now: int)
      modifies this
      ensures !old(isRunning) ==> unchanged(this)
      ensures old(isRunning) ==>
        !isRunning && pausedTime == now && startTime == old(startTime) &&
        totalElapsed == old(totalElapsed) + (now - old(startTime))
      ensures old(isRunning) ==> totalElapsed == old(Elapsed(now))
      ensures now >= old(startTime) ==> totalElapsed >= old(totalElapsed)
    {
      if !isRunning {
        return;
      }
      isRunning := false;
      pausedTime := now;
      totalElapsed := totalElapsed + (pausedTime - startTime);
    }

    /** Starts the timer again when it is not running. */
    method Resume(now: int)
      modifies this
      ensures old(isRunning) ==> unchanged(this)
      ensures !old(isRunning) ==>
        isRunning && startTime == now && totalElapsed == old(totalElapsed) && pausedTime == old(pausedTime)
    {
      if isRunning {
        return;
      }
      Start(now);
    }

    /** Stops the timer and forgets the accumulated time. */
    method Stop()
      modifies this
      ensures !isRunning && totalElapsed == 0 && pausedTime == 0 && startTime == old(startTime)
    {
      isRunning := false;
      totalElapsed := 0;
      pausedTime := 0;
    }

    /** Stops the timer and starts a fresh stretch at `now`. */
    method Restart(now: int)
      modifies this
      ensures isRunning && totalElapsed == 0 && pausedTime == 0 && startTime == now
      ensures Elapsed(now) == 0
    {
      Stop();
      Start(now);
    }
  }

  /** Pausing and resuming keeps the displayed time continuous: right after resuming at `now`, the
      elapsed time equals what it was when the timer paused. */
  method PauseResumeContinuity(t: GameTimer, pausedAt: int, resumedAt: int)
    requires t.isRunning
    modifies t
    ensures t.isRunning && t.Elapsed(resumedAt) == old(t.Elapsed(pausedAt))
  {
    t.Pause(pausedAt);
    t.Resume(resumedAt);
  }
}
