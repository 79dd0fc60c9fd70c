/**
 * The countdown hook (hooks/useTimer.ts) as discrete one-second ticks.
 * The interval, its clearing and React's effect scheduling are not
 * modelled: one call of `Tick` is one firing of the one-second interval.
 */
module Countdown {
  import opened Types
  import opened Text

  /** What one tick does: the new `secondsLeft` and whether `onTimeUp` was called. */
  datatype TickResult = TickResult(left: nat, timeUp: bool)

  /**
   * One second of the hook. While paused, or once `secondsLeft` is 0, no
   * interval runs; otherwise the updater counts down and, on reaching the
   * last second, calls `onTimeUp` and stops at 0.
   */
  function TickStep(left: nat, paused: bool): (r: TickResult)
    ensures r.left <= left
    ensures r.timeUp <==> !paused && left == 1
    ensures r.timeUp ==> r.left == 0
    ensures paused ==> r.left == left
    ensures !paused && left > 0 ==> r.left == left - 1
  {
    if paused || left <= 0 then TickResult(left, false)
    else if left <= 1 then TickResult(0, true)
    else TickResult(left - 1, false)
  }

  /** The number of ticks in `pauses` during which the timer was running. */
  function Unpaused(pauses: seq<bool>): nat
  {
    if pauses == [] then 0 else (if pauses[0] then 0 else 1) + Unpaused(pauses[1..])
  }

  /**
   * Ticks one after another, `pauses[k]` being the paused flag at the k-th
   * second: the remaining seconds and how often `onTimeUp` was called.
   */
  function Run(left: nat, pauses: seq<bool>): (nat, nat)
  {
    if pauses == [] then (left, 0)
    else
      var t := TickStep(left, pauses[0]);
      var rest := Run(t.left, pauses[1..]);
      (rest.0, rest.1 + if t.timeUp then 1 else 0)
  }

  /**
   * The closed form of any run: paused seconds do not count, the time left
   * is the duration minus the running seconds (never below 0), and
   * `onTimeUp` is called once exactly when a positive duration runs out.
   */
  lemma {:induction false} RunSpec(left: nat, pauses: seq<bool>)
    ensures Run(left, pauses).0 == if Unpaused(pauses) >= left then 0 else left - Unpaused(pauses)
    ensures Run(left, pauses).1 == if left >= 1 && Unpaused(pauses) >= left then 1 else 0
    decreases |pauses|
  {
    if pauses != [] {
      RunSpec(TickStep(left, pauses[0]).left, pauses[1..]);
    }
  }

  /** `onTimeUp` is never called twice, and the time left never grows. */
  lemma RunFiresAtMostOnce(left: nat, pauses: seq<bool>)
    ensures Run(left, pauses).1 <= 1
    ensures Run(left, pauses).0 <= left
    ensures Run(left, pauses).1 == 1 <==> left >= 1 && Run(left, pauses).0 == 0
  {
    RunSpec(left, pauses);
  }

  /** A timer started at 0 never calls `onTimeUp`. */
  lemma RunFromZeroNeverFires(pauses: seq<bool>)
    ensures Run(0, pauses) == (0, 0)
  {
    RunSpec(0, pauses);
  }

  /** `k` seconds without a pause. */
  function Running(k: nat): (ps: seq<bool>)
    ensures |ps| == k
  {
    seq(k, _ => false)
  }

  lemma {:induction false} UnpausedRunning(k: nat)
    ensures Unpaused(Running(k)) == k
  {
    if k > 0 {
      assert Running(k)[1..] == Running(k - 1);
      UnpausedRunning(k - 1);
    }
  }

  /** From a positive duration, at least that many running seconds end at 0 with one call. */
  lemma ExpiresOnce(duration: nat, k: nat)
    requires 1 <= duration <= k
    ensures Run(duration, Running(k)) == (0, 1)
  {
    UnpausedRunning(k);
    RunSpec(duration, Running(k));
  }

  /**
   * The hook's state: the duration last seen by the reset effect, the
   * seconds left, and how many times `onTimeUp` has been called.
   */
  class Timer {
    var duration: nat
    var secondsLeft: nat
    var timeUpCalls: nat

    ghost predicate Valid()
      reads this
    {
      secondsLeft <= duration
    }

    /** `useState(durationInSeconds)`. */
    constructor (durationInSeconds: nat)
      ensures Valid()
      ensures duration == durationInSeconds && secondsLeft == durationInSeconds && timeUpCalls == 0
    {
      duration := durationInSeconds;
      secondsLeft := durationInSeconds;
      timeUpCalls := 0;
    }

    /** One firing of the one-second interval under the current `paused` flag. */
    method Tick(paused: bool) returns (timeUp: bool)
      requires Valid()
      modifies this
      ensures Valid()
      ensures duration == old(duration)
      ensures secondsLeft == TickStep(old(secondsLeft), paused).left
      ensures timeUp == TickStep(old(secondsLeft), paused).timeUp
      ensures timeUpCalls == old(timeUpCalls) + if timeUp then 1 else 0
    {
      timeUp := false;
      if paused || secondsLeft <= 0 {
        return;
      }
      if secondsLeft <= 1 {
        secondsLeft := 0;
        timeUp := true;
        timeUpCalls := timeUpCalls + 1;
      } else {
        secondsLeft := secondsLeft - 1;
      }
    }

    /** The reset effect: a changed duration restarts the count from it. */
    method SetDuration(durationInSeconds: nat)
      requires Valid()
      modifies this
      ensures Valid()
      ensures duration == durationInSeconds
      ensures secondsLeft == if durationInSeconds != old(duration) then durationInSeconds else old(secondsLeft)
      ensures timeUpCalls == old(timeUpCalls)
    {
      if durationInSeconds != duration {
        duration := durationInSeconds;
        secondsLeft := durationInSeconds;
      }
    }

    /** `formattedTime`. */
    function FormattedTime(): (r: string)
      reads this
      ensures ParseTime(r) == Some(secondsLeft)
    {
      FormatTimeRoundTrip(secondsLeft);
      FormatTime(secondsLeft)
    }
  }

  /** `formatTime`: whole minutes, a colon, then the seconds, each padded to two digits. */
  function FormatTime(totalSeconds: nat): (r: string)
    ensures |r| >= 5 && r[|r| - 3] == ':'
  {
    NatToStringShort(totalSeconds % 60);
    PadStart2(NatToString(totalSeconds / 60)) + ":" + PadStart2(NatToString(totalSeconds % 60))
  }

  /** Reads `MM:SS` (with at least two minute digits) back into seconds. */
  function ParseTime(t: string): Option<nat>
  {
    if |t| >= 5 && t[|t| - 3] == ':' && AllDigits(t[..|t| - 3]) && AllDigits(t[|t| - 2..]) then
      Some(Value(t[..|t| - 3]) * 60 + Value(t[|t| - 2..]))
    else None
  }

  /** A string whose parts around the colon are the digit strings `m` and `sec` reads as `m` minutes and `sec` seconds. */
  lemma ParseParts(t: string, m: string, sec: string)
    requires AllDigits(m) && |m| >= 2 && AllDigits(sec) && |sec| == 2
    requires |t| >= 5 && t[|t| - 3] == ':' && t[..|t| - 3] == m && t[|t| - 2..] == sec
    ensures ParseTime(t) == Some(Value(m) * 60 + Value(sec))
  {
  }

  /** Two digit strings joined by a colon read back as minutes and seconds. */
  lemma ParseJoined(m: string, sec: string)
    requires AllDigits(m) && |m| >= 2 && AllDigits(sec) && |sec| == 2
    ensures ParseTime(m + ":" + sec) == Some(Value(m) * 60 + Value(sec))
  {
    var t := m + ":" + sec;
    assert t[..|t| - 3] == m;
    assert t[|t| - 2..] == sec;
    ParseParts(t, m, sec);
  }

  /** The formatted time always reads back as the seconds it was made from. */
  lemma FormatTimeRoundTrip(totalSeconds: nat)
    ensures ParseTime(FormatTime(totalSeconds)) == Some(totalSeconds)
  {
    var minutes, seconds := totalSeconds / 60, totalSeconds % 60;
    var m := PadStart2(NatToString(minutes));
    var sec := PadStart2(NatToString(seconds));
    NatToStringShort(seconds);
    PadStart2Value(NatToString(minutes));
    PadStart2Value(NatToString(seconds));
    ValueOfNatToString(minutes);
    ValueOfNatToString(seconds);
    ParseJoined(m, sec);
    assert minutes * 60 + seconds == totalSeconds;
  }

  /** Below 100 minutes the formatted time is exactly five characters. */
  lemma FormatTimeLength(totalSeconds: nat)
    requires totalSeconds < 6000
    ensures |FormatTime(totalSeconds)| == 5
  {
    NatToStringShort(totalSeconds / 60);
    NatToStringShort(totalSeconds % 60);
  }
}
