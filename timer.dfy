/** The countdown chip of client/src/components/quiz/Timer.jsx: the seconds
    left, which a new `timeRemaining` resets and a one-second interval counts
    down to zero, its "h:mm:ss" / "mm:ss" text, and its colour. The interval
    itself becomes a method that performs a given number of ticks. */
module Timer {
  import opened Common
  import opened Text

  /** One interval callback: 0 from 1 or less, otherwise one second less. */
  function Tick(t: int): (r: int)
    ensures t <= 1 ==> r == 0
    ensures t > 1 ==> r == t - 1
  {
    if t <= 1 then 0 else t - 1
  }

  /** An interval runs only while there is time left. */
  predicate Running(t: int) {
    t > 0
  }

  /** The seconds left after `n` seconds of counting from `t`: nothing moves
      when no time is left, otherwise the count stops at zero. */
  function After(t: int, n: nat): (r: int)
    ensures !Running(t) ==> r == t
    ensures Running(t) ==> r == if t > n then t - n else 0
  {
    if !Running(t) || n == 0 then t
    else After(Tick(t), n - 1)
  }

  /** A running countdown never goes negative, strictly decreases each second
      until it reaches zero, and then stays there. */
  lemma TickDecreasesToZero(t: int)
    requires Running(t)
    ensures 0 <= Tick(t) < t
    ensures Tick(t) == 0 ==> !Running(Tick(t)) && After(Tick(t), 1) == 0
  {
  }

  /** The chip's state. */
  class Countdown {
    var timeLeft: int

    /** `useState(timeRemaining)`. */
    constructor(timeRemaining: int)
      ensures timeLeft == timeRemaining
    {
      timeLeft := timeRemaining;
    }

    /** A new `timeRemaining` replaces the seconds left. */
    method Reset(timeRemaining: int)
      modifies this
      ensures timeLeft == timeRemaining
    {
      timeLeft := timeRemaining;
    }

    /** `n` seconds pass: the interval ticks while time is left and is cleared
        at zero; with no time left no interval is started. */
    method Elapse(n: nat)
      modifies this
      ensures timeLeft == After(old(timeLeft), n)
      ensures Running(old(timeLeft)) ==> 0 <= timeLeft <= old(timeLeft)
    {
      var k := 0;
      ghost var start := timeLeft;
      while k < n && Running(timeLeft)
        invariant 0 <= k <= n
        invariant After(start, n) == After(timeLeft, n - k)
        invariant Running(start) ==> 0 <= timeLeft <= start
      {
        timeLeft := Tick(timeLeft);
        k := k + 1;
      }
    }
  }

  /** Dividing `60 * k + r` by 60, for a remainder below 60. */
  lemma DivSixty(k: int, r: int)
    requires 0 <= r < 60
    ensures (60 * k + r) / 60 == k && (60 * k + r) % 60 == r
  {
  }

  /** The hours, minutes and seconds `formatTime` computes. */
  lemma ClockParts(seconds: nat)
    ensures seconds % 3600 / 60 < 60 && seconds % 60 < 60
    ensures seconds / 3600 == 0 <==> seconds < 3600
    ensures seconds == 3600 * (seconds / 3600) + 60 * (seconds % 3600 / 60) + seconds % 60
  {
    var h, rest := seconds / 3600, seconds % 3600;
    assert seconds == 3600 * h + rest && 0 <= rest < 3600;
    var m, r := rest / 60, rest % 60;
    assert rest == 60 * m + r && 0 <= r < 60;
    DivSixty(60 * h + m, r);
    assert seconds == 60 * (60 * h + m) + r;
  }

  /** The clock text for hours, minutes and seconds: "h:mm:ss" when there
      are hours, otherwise "mm:ss", minutes and seconds padded to two digits. */
  function Clock(hours: nat, minutes: nat, secs: nat): (r: string)
    requires minutes < 60 && secs < 60
    ensures hours == 0 <==> |r| == 5
    ensures |r| >= 5
    ensures hours > 0 ==> |r| >= 7 && r[|r| - 6] == ':' && r[..|r| - 6] == NatToString(hours)
    ensures r[|r| - 3] == ':'
    ensures r[|r| - 5..|r| - 3] == TwoDigits(minutes) && r[|r| - 2..] == TwoDigits(secs)
  {
    var m, ss := TwoDigits(minutes), TwoDigits(secs);
    var tail := m + ":" + ss;
    assert tail[..2] == m && tail[2] == ':' && tail[3..] == ss;
    var pre := if hours > 0 then NatToString(hours) + ":" else "";
    assert hours > 0 ==> pre[..|pre| - 1] == NatToString(hours);
    FiveCharTail(pre, tail);
    pre + tail
  }

  /** The slices of a string that ends in five given characters. */
  lemma FiveCharTail(pre: string, tail: string)
    requires |tail| == 5
    ensures var r := pre + tail;
      && r[|r| - 5..|r| - 3] == tail[..2] && r[|r| - 3] == tail[2] && r[|r| - 2..] == tail[3..]
      && (|pre| >= 1 ==> r[|r| - 6] == pre[|pre| - 1] && r[..|r| - 6] == pre[..|pre| - 1])
  {
    var r := pre + tail;
    assert r[|r| - 5..] == tail;
    if |pre| >= 1 {
      assert r[..|r| - 6] == pre[..|pre| - 1];
    }
  }

  /** `formatTime(seconds)`: the clock text of its hours, minutes and seconds;
      five characters exactly below one hour. */
  function FormatTime(seconds: nat): (r: string)
    ensures seconds < 3600 <==> |r| == 5
    ensures seconds >= 3600 ==> |r| >= 7 && r[|r| - 6] == ':'
    ensures |r| >= 5 && r[|r| - 3] == ':'
  {
    ClockParts(seconds);
    Clock(seconds / 3600, seconds % 3600 / 60, seconds % 60)
  }

  /** Reads an "h:mm:ss" or "mm:ss" time back into seconds, from the end:
      two-digit seconds, a colon, two-digit minutes, and then either nothing
      or a colon after a run of hour digits. */
  function ReadTime(s: string): Option<nat> {
    if |s| < 5 || s[|s| - 3] != ':' || !AllDigits(s[|s| - 5..|s| - 3]) || !AllDigits(s[|s| - 2..]) then None
    else
      var low := 60 * DigitsValue(s[|s| - 5..|s| - 3]) + DigitsValue(s[|s| - 2..]);
      if |s| == 5 then Some(low)
      else if |s| >= 7 && s[|s| - 6] == ':' && AllDigits(s[..|s| - 6]) then
        Some(3600 * DigitsValue(s[..|s| - 6]) + low)
      else None
  }

  /** Every formatted time reads back as the seconds it was made from. */
  lemma ReadFormatTime(seconds: nat)
    ensures ReadTime(FormatTime(seconds)) == Some(seconds)
  {
    ClockParts(seconds);
    ReadClock(seconds / 3600, seconds % 3600 / 60, seconds % 60);
  }

  /** A clock text reads back as its hours, minutes and seconds in seconds. */
  lemma ReadClock(hours: nat, minutes: nat, secs: nat)
    requires minutes < 60 && secs < 60
    ensures ReadTime(Clock(hours, minutes, secs)) == Some(3600 * hours + 60 * minutes + secs)
  {
    if hours > 0 {
      DigitsOfNat(hours);
    }
  }

  datatype TimeColor = Error | Warning | Default

  /** `getTimeColor`: error for the last minute, warning for the last five. */
  function GetTimeColor(t: int): (r: TimeColor)
    ensures r == Error <==> t <= 60
    ensures r == Warning <==> 60 < t <= 300
    ensures r == Default <==> t > 300
  {
    if t <= 60 then Error else if t <= 300 then Warning else Default
  }

  function Urgency(c: TimeColor): nat {
    match c
    case Default => 0
    case Warning => 1
    case Error => 2
  }

  /** As the countdown runs, the colour only becomes more urgent. */
  lemma ColorOnlyEscalates(t: int, n: nat)
    requires Running(t)
    ensures Urgency(GetTimeColor(t)) <= Urgency(GetTimeColor(After(t, n)))
  {
  }
}
