/** ChessTimer: a player's clock, counted down in whole seconds while it is
    active, and credited with an increment after each of the player's moves. */
module Timers {
  import opened Wrappers
  import opened JavaText

  /** Java's `long` division truncates toward zero: the quotient and the
      remainder a - q * b both take the sign of a, and the remainder is
      smaller than b in size. */
  function TruncDiv(a: int, b: int): (q: int)
    requires b > 0
    ensures a >= 0 ==> 0 <= a - q * b < b
    ensures a < 0 ==> -b < a - q * b <= 0
    ensures a >= 0 ==> q >= 0
    ensures a <= 0 ==> q <= 0
  {
    if a >= 0 then a / b else -((-a) / b)
  }

  /** String.format("%02d", n): at least two characters, a single digit
      getting a leading zero; a negative number keeps its sign in front. */
  function Pad2(n: int): string {
    if 0 <= n < 10 then "0" + IntToString(n) else IntToString(n)
  }

  /** getFormattedTime for a remaining time of t seconds: TimeUnit's
      conversion to minutes truncates, and the seconds are what is left. */
  function FormattedTime(t: int): string {
    var minutes := TruncDiv(t, 60);
    var seconds := t - minutes * 60;
    Pad2(minutes) + ":" + Pad2(seconds)
  }

  /** A zero-padded number of two digits or more reads back as the number. */
  lemma Pad2ReadsBack(n: int32)
    requires n >= 0
    ensures |Pad2(n as int)| >= 2 && AllDigits(Pad2(n as int))
    ensures ParseInt(Pad2(n as int)) == Some(n)
  {
    ParseIntToString(n);
    if n < 10 {
      var s := Pad2(n as int);
      assert s == ['0', DigitChar(n as int)];
      assert s[..1] == "0" && s[..1][..0] == "";
      assert Digits(s[..1]) == Some(0);
      assert Digits(s) == Some(n as int);
    }
  }

  /** A number below 100 pads to exactly two characters. */
  lemma Pad2Width(n: int32)
    requires 0 <= n < 100
    ensures |Pad2(n as int)| == 2
  {
    if n >= 10 {
      assert NatToString(n as int) == NatToString(n as int / 10) + [DigitChar(n as int % 10)];
    }
  }

  /** For a time of zero or more, getFormattedTime is MM:SS: the minutes,
      then a colon, then exactly two digits of seconds below 60, and the two
      numbers read back give the time. */
  lemma FormattedTimeReadsBack(t: int32)
    requires t >= 0
    ensures var s := FormattedTime(t as int);
      |s| >= 5 && s[|s| - 3] == ':' &&
      ParseInt(s[..|s| - 3]) == Some((t / 60) as int32) &&
      ParseInt(s[|s| - 2..]) == Some((t % 60) as int32) &&
      (t / 60) as int * 60 + (t % 60) as int == t as int
  {
    var m, sec := (t / 60) as int32, (t % 60) as int32;
    assert FormattedTime(t as int) == Pad2(m as int) + ":" + Pad2(sec as int) by {
      assert TruncDiv(t as int, 60) == m as int;
      assert t as int - m as int * 60 == sec as int;
    }
    Pad2ReadsBack(m);
    Pad2ReadsBack(sec);
    Pad2Width(sec);
    SplitAtColon(Pad2(m as int), Pad2(sec as int));
  }

  /** Cutting a "left:right" text with a two-character right part. */
  lemma SplitAtColon(l: string, r: string)
    requires |l| >= 2 && |r| == 2
    ensures var s := l + ":" + r;
      |s| >= 5 && s[|s| - 3] == ':' && s[..|s| - 3] == l && s[|s| - 2..] == r
  {
    var s := l + ":" + r;
    assert s[..|s| - 3] == l;
    assert s[|s| - 2..] == r;
  }

  /** A negative time, which a negative increment or start time or an
      increment that overflows the `int` produces, prints with minus signs:
      truncation gives minutes 0 and seconds -5 for -5. */
  lemma NegativeTimeFormat()
    ensures FormattedTime(-5) == "00:-5"
    ensures FormattedTime(-65) == "-1:-5"
  {
    assert IntToString(0) == "0";
    assert IntToString(-5) == "-5";
    assert IntToString(-1) == "-1";
  }

  class ChessTimer {
    var remainingTime: int32
    var isActive: bool
    var increment: int32

    /** A new timer is inactive, with the given time and increment. */
    constructor (startTime: int32, increment: int32)
      ensures remainingTime == startTime && !isActive && this.increment == increment
    {
      remainingTime := startTime;
      isActive := false;
      this.increment := increment;
    }

    function GetFormattedTime(): (s: string)
      reads this
    {
      FormattedTime(remainingTime as int)
    }

    /** One tick: a second off an active timer that has time left, nothing
      otherwise, so a timer never ticks below zero. */
    method DecrementTime()
      modifies `remainingTime
      ensures old(isActive && remainingTime > 0) ==> remainingTime as int == old(remainingTime) as int - 1
      ensures !old(isActive && remainingTime > 0) ==> remainingTime == old(remainingTime)
      ensures old(remainingTime) >= 0 ==> remainingTime >= 0
    {
      if isActive && remainingTime > 0 {
        remainingTime := remainingTime - 1;
      }
    }

    method Activate()
      modifies `isActive
      ensures isActive
    {
      isActive := true;
    }

    method Deactivate()
      modifies `isActive
      ensures !isActive
    {
      isActive := false;
    }

    /** The increment is added whether or not the timer is active, in `int`
        arithmetic. */
    method AddIncrement()
      modifies `remainingTime
      ensures remainingTime == Wrap32(old(remainingTime) as int + increment as int)
      ensures -0x8000_0000 <= old(remainingTime) as int + increment as int < 0x8000_0000 ==>
        remainingTime as int == old(remainingTime) as int + increment as int
    {
      remainingTime := Wrap32(remainingTime as int + increment as int);
    }

    /** Only the increment changes, which later AddIncrement calls add. */
    method SetIncrement(increment: int32)
      modifies `increment
      ensures this.increment == increment
    {
      this.increment := increment;
    }
  }
}
