/**
 * The `MM:SS` clock face of the timer page (`formatTime`), written with the
 * JavaScript semantics it relies on: `Math.floor` for the minutes,
 * the truncating `%` for the seconds, `Number.prototype.toString` and
 * `String.prototype.padStart`. `ParseClock` is an independent reader of the
 * text, and `FormatTimeRoundTrip` shows that no count of seconds is lost.
 */
module Clock {
  import opened Optional

  predicate IsDigit(c: char) {
    '0' <= c <= '9'
  }

  function DigitValue(c: char): (d: nat)
    requires IsDigit(c)
    ensures d < 10
  {
    c as int - '0' as int
  }

  function DigitChar(d: nat): (c: char)
    requires d < 10
    ensures IsDigit(c) && DigitValue(c) == d
  {
    ('0' as int + d) as char
  }

  /** Decimal digits of a natural number, without leading zeros. */
  function NatToString(n: nat): (r: string)
    ensures |r| >= 1 && IsDigit(r[0])
    ensures r[0] == '0' ==> n == 0
    ensures n < 10 <==> |r| == 1
    ensures 10 <= n < 100 <==> |r| == 2
  {
    if n < 10 then [DigitChar(n)] else NatToString(n / 10) + [DigitChar(n % 10)]
  }

  /** `n.toString()` for an integral number: a minus sign, then the digits of |n|. */
  function IntToString(n: int): (r: string)
    ensures |r| >= 1
    ensures r[0] == '-' <==> n < 0
  {
    if n < 0 then "-" + NatToString(-n) else NatToString(n)
  }

  function Repeat(c: char, n: nat): (r: string)
    ensures |r| == n
    ensures forall i :: 0 <= i < n ==> r[i] == c
  {
    if n == 0 then [] else [c] + Repeat(c, n - 1)
  }

  /** `s.padStart(width, fill)`: fill on the left up to `width` characters; never truncates. */
  function PadStart(s: string, width: nat, fill: char): (r: string)
    ensures |r| == if |s| < width then width else |s|
    ensures r[|r| - |s|..] == s
    ensures forall i :: 0 <= i < |r| - |s| ==> r[i] == fill
  {
    if |s| < width then Repeat(fill, width - |s|) + s else s
  }

  /** `Math.floor(seconds / 60)`: the whole minutes, rounded down. */
  function MinutesPart(seconds: int): (m: int)
    ensures m * 60 <= seconds < m * 60 + 60
  {
    seconds / 60
  }

  /**
   * `seconds % 60` in JavaScript: the remainder takes the sign of the dividend,
   * so it is what is left after whole minutes rounded toward zero.
   */
  function SecondsPart(seconds: int): (r: int)
    ensures seconds >= 0 ==> 0 <= r < 60 && r == seconds - MinutesPart(seconds) * 60
    ensures seconds < 0 ==> -60 < r <= 0 && r == seconds + MinutesPart(-seconds) * 60
  {
    if seconds >= 0 then seconds % 60 else -((-seconds) % 60)
  }

  /** The page's `formatTime`: both fields padded to two characters, joined by a colon. */
  function FormatTime(seconds: int): string {
    PadStart(IntToString(MinutesPart(seconds)), 2, '0') + ":" +
    PadStart(IntToString(SecondsPart(seconds)), 2, '0')
  }

  /** The value of a string of decimal digits (the empty string reads as 0); `None` if another character occurs. */
  function ParseDigits(s: string): Option<nat> {
    if s == [] then Some(0)
    else if !IsDigit(s[|s| - 1]) then None
    else match ParseDigits(s[..|s| - 1])
      case None => None
      case Some(v) => Some(v * 10 + DigitValue(s[|s| - 1]))
  }

  /**
   * Reads a clock text back as a count of seconds: one or more minute digits,
   * a colon, and exactly two second digits below 60. Anything else is `None`.
   */
  function ParseClock(t: string): Option<nat> {
    if |t| < 4 || t[|t| - 3] != ':' then None
    else match (ParseDigits(t[..|t| - 3]), ParseDigits(t[|t| - 2..]))
      case (Some(m), Some(c)) => if c < 60 then Some(m * 60 + c) else None
      case _ => None
  }

  lemma {:induction false} ParseNatToString(n: nat)
    ensures ParseDigits(NatToString(n)) == Some(n)
  {
    if n >= 10 {
      var s := NatToString(n);
      assert s[..|s| - 1] == NatToString(n / 10);
      ParseNatToString(n / 10);
    } else {
      assert NatToString(n)[..0] == [];
    }
  }

  lemma {:induction false} ParseZeros(z: string)
    requires forall i :: 0 <= i < |z| ==> z[i] == '0'
    ensures ParseDigits(z) == Some(0)
  {
    if z != [] {
      ParseZeros(z[..|z| - 1]);
    }
  }

  /** Leading zeros do not change the value read. */
  lemma {:induction false} ParseLeadingZeros(z: string, s: string)
    requires forall i :: 0 <= i < |z| ==> z[i] == '0'
    ensures ParseDigits(z + s) == ParseDigits(s)
  {
    if s == [] {
      assert z + s == z;
      ParseZeros(z);
    } else {
      var zs := z + s;
      assert zs[..|zs| - 1] == z + s[..|s| - 1];
      assert zs[|zs| - 1] == s[|s| - 1];
      ParseLeadingZeros(z, s[..|s| - 1]);
    }
  }

  lemma PadStartZerosKeepsValue(s: string, width: nat)
    ensures ParseDigits(PadStart(s, width, '0')) == ParseDigits(s)
  {
    if |s| < width {
      ParseLeadingZeros(Repeat('0', width - |s|), s);
    }
  }

  /** For a non-negative count the two fields split it exactly: whole minutes and 0..59 seconds. */
  lemma SplitSeconds(seconds: nat)
    ensures MinutesPart(seconds) >= 0 && 0 <= SecondsPart(seconds) < 60
    ensures MinutesPart(seconds) * 60 + SecondsPart(seconds) == seconds
  {
  }

  /** The text `mm:ss` built from two fields of digits. */
  function ClockText(minutes: nat, secs: nat): string {
    PadStart(NatToString(minutes), 2, '0') + ":" + PadStart(NatToString(secs), 2, '0')
  }

  /** For a non-negative count both fields are plain digits: no minus sign appears. */
  lemma FormatTimeNat(seconds: nat)
    ensures MinutesPart(seconds) >= 0 && SecondsPart(seconds) >= 0
    ensures FormatTime(seconds) == ClockText(MinutesPart(seconds), SecondsPart(seconds))
  {
    SplitSeconds(seconds);
  }

  lemma SplitClock(pm: string, pc: string)
    requires |pc| == 2
    ensures var t := pm + ":" + pc;
      |t| == |pm| + 3 && t[|t| - 3] == ':' && t[..|t| - 3] == pm && t[|t| - 2..] == pc
  {
  }

  /** The fields of a clock text read back as the numbers they were made from. */
  lemma ClockTextFields(minutes: nat, secs: nat)
    requires secs < 60
    ensures var t := ClockText(minutes, secs);
      |t| >= 5 && t[|t| - 3] == ':' &&
      ParseDigits(t[..|t| - 3]) == Some(minutes) && ParseDigits(t[|t| - 2..]) == Some(secs)
  {
    var m := NatToString(minutes);
    var c := NatToString(secs);
    SplitClock(PadStart(m, 2, '0'), PadStart(c, 2, '0'));
    PadStartZerosKeepsValue(m, 2);
    PadStartZerosKeepsValue(c, 2);
    ParseNatToString(minutes);
    ParseNatToString(secs);
  }

  /**
   * For a non-negative count the clock reads `minutes:seconds`: the minutes
   * field holds `Math.floor(seconds / 60)` in at least two digits and is not
   * bounded above; the seconds field holds `seconds % 60`, in 0..59, in
   * exactly two digits; together they make up the count.
   */
  lemma FormatTimeFields(seconds: nat)
    ensures var t := FormatTime(seconds);
      |t| >= 5 && t[|t| - 3] == ':' &&
      ParseDigits(t[..|t| - 3]) == Some(MinutesPart(seconds)) &&
      ParseDigits(t[|t| - 2..]) == Some(SecondsPart(seconds)) &&
      SecondsPart(seconds) < 60 && MinutesPart(seconds) * 60 + SecondsPart(seconds) == seconds
  {
    SplitSeconds(seconds);
    FormatTimeNat(seconds);
    ClockTextFields(MinutesPart(seconds), SecondsPart(seconds));
  }

  /** A text whose fields read as `minutes` and `secs` parses to their total in seconds. */
  lemma ParseClockOf(t: string, minutes: nat, secs: nat)
    requires |t| >= 5 && t[|t| - 3] == ':' && secs < 60
    requires ParseDigits(t[..|t| - 3]) == Some(minutes) && ParseDigits(t[|t| - 2..]) == Some(secs)
    ensures ParseClock(t) == Some(minutes * 60 + secs)
  {
  }

  /** A clock text reads back as its minutes times 60 plus its seconds. */
  lemma ClockTextRoundTrip(minutes: nat, secs: nat)
    requires secs < 60
    ensures ParseClock(ClockText(minutes, secs)) == Some(minutes * 60 + secs)
  {
    ClockTextFields(minutes, secs);
    ParseClockOf(ClockText(minutes, secs), minutes, secs);
  }

  /** Reading back what `formatTime` renders gives the count it was given. */
  lemma FormatTimeRoundTrip(seconds: nat)
    ensures ParseClock(FormatTime(seconds)) == Some(seconds)
  {
    FormatTimeNat(seconds);
    SplitSeconds(seconds);
    ClockTextRoundTrip(MinutesPart(seconds), SecondsPart(seconds));
  }

  /** Distinct non-negative counts never share a clock face. */
  lemma FormatTimeInjective(a: nat, b: nat)
    requires FormatTime(a) == FormatTime(b)
    ensures a == b
  {
    FormatTimeRoundTrip(a);
    FormatTimeRoundTrip(b);
  }

  /** Minutes are not wrapped at 60: two hours show as 120:00. */
  lemma FormatTwoHours()
    ensures FormatTime(7200) == "120:00"
  {
    assert MinutesPart(7200) == 120;
    assert SecondsPart(7200) == 0;
    assert NatToString(1) == "1";
    assert NatToString(12) == "12";
    assert NatToString(120) == "120";
    assert PadStart("120", 2, '0') == "120";
    assert NatToString(0) == "0";
    assert PadStart("0", 2, '0') == "00";
  }

  /** A negative count (reachable by typing a negative duration) mixes floor and truncation. */
  lemma FormatNegative()
    ensures FormatTime(-5) == "-1:-5"
  {
    assert MinutesPart(-5) == -1;
    assert SecondsPart(-5) == -5;
    assert NatToString(1) == "1";
    assert NatToString(5) == "5";
    assert IntToString(-1) == "-1";
    assert IntToString(-5) == "-5";
    assert PadStart("-1", 2, '0') == "-1";
    assert PadStart("-5", 2, '0') == "-5";
  }
}
