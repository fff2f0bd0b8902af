/**
 * The values the timer derives from its state for display: the "MM:SS"
 * clock text, the progress percentage of the ring, and the number of
 * remaining minutes shown under it. All are plain functions of the state.
 */
module PomodoroDisplay {
  import opened PomodoroState

  datatype Option<T> = None | Some(value: T)

  // ---------------------------------------------------------------------------
  // Decimal digits

  predicate IsDigit(c: char) {
    '0' <= c <= '9'
  }

  predicate AllDigits(s: string) {
    forall i :: 0 <= i < |s| ==> IsDigit(s[i])
  }

  function DigitChar(d: int): (c: char)
    requires 0 <= d < 10
    ensures IsDigit(c)
  {
    (48 + d) as char
  }

  function DigitValue(c: char): (d: nat)
    requires IsDigit(c)
    ensures d < 10
  {
    c as int - 48
  }

  /** The number a string of decimal digits denotes (most significant first). */
  function DecimalValue(s: string): nat
    requires AllDigits(s)
    decreases |s|
  {
    if s == [] then 0 else DecimalValue(s[..|s| - 1]) * 10 + DigitValue(s[|s| - 1])
  }

  /** `n.toString()` for a non-negative integer: its decimal numeral. */
  function NatToString(n: nat): (r: string)
    ensures 1 <= |r| && AllDigits(r)
    ensures n < 10 ==> |r| == 1
    ensures 10 <= n < 100 ==> |r| == 2
    decreases n
  {
    if n < 10 then [DigitChar(n)] else NatToString(n / 10) + [DigitChar(n % 10)]
  }

  /** The numeral denotes the number, and it is the shortest one: no leading zero. */
  lemma {:induction false} NatToStringValue(n: nat)
    ensures DecimalValue(NatToString(n)) == n
    ensures |NatToString(n)| > 1 ==> NatToString(n)[0] != '0'
    decreases n
  {
    var r := NatToString(n);
    if n >= 10 {
      var prefix := NatToString(n / 10);
      NatToStringValue(n / 10);
      assert r == prefix + [DigitChar(n % 10)];
      assert r[..|r| - 1] == prefix;
    }
  }

  /** `toString()` of any integer: a minus sign before the numeral of a negative one. */
  function IntToString(i: int): (r: string)
    ensures i >= 0 ==> r == NatToString(i)
    ensures i < 0 ==> |r| >= 2 && r[0] == '-' && r[1..] == NatToString(-i)
  {
    if i < 0 then ['-'] + NatToString(-i) else NatToString(i)
  }

  /** `s.padStart(width, c)` for a one-character pad: `c` repeated in front of `s` up to `width`. */
  function PadStart(s: string, width: nat, c: char): (r: string)
    ensures |r| == if |s| >= width then |s| else width
    ensures r == seq(|r| - |s|, _ => c) + s
    decreases width
  {
    if |s| >= width then s else [c] + PadStart(s, width - 1, c)
  }

  /**
   * JavaScript's `%`: the remainder of truncating division, which takes the
   * sign of the dividend (unlike Dafny's, which is never negative).
   */
  function JsRem(a: int, b: int): (r: int)
    requires b > 0
    ensures 0 <= a ==> r == a % b && 0 <= r < b
    ensures a < 0 ==> -b < r <= 0 && r == a + b * ((-a) / b)
  {
    assert -a == b * ((-a) / b) + (-a) % b;
    if a >= 0 then a % b else -((-a) % b)
  }

  // ---------------------------------------------------------------------------
  // The clock text

  /**
   * `formatTime(seconds)`: minutes as `Math.floor(seconds / 60)` (Dafny's `/`
   * by a positive divisor floors, as `Math.floor` does), seconds as the
   * JavaScript remainder, each padded to two characters with '0', joined by ':'.
   */
  function FormatTime(seconds: int): (r: string)
    ensures |r| >= 5
  {
    var mins := seconds / 60;
    var secs := JsRem(seconds, 60);
    PadStart(IntToString(mins), 2, '0') + [':'] + PadStart(IntToString(secs), 2, '0')
  }

  /** Reads "M...M:SS" (at least two minute digits, seconds below 60) back into seconds. */
  function ParseClock(t: string): Option<nat> {
    if |t| < 5 || t[|t| - 3] != ':' then None
    else
      var mm := t[..|t| - 3];
      var ss := t[|t| - 2..];
      if AllDigits(mm) && AllDigits(ss) && DecimalValue(ss) < 60
      then Some(DecimalValue(mm) * 60 + DecimalValue(ss))
      else None
  }

  /** For a non-negative time both parts are numerals of non-negative numbers. */
  lemma FormatTimeNonNegative(s: nat)
    ensures FormatTime(s) == PadStart(NatToString(s / 60), 2, '0') + [':'] + PadStart(NatToString(s % 60), 2, '0')
  {
  }

  /** A number below 100, padded to two characters, is its tens digit then its units digit. */
  lemma TwoDigits(n: nat)
    requires n < 100
    ensures PadStart(NatToString(n), 2, '0') == [DigitChar(n / 10), DigitChar(n % 10)]
  {
  }

  /** Padding a numeral to two characters keeps it a numeral of the same value. */
  lemma PaddedNumeral(n: nat)
    ensures |PadStart(NatToString(n), 2, '0')| >= 2
    ensures AllDigits(PadStart(NatToString(n), 2, '0'))
    ensures DecimalValue(PadStart(NatToString(n), 2, '0')) == n
  {
    var p := PadStart(NatToString(n), 2, '0');
    NatToStringValue(n);
    if n < 10 {
      TwoDigits(n);
      assert p == [DigitChar(0), DigitChar(n)];
      assert p[..1] == [DigitChar(0)];
      assert DecimalValue(p[..1]) == 0 by {
        assert p[..1][..0] == [];
      }
    }
  }

  /**
   * Below 100 minutes the clock is exactly five characters "MM:SS": the two
   * minute digits, a colon, the two second digits (e.g. 1497 is "24:57").
   */
  lemma FormatTimeDigits(s: int)
    requires 0 <= s < 6000
    ensures |FormatTime(s)| == 5
    ensures FormatTime(s) == [DigitChar(s / 60 / 10), DigitChar(s / 60 % 10), ':', DigitChar(s % 60 / 10), DigitChar(s % 60 % 10)]
  {
    var m, q := s / 60, s % 60;
    assert m < 100;
    FormatTimeNonNegative(s);
    TwoDigits(m);
    TwoDigits(q);
    var a, b := [DigitChar(m / 10), DigitChar(m % 10)], [DigitChar(q / 10), DigitChar(q % 10)];
    assert FormatTime(s) == a + [':'] + b;
    FiveCharacters(a, b);
  }

  /** Two two-character parts around a colon make five characters. */
  lemma FiveCharacters(a: string, b: string)
    requires |a| == 2 && |b| == 2
    ensures a + [':'] + b == [a[0], a[1], ':', b[0], b[1]]
  {
  }

  /** For every non-negative time the clock text reads back as that time. */
  lemma FormatParseRoundTrip(s: nat)
    ensures ParseClock(FormatTime(s)) == Some(s)
  {
    var m, q := s / 60, s % 60;
    FormatTimeNonNegative(s);
    assert FormatTime(s) == PadStart(NatToString(m), 2, '0') + [':'] + PadStart(NatToString(q), 2, '0');
    ClockRoundTrip(m, q);
    assert m * 60 + q == s;
  }

  /** Minutes and seconds (below 60), rendered and read back. */
  lemma ClockRoundTrip(m: nat, q: nat)
    requires q < 60
    ensures ParseClock(PadStart(NatToString(m), 2, '0') + [':'] + PadStart(NatToString(q), 2, '0')) == Some(m * 60 + q)
  {
    PaddedNumeral(m);
    PaddedNumeral(q);
    ParseNumerals(PadStart(NatToString(m), 2, '0'), PadStart(NatToString(q), 2, '0'), m, q);
  }

  /** Parsing a minutes numeral and a two-digit seconds numeral joined by ':'. */
  lemma ParseNumerals(mm: string, ss: string, m: nat, q: nat)
    requires |mm| >= 2 && AllDigits(mm) && DecimalValue(mm) == m
    requires |ss| == 2 && AllDigits(ss) && DecimalValue(ss) == q && q < 60
    ensures ParseClock(mm + [':'] + ss) == Some(m * 60 + q)
  {
    var t := mm + [':'] + ss;
    assert t[..|t| - 3] == mm;
    assert t[|t| - 2..] == ss;
  }

  /** Different non-negative times are shown differently. */
  lemma FormatTimeInjective(s: nat, t: nat)
    requires FormatTime(s) == FormatTime(t)
    ensures s == t
  {
    FormatParseRoundTrip(s);
    FormatParseRoundTrip(t);
  }

  /** Three seconds into a work session the clock shows "24:57". */
  lemma FormatTimeMidWork()
    ensures FormatTime(1497) == "24:57"
  {
  }

  /** Short times keep their leading zeros: 65 s is "01:05" and 5 s is "00:05". */
  lemma FormatTimeShort()
    ensures FormatTime(65) == "01:05"
    ensures FormatTime(5) == "00:05"
  {
  }

  /** The full sessions: "25:00" for work and "05:00" for a break. */
  lemma FormatTimeFull()
    ensures FormatTime(Total(Work)) == "25:00"
    ensures FormatTime(Total(Break)) == "05:00"
  {
  }

  // ---------------------------------------------------------------------------
  // The progress ring

  /** Percentage of the session elapsed, `(totalTime - timeLeft) / totalTime * 100`, in exact arithmetic. */
  function Progress(m: Mode, timeLeft: int): (r: real)
    ensures 0 <= timeLeft <= Total(m) ==> 0.0 <= r <= 100.0
    ensures timeLeft == Total(m) <==> r == 0.0
    ensures timeLeft == 0 <==> r == 100.0
  {
    ((Total(m) - timeLeft) as real / Total(m) as real) * 100.0
  }

  /** Less time left means more progress, and conversely. */
  lemma ProgressMonotone(m: Mode, t: int, u: int)
    ensures t < u <==> Progress(m, u) < Progress(m, t)
  {
  }

  /** An interval firing never lowers the progress, and raises it by one second's share when armed. */
  lemma ProgressAcrossTick(s: State)
    ensures Progress(s.mode, s.timeLeft) <= Progress(Ticked(s).mode, Ticked(s).timeLeft)
    ensures Armed(s) ==> Progress(Ticked(s).mode, Ticked(s).timeLeft) == Progress(s.mode, s.timeLeft) + 100.0 / Total(s.mode) as real
  {
  }

  /** Half of a break elapsed is 50 percent. */
  lemma ProgressExamples()
    ensures Progress(Work, WorkTime) == 0.0 && Progress(Work, 0) == 100.0
    ensures Progress(Break, 150) == 50.0
  {
  }

  // ---------------------------------------------------------------------------
  // The "Remaining" minutes figure

  /** `Math.ceil(timeLeft / 60)` on integers: the least whole number of minutes covering the time left. */
  function RemainingMinutes(timeLeft: int): (r: int)
    ensures (r - 1) * 60 < timeLeft <= r * 60
  {
    (timeLeft + 59) / 60
  }

  /** No minutes remain exactly when no seconds remain. */
  lemma RemainingMinutesZero(t: int)
    requires 0 <= t
    ensures RemainingMinutes(t) == 0 <==> t == 0
  {
  }

  /** In a bounded state the figure lies between 0 and the mode's length in minutes. */
  lemma RemainingMinutesBounded(s: State)
    requires Bounded(s)
    ensures 0 <= RemainingMinutes(s.timeLeft) <= Total(s.mode) / 60
  {
  }

  /** In every state reachable from mount the figure never exceeds 25. */
  lemma ReachableRemainingMinutes(es: seq<Event>)
    ensures 0 <= RemainingMinutes(Run(Initial, es).0.timeLeft) <= 25
  {
    RunPreservesInvariant(Initial, es);
    RemainingMinutesBounded(Run(Initial, es).0);
  }
}
