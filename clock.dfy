/**
 * The countdown rendering shared by the canvas page, the admin page and the
 * show page: `String(Math.floor(v / 60)).padStart(2, "0")` for the minutes,
 * `String(v % 60).padStart(2, "0")` for the seconds, a colon between them,
 * and a low-time warning at 30 seconds or less.
 */
module Clock {
  import opened Wrappers
  import opened Text

  /** The countdown threshold at or below which the pages warn (turn red or add "low-time"). */
  const LOW_TIME_SECONDS := 30

  /** JavaScript's `%`: the remainder takes the sign of the dividend (Dafny's `%` never is negative). */
  function JsRemainder(v: int, d: int): (r: int)
    requires 0 < d
    ensures -d < r < d && (v < 0 ==> r <= 0)
    ensures 0 <= v ==> r == v % d
  {
    if 0 <= v then v % d else -((-v) % d)
  }

  /** `MM:SS` for a countdown of `v` seconds; `Math.floor` is Dafny's `/` for a positive divisor. */
  function FormatClock(v: int): string {
    Pad2(v / 60) + ":" + Pad2(JsRemainder(v, 60))
  }

  /**
   * The clock text for a countdown message whose `value` may be missing: the
   * arithmetic on `undefined` (or on the placeholder "?") yields `NaN` in both fields.
   */
  function CountdownText(value: Option<int>): string {
    match value
    case Some(v) => FormatClock(v)
    case None => "NaN:NaN"
  }

  /** `value <= 30` where a missing value compares as `NaN`, that is, false. */
  predicate IsLowTime(value: Option<int>) {
    value.Some? && value.value <= LOW_TIME_SECONDS
  }

  /** `${value ?? "?"}`: the value as text, or a question mark when it is missing. */
  function ValueText(value: Option<int>): string {
    match value
    case Some(v) => IntString(v)
    case None => "?"
  }

  /** Reads an `M…M:SS` clock back into seconds; the inverse of `FormatClock` on non-negative values. */
  function ClockSeconds(t: string): Option<int> {
    if |t| >= 4 && t[|t| - 3] == ':' && AllDigits(t[..|t| - 3]) && AllDigits(t[|t| - 2..]) then
      Some(DigitsValue(t[..|t| - 3]) * 60 + DigitsValue(t[|t| - 2..]))
    else None
  }

  /**
   * A non-negative countdown renders as at least two minute digits, a colon and
   * exactly two second digits, and reading the clock back gives the countdown;
   * below 100 minutes the text is exactly five characters.
   */
  lemma ClockRoundTrip(v: nat)
    ensures ClockSeconds(FormatClock(v)) == Some(v)
    ensures |FormatClock(v)| >= 5 && FormatClock(v)[|FormatClock(v)| - 3] == ':'
    ensures v < 6000 ==> |FormatClock(v)| == 5
  {
    var mm, ss := Pad2(v / 60), Pad2(v % 60);
    Pad2Value(v / 60);
    Pad2Value(v % 60);
    var t := FormatClock(v);
    assert t == mm + ":" + ss;
    assert t[..|t| - 3] == mm;
    assert t[|t| - 2..] == ss;
  }
}
