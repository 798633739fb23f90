/**
 * `formatTime`, the course views' rendering of a number of minutes as
 * "Xh Ym" (or "Ym" under an hour), and a reader for that format that undoes it.
 */
module Duration {
  import opened Wrappers
  import opened Text

  /**
   * JavaScript's `a % b` for a positive divisor: the remainder of the division
   * truncated toward zero, so it takes the sign of the dividend. On a
   * nonnegative dividend it is the ordinary remainder, and negating the
   * dividend negates it.
   */
  function JsRemainder(a: int, b: int): (r: int)
    requires b > 0
    ensures a >= 0 ==> 0 <= r < b && r == a % b
    ensures a < 0 ==> -b < r <= 0 && r == -JsRemainder(-a, b)
    decreases if a < 0 then 1 else 0
  {
    if a >= 0 then a % b else -((-a) % b)
  }

  /**
   * The hours and minutes `formatTime` prints: `Math.floor(minutes / 60)`
   * and `minutes % 60`. For a nonnegative count they split it exactly; for a
   * negative count that is not a whole number of hours the floored hours and
   * the truncated remainder overshoot it by one hour.
   */
  function TimeParts(minutes: int): (p: (int, int))
    ensures p.0 * 60 <= minutes < p.0 * 60 + 60
    ensures p.0 > 0 <==> minutes >= 60
    ensures minutes >= 0 ==> 0 <= p.1 < 60 && p.0 * 60 + p.1 == minutes
    ensures minutes < 0 ==> -60 < p.1 <= 0 && p.0 * 60 + p.1 == (if p.1 == 0 then minutes else minutes - 60)
  {
    NegativeRemainder(minutes);
    (minutes / 60, JsRemainder(minutes, 60))
  }

  /** On a negative dividend the truncated remainder is the Euclidean one less 60, or 0 when 60 divides it. */
  lemma NegativeRemainder(minutes: int)
    ensures minutes < 0 ==> JsRemainder(minutes, 60) == (if minutes % 60 == 0 then 0 else minutes % 60 - 60)
  {
    if minutes < 0 {
      var q := minutes / 60;
      var e := minutes % 60;
      if e != 0 {
        DivModOfSixty(-minutes, -q - 1, 60 - e);
      } else {
        DivModOfSixty(-minutes, -q, 0);
      }
    }
  }

  /** Euclidean division by 60 is determined by quotient and remainder. */
  lemma DivModOfSixty(x: int, q: int, r: int)
    requires x == 60 * q + r && 0 <= r < 60
    ensures x / 60 == q && x % 60 == r
  {
  }

  /** `formatTime(minutes)`: the hours part appears only from one hour on, and the text ends in 'm'. */
  function FormatTime(minutes: int): (r: string)
    ensures |r| >= 2 && r[|r| - 1] == 'm'
    ensures 'h' in r <==> minutes >= 60
  {
    var (hours, mins) := TimeParts(minutes);
    if hours > 0 then
      var r := IntToString(hours) + "h " + IntToString(mins) + "m";
      assert r[|IntToString(hours)|] == 'h';
      r
    else
      var r := IntToString(mins) + "m";
      assert forall k :: 0 <= k < |r| ==> r[k] != 'h';
      r
  }

  /** Reads "Xh Ym" or "Ym" back into minutes; `None` for any other text. */
  function ParseDuration(s: string): Option<nat> {
    if |s| == 0 || s[|s| - 1] != 'm' then None else ParseBeforeUnit(s[..|s| - 1])
  }

  /** The text before the final 'm': hours up to the first 'h', or minutes alone. */
  function ParseBeforeUnit(body: string): Option<nat> {
    match IndexOf(body, 'h')
    case None => ParseNat(body)
    case Some(k) => ParseHoursAt(body, k)
  }

  /** Digits, the 'h' at `k`, one space, digits. */
  function ParseHoursAt(body: string, k: nat): Option<nat>
    requires k < |body|
  {
    if k + 1 < |body| && body[k + 1] == ' ' then
      var hours := ParseNat(body[..k]);
      var mins := ParseNat(body[k + 2..]);
      if hours.Some? && mins.Some? then Some(hours.value * 60 + mins.value) else None
    else None
  }

  /** A digit string never contains 'h'. */
  lemma NoHourMark(n: nat)
    ensures 'h' !in NatToString(n)
  {
    var d := NatToString(n);
    assert forall k :: 0 <= k < |d| ==> d[k] != 'h';
  }

  /** The reader on the under-an-hour form. */
  lemma ReadMinutesForm(m: nat)
    ensures ParseDuration(NatToString(m) + "m") == Some(m)
  {
    var ms := NatToString(m);
    var s := ms + "m";
    NoHourMark(m);
    ParseNatToString(m);
    assert s[..|s| - 1] == ms;
  }

  /** The reader on the hours-and-minutes form. */
  lemma ReadHoursForm(h: nat, m: nat)
    ensures ParseDuration(NatToString(h) + "h " + NatToString(m) + "m") == Some(h * 60 + m)
  {
    NoHourMark(h);
    ParseNatToString(h);
    ParseNatToString(m);
    ReadHoursText(NatToString(h), NatToString(m), h, m);
  }

  /** The reader on any hours text and minutes text it can read. */
  lemma ReadHoursText(hs: string, ms: string, h: nat, m: nat)
    requires 'h' !in hs && ParseNat(hs) == Some(h) && ParseNat(ms) == Some(m)
    ensures ParseDuration(hs + "h " + ms + "m") == Some(h * 60 + m)
  {
    var body := hs + "h " + ms;
    var s := hs + "h " + ms + "m";
    assert s[..|s| - 1] == body;
    assert body == hs + ['h'] + (" " + ms);
    IndexOfAfter(hs, 'h', " " + ms);
    assert body[..|hs|] == hs;
    assert body[|hs| + 2..] == ms;
    ReadHoursAt(body, |hs|, h, m);
  }

  /** The hours reader once its three pieces are known. */
  lemma ReadHoursAt(body: string, k: nat, h: nat, m: nat)
    requires k + 1 < |body| && body[k + 1] == ' '
    requires ParseNat(body[..k]) == Some(h) && ParseNat(body[k + 2..]) == Some(m)
    ensures ParseHoursAt(body, k) == Some(h * 60 + m)
  {
  }

  /**
   * For a nonnegative count the text is the canonical one: whole hours, then
   * the minutes below 60, from one hour on; the minutes alone under an hour.
   */
  lemma FormatTimeCanonical(minutes: nat)
    ensures minutes >= 60 ==> FormatTime(minutes) == NatToString(minutes / 60) + "h " + NatToString(minutes % 60) + "m"
    ensures minutes >= 60 ==> 1 <= minutes / 60 && minutes % 60 < 60 && minutes / 60 * 60 + minutes % 60 == minutes
    ensures minutes < 60 ==> FormatTime(minutes) == NatToString(minutes) + "m"
  {
  }

  /** Every nonnegative minute count survives `formatTime` and reading back. */
  lemma FormatTimeRoundTrip(minutes: nat)
    ensures ParseDuration(FormatTime(minutes)) == Some(minutes)
  {
    var (hours, mins) := TimeParts(minutes);
    if hours > 0 {
      assert FormatTime(minutes) == NatToString(hours) + "h " + NatToString(mins) + "m";
      ReadHoursForm(hours, mins);
    } else {
      assert FormatTime(minutes) == NatToString(mins) + "m";
      ReadMinutesForm(mins);
    }
  }
}
