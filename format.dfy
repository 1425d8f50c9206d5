/**
 * The two time texts the indicator shows: a row's duration ("m:ss", from
 * a song's duration in seconds) and the playback clocks ("mm:ss", from a
 * GStreamer time in nanoseconds), with a reader that turns either back
 * into whole seconds.
 */
module Format {
  import opened Wrappers
  import opened Text

  /** `Gst.SECOND`: GStreamer clock times are nanoseconds. */
  const SECOND: nat := 1_000_000_000

  /** The quotient of JavaScript's integer division, truncated toward zero. */
  function JsQuot(a: int, b: int): int
    requires b > 0
  {
    if a >= 0 then a / b else -((-a) / b)
  }

  /**
   * JavaScript's `a % b` for `b > 0`: the remainder of the division that
   * truncates toward zero, so it takes the sign of `a` and is smaller than
   * `b` in magnitude.
   */
  function JsRem(a: int, b: int): (r: int)
    requires b > 0
    ensures a == JsQuot(a, b) * b + r
    ensures a >= 0 ==> 0 <= r < b
    ensures a < 0 ==> -b < r <= 0
  {
    if a >= 0 then a % b
    else
      var n := -a;
      assert n == (n / b) * b + n % b;
      assert -(n / b) * b == -((n / b) * b);
      -(n % b)
  }

  /** A row's duration text: unpadded minutes, seconds padded to two digits. */
  function DurationText(d: nat): string {
    NatText(d / 60) + ":" + PadStart(NatText(d % 60), 2, '0')
  }

  /**
   * A clock label for a time of `ns` nanoseconds: whole seconds
   * `Math.floor(ns / SECOND)`, then minutes `Math.floor(cs / 60)` and
   * seconds `cs % 60`, each padded to at least two digits.
   */
  function ClockLabel(ns: int): string {
    var cs := ns / SECOND;
    ClockText(cs / 60, JsRem(cs, 60))
  }

  /** Minutes and seconds, each a clock field, around a ':'. */
  function ClockText(m: int, r: int): string {
    ClockField(m) + ":" + ClockField(r)
  }

  /** `String(x).padStart(2, '0')`. */
  function ClockField(x: int): string {
    PadStart(IntText(x), 2, '0')
  }

  /**
   * Reads a "minutes:seconds" text back into whole seconds; it accepts only
   * digits on both sides of the first ':' and exactly two seconds digits
   * standing for 00..59.
   */
  function LabelSeconds(t: string): Option<nat> {
    FieldsAt(t, IndexOf(t, ':'))
  }

  /** The fields on either side of position `k`, read as minutes and seconds. */
  function FieldsAt(t: string, k: nat): Option<nat>
    requires k <= |t|
  {
    if k < |t| && AllDigits(t[..k]) && AllDigits(t[k + 1..])
       && |t[k + 1..]| == 2 && DigitsValue(t[k + 1..]) < 60
    then Some(DigitsValue(t[..k]) * 60 + DigitsValue(t[k + 1..]))
    else None
  }

  /** `m + ":" + ss` with digits only on both sides splits at that ':'. */
  lemma SplitAtColon(a: string, b: string)
    requires AllDigits(a) && AllDigits(b)
    ensures var t := a + ":" + b;
            && IndexOf(t, ':') == |a|
            && t[..|a|] == a && t[|a| + 1..] == b
  {
    IndexOfSeparator(a, ':', b);
    var t := a + ":" + b;
    assert t == a + [':'] + b;
  }

  /** The fields at `k` read as `60 * a + b` when they are the digit strings `a` and `b`. */
  lemma FieldsOfSplit(t: string, k: nat, a: string, b: string)
    requires AllDigits(a) && AllDigits(b) && |b| == 2 && DigitsValue(b) < 60
    requires k < |t| && t[..k] == a && t[k + 1..] == b
    ensures FieldsAt(t, k) == Some(DigitsValue(a) * 60 + DigitsValue(b))
  {
  }

  /**
   * A duration text reads back as the duration it shows; its minutes are
   * `String(d / 60)` unpadded and its seconds field is two digits < 60.
   */
  lemma {:induction false} DurationTextRoundTrip(d: nat)
    ensures LabelSeconds(DurationText(d)) == Some(d)
    ensures var t := DurationText(d); t[..IndexOf(t, ':')] == NatText(d / 60)
  {
    var a, b := NatText(d / 60), PadStart(NatText(d % 60), 2, '0');
    PaddedNatValue(d % 60, 2);
    NatTextValue(d / 60);
    SplitAtColon(a, b);
    LabelOfFields(DurationText(d), a, b, d);
  }

  /**
   * For a non-negative time, the clock label reads back as the whole
   * seconds `ns / SECOND`, its minutes field is `String(minutes)` padded to
   * two digits (so exactly two digits below 100 minutes) and its seconds
   * field is two digits < 60.
   */
  lemma {:induction false} ClockLabelRoundTrip(ns: int)
    requires ns >= 0
    ensures LabelSeconds(ClockLabel(ns)) == Some(ns / SECOND)
    ensures var t := ClockLabel(ns); var m := ns / SECOND / 60;
            && IndexOf(t, ':') == (if |NatText(m)| >= 2 then |NatText(m)| else 2)
            && (m < 100 ==> IndexOf(t, ':') == 2)
            && |t| - IndexOf(t, ':') == 3
  {
    var cs: nat := ns / SECOND;
    var m, r := cs / 60, cs % 60;
    assert m * 60 + r == cs;
    assert JsRem(cs, 60) == r;
    ClockFieldsRoundTrip(m, r);
  }

  /** Zero-padded minutes and seconds fields read back as `60 * m + r`. */
  lemma ClockFieldsRoundTrip(m: nat, r: nat)
    requires r < 60
    ensures LabelSeconds(ClockText(m, r)) == Some(m * 60 + r)
    ensures IndexOf(ClockText(m, r), ':') == (if |NatText(m)| >= 2 then |NatText(m)| else 2)
    ensures m < 100 ==> IndexOf(ClockText(m, r), ':') == 2
    ensures |ClockText(m, r)| - IndexOf(ClockText(m, r), ':') == 3
  {
    ClockFieldValue(m);
    ClockFieldValue(r);
    var a, b := ClockField(m), ClockField(r);
    SplitAtColon(a, b);
    LabelOfFields(ClockText(m, r), a, b, m * 60 + r);
  }

  /** A clock field of a non-negative number: `String(x)` padded to two digits, denoting it. */
  lemma ClockFieldValue(x: nat)
    ensures var f := ClockField(x);
            && AllDigits(f) && DigitsValue(f) == x
            && |f| == (if |NatText(x)| >= 2 then |NatText(x)| else 2) && (x < 100 ==> |f| == 2)
  {
    assert IntText(x) == NatText(x);
    PaddedNatValue(x, 2);
  }

  /** Digit fields, the second of two digits < 60, make a label that reads back as `60 * a + b`. */
  lemma LabelOfFields(t: string, a: string, b: string, v: nat)
    requires AllDigits(a) && AllDigits(b) && |b| == 2 && DigitsValue(b) < 60
    requires IndexOf(t, ':') == |a| < |t| && t[..|a|] == a && t[|a| + 1..] == b
    requires v == DigitsValue(a) * 60 + DigitsValue(b)
    ensures LabelSeconds(t) == Some(v)
    ensures |t| - IndexOf(t, ':') == 3
  {
    FieldsOfSplit(t, |a|, a, b);
  }
}
