/** `formatDuration`: an elapsed time in milliseconds rendered as `M:SS`. */
module Durations {
  import opened Wrappers
  import opened Strings

  const MillisPerMinute: nat := 60000
  const MillisPerSecond: nat := 1000

  /** The quotient rounded toward zero (`Math.trunc(a / b)`). */
  function TruncatedQuotient(a: int, b: nat): int
    requires b > 0
  {
    if a >= 0 then a / b else -((-a) / b)
  }

  /**
   * JavaScript's `%`: the remainder left by the quotient rounded toward zero, so it takes the
   * sign of `a` and is smaller than `b` in size.
   */
  function JsRemainder(a: int, b: nat): (r: int)
    requires b > 0
    ensures a == b * TruncatedQuotient(a, b) + r
    ensures a >= 0 ==> 0 <= r < b
    ensures a < 0 ==> -(b as int) < r <= 0
  {
    if a >= 0 then a % b
    else
      var q := (-a) / b;
      assert b * -q == -(b * q);
      -((-a) % b)
  }

  /**
   * `formatDuration(milliseconds)`: whole minutes (`Math.floor`), a colon, and the whole
   * seconds of the remaining minute padded to two characters with `0`.
   * Dafny's `/` by a positive divisor is `Math.floor` of the quotient.
   */
  function FormatDuration(milliseconds: int): string {
    Label(milliseconds / MillisPerMinute, JsRemainder(milliseconds, MillisPerMinute) / MillisPerSecond)
  }

  /** The template `${minutes}:${seconds.toString().padStart(2, '0')}`. */
  function Label(minutes: int, seconds: int): string {
    IntString(minutes) + ":" + PadStart(IntString(seconds), 2, '0')
  }

  /** Reads an `M:SS` string back as a number of whole seconds. */
  function ParseDuration(s: string): Option<nat> {
    if |s| < 4 || s[|s| - 3] != ':' then None else ParseFields(s[..|s| - 3], s[|s| - 2..])
  }

  /** The value of a minutes field and a seconds field, when both are decimal digits. */
  function ParseFields(minutes: string, seconds: string): Option<nat> {
    if AllDigits(minutes) && AllDigits(seconds) then
      Some(60 * ParseDecimal(minutes) + ParseDecimal(seconds))
    else
      None
  }

  /** For a non-negative duration the seconds field is two digits holding a value below 60. */
  lemma FormatDurationShape(milliseconds: int)
    requires milliseconds >= 0
    ensures var seconds := (milliseconds % MillisPerMinute) / MillisPerSecond;
      && seconds < 60
      && FormatDuration(milliseconds)
         == DecimalString(milliseconds / MillisPerMinute) + ":" + [DigitChar(seconds / 10), DigitChar(seconds % 10)]
  {
    SecondsField(milliseconds);
    LabelShape(milliseconds / MillisPerMinute, (milliseconds % MillisPerMinute) / MillisPerSecond);
  }

  /** For a non-negative duration JavaScript's `%` is Dafny's, and the seconds stay below 60. */
  lemma SecondsField(milliseconds: int)
    requires milliseconds >= 0
    ensures JsRemainder(milliseconds, MillisPerMinute) / MillisPerSecond
         == (milliseconds % MillisPerMinute) / MillisPerSecond
    ensures (milliseconds % MillisPerMinute) / MillisPerSecond < 60
  {
  }

  /** A non-negative label is the digits of the minutes, a colon and two digits of seconds. */
  lemma LabelShape(minutes: nat, seconds: nat)
    requires seconds < 60
    ensures Label(minutes, seconds) == DecimalString(minutes) + ":" + [DigitChar(seconds / 10), DigitChar(seconds % 10)]
  {
    PaddedSeconds(seconds);
  }

  /** Padding a seconds value below 60 gives its tens digit then its units digit. */
  lemma PaddedSeconds(seconds: nat)
    requires seconds < 60
    ensures PadStart(IntString(seconds), 2, '0') == [DigitChar(seconds / 10), DigitChar(seconds % 10)]
  {
    if seconds < 10 {
      assert IntString(seconds) == [DigitChar(seconds)];
    } else {
      assert DecimalString(seconds / 10) == [DigitChar(seconds / 10)];
      assert IntString(seconds) == [DigitChar(seconds / 10)] + [DigitChar(seconds % 10)];
    }
  }

  lemma TwoDigitValue(seconds: nat)
    requires seconds < 100
    ensures ParseDecimal([DigitChar(seconds / 10), DigitChar(seconds % 10)]) == seconds
  {
    var s := [DigitChar(seconds / 10), DigitChar(seconds % 10)];
    DigitRoundTrip(seconds / 10);
    DigitRoundTrip(seconds % 10);
    assert s[..1] == [DigitChar(seconds / 10)];
    assert s[..1][..0] == [];
    assert ParseDecimal(s[..1]) == seconds / 10;
    assert ParseDecimal(s) == 10 * (seconds / 10) + seconds % 10;
  }

  lemma DigitRoundTrip(d: nat)
    requires d < 10
    ensures DigitValue(DigitChar(d)) == d
  {
  }

  /** A label splits at the colon three characters from its end. */
  lemma ParseDurationOf(minutes: string, field: string)
    requires |minutes| >= 1 && |field| == 2
    ensures ParseDuration(minutes + ":" + field) == ParseFields(minutes, field)
  {
    var s := minutes + ":" + field;
    assert s[|s| - 3] == ':';
    assert s[..|s| - 3] == minutes;
    assert s[|s| - 2..] == field;
  }

  lemma MinutesAndSeconds(milliseconds: nat)
    ensures 60 * (milliseconds / MillisPerMinute) + (milliseconds % MillisPerMinute) / MillisPerSecond
         == milliseconds / MillisPerSecond
  {
  }

  /** Round trip: reading back a formatted non-negative duration gives its whole seconds. */
  lemma DurationRoundTrip(milliseconds: int)
    requires milliseconds >= 0
    ensures ParseDuration(FormatDuration(milliseconds)) == Some(milliseconds / MillisPerSecond)
  {
    SecondsField(milliseconds);
    LabelRoundTrip(milliseconds / MillisPerMinute, (milliseconds % MillisPerMinute) / MillisPerSecond);
    MinutesAndSeconds(milliseconds);
  }

  /** A label of non-negative fields reads back as minutes times 60 plus seconds. */
  lemma LabelRoundTrip(minutes: nat, seconds: nat)
    requires seconds < 60
    ensures ParseDuration(Label(minutes, seconds)) == Some(60 * minutes + seconds)
  {
    var digits := DecimalString(minutes);
    var field := [DigitChar(seconds / 10), DigitChar(seconds % 10)];
    LabelShape(minutes, seconds);
    ParseDurationOf(digits, field);
    FieldsRoundTrip(minutes, seconds);
  }

  /** The two fields of a label read back as minutes times 60 plus seconds. */
  lemma FieldsRoundTrip(minutes: nat, seconds: nat)
    requires seconds < 60
    ensures ParseFields(DecimalString(minutes), [DigitChar(seconds / 10), DigitChar(seconds % 10)])
         == Some(60 * minutes + seconds)
  {
    DecimalRoundTrip(minutes);
    TwoDigitValue(seconds);
  }

  /** A negative elapsed time (a clock set back) renders both fields with their own minus sign. */
  lemma NegativeDurationExample()
    ensures FormatDuration(-1) == "-1:-1"
  {
    assert JsRemainder(-1, MillisPerMinute) == -1;
    assert IntString(-1) == "-" + DecimalString(1) == "-1";
    assert PadStart("-1", 2, '0') == "-1";
  }
}
