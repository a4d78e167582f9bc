/**
 * One field of a daily cron time: a fixed hour or minute, or the wildcard `*`.
 * Mirrors minicron-framework/Model/CronValue.swift.
 */
module CronValues {
  import opened Outcomes
  import opened Strings

  /** Whether a trigger falls on the current day or the next one; its raw text is the case name. */
  datatype CronWhen = Today | Tomorrow

  /** Which field a value belongs to: it decides the accepted range and the rendering. */
  datatype TimeType = Hours | Minutes

  /** The errors the field and time initialisers throw (declared in CronTime.swift). */
  datatype CronError =
    | InvalidSimulatedTime(text: string)
    | InvalidHoursRange(hours: int)
    | InvalidMinutesRange(minutes: int)
    | InvalidNumber(text: string)

  /**
   * A fixed value, tagged with the field it was built for, or the wildcard.
   * Nothing in the type bounds `n`: the enum case is public, so any integer can be stored.
   */
  datatype CronValue = Value(n: int, kind: TimeType) | Wildcard

  const HoursMax: int := 23
  const MinutesMax: int := 59

  /** The largest value of Swift's 64-bit `Int`; `Int(String)` fails above it. */
  const IntMax: int := 0x7FFF_FFFF_FFFF_FFFF

  /** `rawValue` of `CronWhen`: the case name, a single whitespace-free word. */
  function WhenRaw(w: CronWhen): (s: string)
    ensures s == "today" <==> w == Today
    ensures |s| > 0 && NoneIn(s, IsWhitespace)
  {
    match w
    case Today => "today"
    case Tomorrow => "tomorrow"
  }

  /** `CronWhen(rawValue:)`: only the two case names are accepted. */
  function WhenFromRaw(s: string): (r: Option<CronWhen>)
    ensures r.Some? <==> s == "today" || s == "tomorrow"
    ensures r.Some? ==> WhenRaw(r.value) == s
  {
    if s == "today" then Some(Today)
    else if s == "tomorrow" then Some(Tomorrow)
    else None
  }

  /** `hoursRange` is 0...23, `minutesRange` is 0...59. */
  predicate InRange(v: int, kind: TimeType) {
    0 <= v <= (if kind == Hours then HoursMax else MinutesMax)
  }

  /** A value that a field of this kind may hold: the wildcard, or an in-range value tagged with the kind. */
  predicate ValidFor(v: CronValue, kind: TimeType) {
    v.Wildcard? || (v.kind == kind && InRange(v.n, kind))
  }

  /** `validate(_:type:)`: the range guard of the field's kind. */
  function Validate(v: int, kind: TimeType): (r: Outcome<CronError>)
    ensures r.Pass? <==> InRange(v, kind)
    ensures r.Fail? ==> r.error == (if kind == Hours then InvalidHoursRange(v) else InvalidMinutesRange(v))
  {
    match kind
    case Hours =>
      if 0 <= v <= HoursMax then Pass else Fail(InvalidHoursRange(v))
    case Minutes =>
      if 0 <= v <= MinutesMax then Pass else Fail(InvalidMinutesRange(v))
  }

  /** `init(_ value: Int, type:)`: accepts exactly the in-range integers, else throws the kind's range error. */
  function FromInt(v: int, kind: TimeType): (r: Result<CronValue, CronError>)
    ensures r.Ok? <==> InRange(v, kind)
    ensures r.Ok? ==> r.value == Value(v, kind) && ValidFor(r.value, kind)
    ensures r.Err? && kind == Hours ==> r.error == InvalidHoursRange(v)
    ensures r.Err? && kind == Minutes ==> r.error == InvalidMinutesRange(v)
  {
    match Validate(v, kind)
    case Fail(e) => Err(e)
    case Pass => Ok(Value(v, kind))
  }

  /** `Int(value) ?? 0` on a digit string: its value, or 0 when it overflows `Int`. */
  function ReadInt(s: string): (n: int)
    requires IsNumber(s)
    ensures 0 <= n <= IntMax
    ensures DigitsValue(s) <= IntMax ==> n == DigitsValue(s)
    ensures DigitsValue(s) > IntMax ==> n == 0
  {
    var d := DigitsValue(s);
    if d <= IntMax then d else 0
  }

  /**
   * `init(_ value: String, type:)`: `"*"` is the wildcard; anything else must be a
   * non-empty string of digits, whose number must then be in the kind's range.
   */
  function ParseValue(s: string, kind: TimeType): (r: Result<CronValue, CronError>)
    ensures r == Ok(Wildcard) <==> s == "*"
    ensures r.Ok? <==> s == "*" || (IsNumber(s) && InRange(ReadInt(s), kind))
    ensures r.Ok? ==> ValidFor(r.value, kind)
    ensures r.Ok? && r.value.Value? ==> r.value.n == ReadInt(s)
    ensures s != "*" && !IsNumber(s) ==> r == Err(InvalidNumber(s))
    ensures IsNumber(s) && !InRange(ReadInt(s), kind) ==>
      r == Err(if kind == Hours then InvalidHoursRange(ReadInt(s)) else InvalidMinutesRange(ReadInt(s)))
  {
    if s == "*" then Ok(Wildcard)
    else if !IsNumber(s) then Err(InvalidNumber(s))
    else FromInt(ReadInt(s), kind)
  }

  /**
   * `asString()`: `*` for the wildcard; otherwise the number in decimal, unpadded
   * for an hours value and padded to two digits for a minutes value.
   */
  function AsString(v: CronValue): (s: string)
    ensures s == "*" <==> v.Wildcard?
    ensures v.Value? && 0 <= v.n < Int32Limit ==> IsNumber(s) && DigitsValue(s) == v.n
    ensures v.Value? && CInt(v.n) >= 0 ==> IsNumber(s) && DigitsValue(s) == CInt(v.n)
    ensures v.Value? && v.kind == Hours && CInt(v.n) >= 0 && s[0] == '0' ==> s == "0"
    ensures v.Value? && v.kind == Minutes ==> |s| >= 2
    ensures v.Value? && v.kind == Minutes && 0 <= v.n < 100 ==> |s| == 2
    ensures forall i :: 0 <= i < |s| ==> IsDigit(s[i]) || s[i] == '-' || s[i] == '*'
  {
    match v
    case Value(n, kind) =>
      (match kind
       case Hours => Decimal(n)
       case Minutes => ZeroPadded(n))
    case Wildcard => "*"
  }

  /**
   * The field `<`. On two fixed values it is really `<=` (the tags are ignored); a
   * wildcard on the left is below everything, itself included; a fixed value is
   * never below a wildcard.
   */
  predicate Less(l: CronValue, r: CronValue)
    ensures l.Value? && r.Value? ==> (Less(l, r) <==> l.n <= r.n)
    ensures l.Wildcard? ==> Less(l, r)
    ensures l.Value? && r.Wildcard? ==> !Less(l, r)
  {
    if l.Value? && r.Value? then l.n == r.n || l.n < r.n
    else l.Wildcard?
  }

  /**
   * The field `==`: a wildcard on either side makes the pair equal; two fixed
   * values are equal when their numbers are, whatever their tags.
   */
  predicate Equal(l: CronValue, r: CronValue)
    ensures l.Wildcard? || r.Wildcard? ==> Equal(l, r)
    ensures l.Value? && r.Value? ==> (Equal(l, r) <==> l.n == r.n)
  {
    if l.Wildcard? then true
    else if r.Wildcard? then true
    else l.n == r.n
  }

  /**
   * Swift's `max(x, y)` under the field `<`: `y` unless `y < x`. It picks the fixed
   * operand when only one is fixed, the larger number when both are, and gives
   * the wildcard only when both are wildcards.
   */
  function Max(x: CronValue, y: CronValue): (m: CronValue)
    ensures m == x || m == y
    ensures x.Wildcard? && y.Value? ==> m == y
    ensures x.Value? && y.Wildcard? ==> m == x
    ensures x.Value? && y.Value? ==> m.Value? && m.n >= x.n && m.n >= y.n
    ensures m.Wildcard? <==> x.Wildcard? && y.Wildcard?
  {
    if !Less(y, x) then y else x
  }

  // ---------------------------------------------------------------------------
  // Properties
  // ---------------------------------------------------------------------------

  /** Rendering a valid field and parsing the text as the same kind gives the field back. */
  lemma ParseAsString(v: CronValue, kind: TimeType)
    requires ValidFor(v, kind)
    ensures ParseValue(AsString(v), kind) == Ok(v)
  {
    if v.Value? {
      var s := AsString(v);
      assert s != "*";
      assert ReadInt(s) == v.n;
    }
  }

  /** Leading zeros are accepted and dropped: `"0" + s` parses as `s` does. */
  lemma LeadingZeroParsesAlike(s: string, kind: TimeType)
    requires IsNumber(s)
    ensures ParseValue("0" + s, kind) == ParseValue(s, kind)
  {
    LeadingZeroIgnored(s);
    assert IsNumber("0" + s);
    assert ReadInt("0" + s) == ReadInt(s);
  }

  /** `"01"` and `"1"` give the same hour. */
  lemma LeadingZeroExample()
    ensures ParseValue("01", Hours) == ParseValue("1", Hours) == Ok(Value(1, Hours))
  {
    LeadingZeroParsesAlike("1", Hours);
    assert "0" + "1" == "01";
  }

  /** A sign is not a digit: `"-5"` is refused as a number before any range check. */
  lemma NegativeTextIsNotANumber(kind: TimeType)
    ensures ParseValue("-5", kind) == Err(InvalidNumber("-5"))
  {
    assert !IsDigit("-5"[0]);
  }

  /** A digit string too long for `Int` falls back to 0 and is accepted as the value 0. */
  lemma OverflowReadsAsZero(s: string, kind: TimeType)
    requires IsNumber(s) && DigitsValue(s) > IntMax
    ensures ParseValue(s, kind) == Ok(Value(0, kind))
  {
  }

  /** The boundary cases of the test suite: 23 and 59 pass, 24, 60 and negatives fail. */
  lemma RangeBoundaries()
    ensures FromInt(23, Hours).Ok? && FromInt(59, Minutes).Ok?
    ensures FromInt(24, Hours) == Err(InvalidHoursRange(24))
    ensures FromInt(60, Minutes) == Err(InvalidMinutesRange(60))
    ensures FromInt(-12, Hours).Err? && FromInt(-30, Minutes).Err?
  {
  }

  /** Both kinds render as the test suite expects: `"01"` hours as `1`, `"1"` minutes as `01`. */
  lemma RenderingExamples()
    ensures AsString(Value(1, Hours)) == "1"
    ensures AsString(Value(12, Hours)) == "12"
    ensures AsString(Value(1, Minutes)) == "01"
    ensures AsString(Value(12, Minutes)) == "12"
  {
  }

  /**
   * `%d` and `%02d` read only the low 32 bits of the value, so a fixed value built
   * directly through the `.value` case renders like its value less 2^32.
   */
  lemma RenderingNarrowsTo32Bits(n: int, kind: TimeType)
    ensures AsString(Value(n + 2 * Int32Limit, kind)) == AsString(Value(n, kind))
  {
    CIntPeriodic(n);
  }

  /** 2^32 as an hour renders as `0`, and 2^32 + 5 as a minute as `05`. */
  lemma NarrowedRenderingExamples()
    ensures AsString(Value(0x1_0000_0000, Hours)) == "0"
    ensures AsString(Value(0x1_0000_0005, Minutes)) == "05"
  {
    RenderingNarrowsTo32Bits(0, Hours);
    RenderingNarrowsTo32Bits(5, Minutes);
  }

  /** `CronWhen(rawValue:)` inverts `rawValue`. */
  lemma WhenRoundTrip(w: CronWhen)
    ensures WhenFromRaw(WhenRaw(w)) == Some(w)
  {
  }
}
