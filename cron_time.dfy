/**
 * An hour/minute pair of cron fields, its text form and its ordering.
 * Mirrors minicron-framework/Model/CronTime.swift (all but `nextTrigger`, which
 * returns a `CronOutput` and so has its own module, NextTriggers, after CronOutputs).
 */
module CronTimes {
  import opened Outcomes
  import opened Strings
  import opened CronValues

  /** The immutable time; `rawValue` is the text the initialisers store beside the fields. */
  datatype CronTime = CronTime(hours: CronValue, minutes: CronValue, rawValue: string)

  /** `asString()`: the two field texts joined by `:`. */
  function TimeAsString(t: CronTime): (s: string)
    ensures forall i :: 0 <= i < |s| ==> IsDigit(s[i]) || s[i] in "-*:"
  {
    var h, m := AsString(t.hours), AsString(t.minutes);
    var s := h + ":" + m;
    assert forall i :: 0 <= i < |s| ==> IsDigit(s[i]) || s[i] in "-*:" by {
      forall i | 0 <= i < |s| ensures IsDigit(s[i]) || s[i] in "-*:" {
        if i < |h| {
          assert s[i] == h[i];
        } else if i > |h| {
          assert s[i] == m[i - |h| - 1];
        }
      }
    }
    s
  }

  /** The text of a time cuts at its one `:` into exactly the hours text and the minutes text. */
  lemma TimeTextSplits(t: CronTime)
    ensures Split(TimeAsString(t), IsColon) == [AsString(t.hours), AsString(t.minutes)]
  {
    var h, m := AsString(t.hours), AsString(t.minutes);
    assert NoneIn(h, IsColon) && NoneIn(m, IsColon);
    assert Join([h, m], ':') == TimeAsString(t) by {
      assert [h, m][1..] == [m];
    }
    SplitJoin([h, m], ':', IsColon);
  }

  /** Both fields hold values valid for their roles, and the stored text is the rendering. */
  predicate Valid(t: CronTime) {
    ValidFor(t.hours, Hours) && ValidFor(t.minutes, Minutes) && t.rawValue == TimeAsString(t)
  }

  /** Neither field is a wildcard. */
  predicate Concrete(t: CronTime) {
    t.hours.Value? && t.minutes.Value?
  }

  /** `init(hours:minutes:)`: stores the fields as given, unvalidated, with their rendering. */
  function FromFields(hours: CronValue, minutes: CronValue): (t: CronTime)
    ensures t.hours == hours && t.minutes == minutes
    ensures t.rawValue == TimeAsString(t)
    ensures ValidFor(hours, Hours) && ValidFor(minutes, Minutes) ==> Valid(t)
  {
    var t := CronTime(hours, minutes, "");
    t.(rawValue := TimeAsString(t))
  }

  /**
   * `init?(rawValue:)`: exactly one `:`, an hours field before it and a minutes
   * field after it; the stored text is re-rendered, so `"01:5"` becomes `"1:05"`.
   */
  function ParseTime(raw: string): (r: Option<CronTime>)
    ensures var c := Split(raw, IsColon);
      r.Some? <==> |c| == 2 && ParseValue(c[0], Hours).Ok? && ParseValue(c[1], Minutes).Ok?
    ensures Count(raw, IsColon) != 1 ==> r == None
    ensures var c := Split(raw, IsColon);
      r.Some? ==>
        r.value.hours == ParseValue(c[0], Hours).value && r.value.minutes == ParseValue(c[1], Minutes).value
    ensures r.Some? ==> Valid(r.value)
  {
    var comps := Split(raw, IsColon);
    if |comps| == 2 then
      match (ParseValue(comps[0], Hours), ParseValue(comps[1], Minutes))
      case (Ok(hours), Ok(minutes)) => Some(FromFields(hours, minutes))
      case _ => None
    else
      None
  }

  /** `init(_:_:)`: hours are validated before minutes, so the hours error wins. */
  function FromInts(hours: int, minutes: int): (r: Result<CronTime, CronError>)
    ensures r.Ok? <==> InRange(hours, Hours) && InRange(minutes, Minutes)
    ensures !InRange(hours, Hours) ==> r == Err(InvalidHoursRange(hours))
    ensures InRange(hours, Hours) && !InRange(minutes, Minutes) ==> r == Err(InvalidMinutesRange(minutes))
    ensures r.Ok? ==> Valid(r.value) && Concrete(r.value)
    ensures r.Ok? ==> r.value.hours.n == hours && r.value.minutes.n == minutes
  {
    var h :- FromInt(hours, Hours);
    var m :- FromInt(minutes, Minutes);
    Ok(FromFields(h, m))
  }

  /** `<`: the minutes decide when the hours are field-equal, the hours decide otherwise. */
  predicate TimeLess(l: CronTime, r: CronTime) {
    if Equal(l.hours, r.hours) then Less(l.minutes, r.minutes) else Less(l.hours, r.hours)
  }

  /** `==`: both fields field-equal, so a wildcard matches anything. */
  predicate TimeEqual(l: CronTime, r: CronTime) {
    Equal(l.hours, r.hours) && Equal(l.minutes, r.minutes)
  }

  /** The usual order on concrete times of day: hours first, then minutes. */
  predicate AtOrBefore(h1: int, m1: int, h2: int, m2: int) {
    h1 < h2 || (h1 == h2 && m1 <= m2)
  }

  // ---------------------------------------------------------------------------
  // Properties
  // ---------------------------------------------------------------------------

  /** Every time is `<` itself and `==` itself, wildcards included. */
  lemma TimeLessReflexive(t: CronTime)
    ensures TimeLess(t, t) && TimeEqual(t, t)
  {
  }

  /** On concrete times `<` is the lexicographic `<=` and `==` compares the numbers. */
  lemma ConcreteOrder(l: CronTime, r: CronTime)
    requires Concrete(l) && Concrete(r)
    ensures TimeLess(l, r) <==> AtOrBefore(l.hours.n, l.minutes.n, r.hours.n, r.minutes.n)
    ensures TimeEqual(l, r) <==> l.hours.n == r.hours.n && l.minutes.n == r.minutes.n
  {
  }

  /** Parsing the rendering of a valid time gives the same time back. */
  lemma TimeRoundTrip(t: CronTime)
    requires Valid(t)
    ensures ParseTime(TimeAsString(t)) == Some(t)
  {
    TimeTextSplits(t);
    ParseAsString(t.hours, Hours);
    ParseAsString(t.minutes, Minutes);
  }

  /** The stored text of a parsed time is in normal form: parsing it again changes nothing. */
  lemma ParseTimeNormalises(raw: string)
    requires ParseTime(raw).Some?
    ensures ParseTime(ParseTime(raw).value.rawValue) == ParseTime(raw)
  {
    TimeRoundTrip(ParseTime(raw).value);
  }

  /** `"01:5"` is accepted and stored as `"1:05"`. */
  lemma ParseTimeNormalisesExample()
    ensures ParseTime("01:5") == Some(CronTime(Value(1, Hours), Value(5, Minutes), "1:05"))
  {
    assert Split("01:5", IsColon) == ["01", "5"] by {
      SplitJoin(["01", "5"], ':', IsColon);
      assert Join(["01", "5"], ':') == "01:5";
    }
    LeadingZeroExample();
    assert ParseValue("5", Minutes) == Ok(Value(5, Minutes));
    assert AsString(Value(1, Hours)) == "1" && AsString(Value(5, Minutes)) == "05";
    assert TimeAsString(CronTime(Value(1, Hours), Value(5, Minutes), "")) == "1:05";
  }

  /** A missing or a doubled `:` is refused. */
  lemma ParseTimeSeparatorExamples()
    ensures ParseTime("1205") == None
    ensures ParseTime("1:2:3") == None
  {
    assert Count("1205", IsColon) == 0;
    assert Count("1:2:3", IsColon) == 2;
  }

  /** The test-suite boundaries: hour 24 and minute 60 throw, and the hours error is reported first. */
  lemma FromIntsExamples()
    ensures FromInts(24, 0) == Err(InvalidHoursRange(24))
    ensures FromInts(0, 60) == Err(InvalidMinutesRange(60))
    ensures FromInts(24, 60) == Err(InvalidHoursRange(24))
    ensures FromInts(1, 1).Ok? && TimeAsString(FromInts(1, 1).value) == "1:01"
  {
  }

  /**
   * The comparator tests, plus the reverse of the `*:00` one: `*:00` is `<` `12:00`
   * and `12:00` is also `<` `*:00`; equal times and `*:*` are `<` themselves.
   */
  lemma ComparatorExamples()
    ensures TimeLess(FromFields(Value(15, Hours), Value(10, Minutes)), FromFields(Value(15, Hours), Value(30, Minutes)))
    ensures TimeLess(FromFields(Value(0, Hours), Value(15, Minutes)), FromFields(Value(23, Hours), Value(30, Minutes)))
    ensures TimeLess(FromFields(Value(12, Hours), Value(0, Minutes)), FromFields(Value(12, Hours), Value(0, Minutes)))
    ensures TimeLess(FromFields(Wildcard, Value(0, Minutes)), FromFields(Value(12, Hours), Value(0, Minutes)))
    ensures TimeLess(FromFields(Value(12, Hours), Value(0, Minutes)), FromFields(Wildcard, Value(0, Minutes)))
    ensures TimeLess(FromFields(Wildcard, Wildcard), FromFields(Wildcard, Wildcard))
    ensures TimeLess(FromFields(Value(15, Hours), Value(10, Minutes)), FromFields(Wildcard, Value(30, Minutes)))
    ensures TimeLess(FromFields(Wildcard, Value(15, Minutes)), FromFields(Value(23, Hours), Value(30, Minutes)))
  {
  }
}
