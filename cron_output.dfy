/**
 * The result of a next-trigger query: a time and today/tomorrow, with its text
 * `"H:MM today"`. Mirrors minicron-framework/Model/CronOutput.swift.
 */
module CronOutputs {
  import opened Outcomes
  import opened Strings
  import opened CronValues
  import opened CronTimes

  /** The immutable output; `rawValue` is the text it was rendered to or parsed from. */
  datatype CronOutput = CronOutput(time: CronTime, when: CronWhen, rawValue: string)

  /**
   * What `init?(rawValue:)` does with a text: builds an output, returns `nil`, or
   * traps on `parts[1]` because the text has no whitespace to split at.
   */
  datatype OutputParse = Parsed(output: CronOutput) | Rejected | OutOfBounds

  /** `init(time:when:)`: keeps both parts and renders them separated by one space. */
  function FromTime(time: CronTime, when: CronWhen): (out: CronOutput)
    ensures out.time == time && out.when == when
    ensures out.rawValue == TimeAsString(time) + " " + WhenRaw(when)
  {
    CronOutput(time, when, TimeAsString(time) + " " + WhenRaw(when))
  }

  /**
   * `init?(rawValue:)`: split at whitespace; the first piece must parse as a time,
   * then the second must be `today` or `tomorrow`. Further pieces are ignored and
   * the input text is kept verbatim.
   */
  function ParseOutput(raw: string): (r: OutputParse)
    ensures var parts := Split(raw, IsWhitespace);
      r.OutOfBounds? <==> ParseTime(parts[0]).Some? && Count(raw, IsWhitespace) == 0
    ensures var parts := Split(raw, IsWhitespace);
      r.Parsed? <==> |parts| >= 2 && ParseTime(parts[0]).Some? && WhenFromRaw(parts[1]).Some?
    ensures var parts := Split(raw, IsWhitespace);
      r.Parsed? ==>
        && r.output.time == ParseTime(parts[0]).value
        && r.output.when == WhenFromRaw(parts[1]).value
        && r.output.rawValue == raw
  {
    var parts := Split(raw, IsWhitespace);
    match ParseTime(parts[0])
    case None => Rejected
    case Some(time) =>
      if |parts| < 2 then OutOfBounds
      else
        match WhenFromRaw(parts[1])
        case None => Rejected
        case Some(when) => Parsed(CronOutput(time, when, raw))
  }

  // ---------------------------------------------------------------------------
  // Properties
  // ---------------------------------------------------------------------------

  /** Parsing the text of a rendered output gives back the same output. */
  lemma OutputRoundTrip(time: CronTime, when: CronWhen)
    requires Valid(time)
    ensures ParseOutput(FromTime(time, when).rawValue) == Parsed(FromTime(time, when))
  {
    var s, w := TimeAsString(time), WhenRaw(when);
    assert NoneIn(s, IsWhitespace);
    assert NoneIn(w, IsWhitespace);
    SplitJoin([s, w], ' ', IsWhitespace);
    assert Join([s, w], ' ') == s + " " + w;
    TimeRoundTrip(time);
    WhenRoundTrip(when);
  }

  /** The rendering of a today output of the test suite. */
  lemma RenderingTodayExample()
    ensures FromTime(FromFields(Value(15, Hours), Value(30, Minutes)), Today).rawValue == "15:30 today"
  {
    var t := FromFields(Value(15, Hours), Value(30, Minutes));
    assert AsString(Value(15, Hours)) == "15" && AsString(Value(30, Minutes)) == "30";
    assert TimeAsString(t) == "15:30";
    assert "15:30" + " " + "today" == "15:30 today";
  }

  /** The rendering of a tomorrow output of the test suite. */
  lemma RenderingTomorrowExample()
    ensures FromTime(FromFields(Value(0, Hours), Value(0, Minutes)), Tomorrow).rawValue == "0:00 tomorrow"
  {
    var t := FromFields(Value(0, Hours), Value(0, Minutes));
    assert AsString(Value(0, Hours)) == "0" && AsString(Value(0, Minutes)) == "00";
    assert TimeAsString(t) == "0:00";
    assert "0:00" + " " + "tomorrow" == "0:00 tomorrow";
  }

  /** A valid time with no day after it makes `init?(rawValue:)` index past the end. */
  lemma MissingDayTraps()
    ensures ParseOutput("15:30") == OutOfBounds
  {
    var t := FromFields(Value(15, Hours), Value(30, Minutes));
    assert AsString(Value(15, Hours)) == "15" && AsString(Value(30, Minutes)) == "30";
    assert TimeAsString(t) == "15:30";
    TimeRoundTrip(t);
    SplitNoSeparator("15:30", IsWhitespace);
  }
}
