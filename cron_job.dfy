/**
 * One line of the job configuration: `minute hour task`.
 * Mirrors minicron-framework/Model/CronJob.swift.
 */
module CronJobs {
  import opened Outcomes
  import opened Strings
  import opened CronValues
  import opened CronTimes

  datatype JobFormatError = InvalidParametersCount(count: int) | InvalidConfigValue(text: string)

  /** What `init(line:)` can throw: its own format error, or a field error passed on unchanged. */
  datatype JobError = Format(format: JobFormatError) | Field(field: CronError)

  datatype CronJob = CronJob(time: CronTime, task: string)

  /**
   * `init(line:)`: the line is cut at every whitespace character and must give
   * exactly three pieces: minute, hour, task. The hour is parsed before the
   * minute; wildcards are allowed; the task is kept as it is.
   */
  function ParseJob(line: string): (r: Result<CronJob, JobError>)
    ensures Count(line, IsWhitespace) != 2 ==> r == Err(Format(InvalidParametersCount(Count(line, IsWhitespace) + 1)))
    ensures r.Err? && r.error.Format? <==> Count(line, IsWhitespace) != 2
    ensures var v := Split(line, IsWhitespace);
      |v| == 3 ==>
        && (r.Ok? <==> ParseValue(v[1], Hours).Ok? && ParseValue(v[0], Minutes).Ok?)
        && (ParseValue(v[1], Hours).Err? ==> r == Err(Field(ParseValue(v[1], Hours).error)))
        && (ParseValue(v[1], Hours).Ok? && ParseValue(v[0], Minutes).Err? ==>
              r == Err(Field(ParseValue(v[0], Minutes).error)))
        && (r.Ok? ==>
              && r.value.time.hours == ParseValue(v[1], Hours).value
              && r.value.time.minutes == ParseValue(v[0], Minutes).value
              && r.value.task == v[2])
    ensures r.Ok? ==> Valid(r.value.time) && NoneIn(r.value.task, IsWhitespace)
  {
    var values := Split(line, IsWhitespace);
    if |values| != 3 then
      Err(Format(InvalidParametersCount(|values|)))
    else
      var m, h, t := values[0], values[1], values[2];
      match ParseValue(h, Hours)
      case Err(e) => Err(Field(e))
      case Ok(hours) =>
        match ParseValue(m, Minutes)
        case Err(e) => Err(Field(e))
        case Ok(minutes) => Ok(CronJob(FromFields(hours, minutes), t))
  }

  // ---------------------------------------------------------------------------
  // Properties
  // ---------------------------------------------------------------------------

  /** A line of three whitespace-free tokens joined by single spaces splits back into them. */
  lemma SplitThreeTokens(minute: string, hour: string, task: string)
    requires NoneIn(minute, IsWhitespace) && NoneIn(hour, IsWhitespace) && NoneIn(task, IsWhitespace)
    ensures Split(minute + " " + hour + " " + task, IsWhitespace) == [minute, hour, task]
  {
    var parts := [minute, hour, task];
    assert parts[1..] == [hour, task] && parts[1..][1..] == [task];
    assert Join([hour, task], ' ') == hour + " " + task;
    assert Join(parts, ' ') == minute + " " + (hour + " " + task);
    assert minute + " " + (hour + " " + task) == minute + " " + hour + " " + task;
    SplitJoin(parts, ' ', IsWhitespace);
  }

  /** Writing a valid job back as `minute hour task` and parsing it gives the same job. */
  lemma JobLineRoundTrip(job: CronJob)
    requires Valid(job.time) && NoneIn(job.task, IsWhitespace)
    ensures ParseJob(AsString(job.time.minutes) + " " + AsString(job.time.hours) + " " + job.task) == Ok(job)
  {
    var m, h := AsString(job.time.minutes), AsString(job.time.hours);
    assert NoneIn(m, IsWhitespace) && NoneIn(h, IsWhitespace);
    SplitThreeTokens(m, h, job.task);
    ParseAsString(job.time.hours, Hours);
    ParseAsString(job.time.minutes, Minutes);
  }

  /** When both fields of a well-split line are bad, the hours error is the one reported. */
  lemma HoursErrorWins(minute: string, hour: string, task: string)
    requires NoneIn(minute, IsWhitespace) && NoneIn(hour, IsWhitespace) && NoneIn(task, IsWhitespace)
    requires ParseValue(hour, Hours).Err? && ParseValue(minute, Minutes).Err?
    ensures ParseJob(minute + " " + hour + " " + task) == Err(Field(ParseValue(hour, Hours).error))
  {
    SplitThreeTokens(minute, hour, task);
  }

  /** A doubled space makes an empty fourth piece, so the line is refused by its count. */
  lemma DoubledSpaceFails()
    ensures ParseJob("30  1 run") == Err(Format(InvalidParametersCount(4)))
  {
    assert Count("30  1 run", IsWhitespace) == 3;
  }

  /** `30 1 backup` is the job at 1:30 running `backup`. */
  lemma DailyJobExample()
    ensures ParseJob("30 1 backup") ==
      Ok(CronJob(FromFields(Value(1, Hours), Value(30, Minutes)), "backup"))
  {
    var job := CronJob(FromFields(Value(1, Hours), Value(30, Minutes)), "backup");
    assert NoneIn("backup", IsWhitespace) by {
      forall i | 0 <= i < 6 ensures !IsWhitespace("backup"[i]) {
        assert 'a' <= "backup"[i] <= 'z';
      }
    }
    assert Valid(job.time);
    JobLineRoundTrip(job);
    var m, h := AsString(job.time.minutes), AsString(job.time.hours);
    assert m == "30" && h == "1";
    assert m + " " + h + " " + "backup" == "30 1 backup";
  }
}
