/**
 * `CronTime.nextTrigger(against:)` (minicron-framework/Model/CronTime.swift): when a
 * daily job next fires, seen from a current time, and whether that is today or tomorrow.
 */
module NextTriggers {
  import opened CronValues
  import opened CronTimes
  import opened CronOutputs

  /**
   * Today when the job is field-equal to the current time or the current time is `<`
   * the job, tomorrow otherwise. Today, the hour is the larger of the two hours and,
   * when the hours are field-equal, the minute the larger of the two minutes; a field
   * not taken that way is the job's own. Any wildcard left over becomes 0.
   */
  function NextTrigger(job: CronTime, current: CronTime): (out: CronOutput)
    ensures out.when == Today <==> TimeEqual(job, current) || TimeLess(current, job)
    ensures Concrete(out.time) && out.time.rawValue == TimeAsString(out.time)
    ensures out.time.hours == job.hours || out.time.hours == current.hours || out.time.hours == Value(0, Hours)
    ensures out.time.minutes == job.minutes || out.time.minutes == current.minutes || out.time.minutes == Value(0, Minutes)
    ensures out.when == Tomorrow ==>
      && out.time.hours == (if job.hours.Wildcard? then Value(0, Hours) else job.hours)
      && out.time.minutes == (if job.minutes.Wildcard? then Value(0, Minutes) else job.minutes)
    ensures out.rawValue == TimeAsString(out.time) + " " + WhenRaw(out.when)
  {
    var equal := TimeEqual(job, current);
    var when := if equal then Today else if TimeLess(current, job) then Today else Tomorrow;
    var h := if when == Today then Max(job.hours, current.hours) else job.hours;
    var m := if when == Today && Equal(job.hours, current.hours) then Max(job.minutes, current.minutes) else job.minutes;
    var h' := if h.Wildcard? then FromInt(0, Hours).value else h;
    var m' := if m.Wildcard? then FromInt(0, Minutes).value else m;
    FromTime(FromFields(h', m'), when)
  }

  /** The concrete time `h:m` is an instance of the job: each fixed field of the job has that number. */
  predicate Matches(job: CronTime, h: int, m: int) {
    (job.hours.Value? ==> job.hours.n == h) && (job.minutes.Value? ==> job.minutes.n == m)
  }

  predicate InDay(h: int, m: int) {
    InRange(h, Hours) && InRange(m, Minutes)
  }

  // ---------------------------------------------------------------------------
  // Properties
  // ---------------------------------------------------------------------------

  /** Valid job and current times give a valid, wildcard-free trigger. */
  lemma TriggerIsValid(job: CronTime, current: CronTime)
    requires Valid(job) && Valid(current)
    ensures Valid(NextTrigger(job, current).time)
  {
  }

  /** The trigger is always an instance of the job's pattern. */
  lemma TriggerMatchesJob(job: CronTime, current: CronTime)
    ensures var t := NextTrigger(job, current).time;
      Matches(job, t.hours.n, t.minutes.n)
  {
  }

  /**
   * A fully fixed job fires at its own time: today exactly when it is not
   * before the current time.
   */
  lemma FixedJob(job: CronTime, current: CronTime)
    requires Concrete(job) && Concrete(current)
    ensures var out := NextTrigger(job, current);
      && (out.when == Today <==> AtOrBefore(current.hours.n, current.minutes.n, job.hours.n, job.minutes.n))
      && out.time == FromFields(job.hours, job.minutes)
  {
    ConcreteOrder(current, job);
    ConcreteOrder(job, current);
  }

  /**
   * A job `*:M` seen from `H:C` fires at `H:M` today when `C <= M`, and otherwise at
   * `0:M` tomorrow rather than in the next hour.
   */
  lemma WildcardHourJob(job: CronTime, current: CronTime)
    requires job.hours.Wildcard? && job.minutes.Value? && Concrete(current)
    ensures var out := NextTrigger(job, current);
      if current.minutes.n <= job.minutes.n then
        out.when == Today && out.time == FromFields(current.hours, job.minutes)
      else
        out.when == Tomorrow && out.time == FromFields(Value(0, Hours), job.minutes)
  {
  }

  /** A job `*:*` fires today, at the current time. */
  lemma EveryMinuteJob(job: CronTime, current: CronTime)
    requires job.hours.Wildcard? && job.minutes.Wildcard? && Concrete(current)
    ensures var out := NextTrigger(job, current);
      out.when == Today && out.time == FromFields(current.hours, current.minutes)
  {
  }

  /** A job `H:*` with `H` after the current hour fires today at `H:00`. */
  lemma WildcardMinuteLaterHourJob(job: CronTime, current: CronTime)
    requires job.hours.Value? && job.minutes.Wildcard? && Concrete(current)
    requires current.hours.n < job.hours.n
    ensures var out := NextTrigger(job, current);
      out.when == Today && out.time == FromFields(job.hours, Value(0, Minutes))
  {
  }

  /**
   * When the job fires today, it fires no earlier than the current time and at the
   * first time of the day that matches the job and is not before the current time.
   */
  lemma TodayIsEarliestFromNow(job: CronTime, current: CronTime)
    requires Valid(job) && Valid(current) && Concrete(current)
    requires NextTrigger(job, current).when == Today
    ensures var t := NextTrigger(job, current).time;
      && AtOrBefore(current.hours.n, current.minutes.n, t.hours.n, t.minutes.n)
      && forall h, m ::
           (InDay(h, m) && Matches(job, h, m) && AtOrBefore(current.hours.n, current.minutes.n, h, m)) ==>
           AtOrBefore(t.hours.n, t.minutes.n, h, m)
  {
  }

  /** When the job fires tomorrow, it fires at the first time of the day that matches the job. */
  lemma TomorrowIsEarliestOfDay(job: CronTime, current: CronTime)
    requires NextTrigger(job, current).when == Tomorrow
    ensures var t := NextTrigger(job, current).time;
      forall h, m :: InDay(h, m) && Matches(job, h, m) ==> AtOrBefore(t.hours.n, t.minutes.n, h, m)
  {
  }

  /** With a fixed hour, a job put off to tomorrow has no matching time left today. */
  lemma FixedHourTomorrowMissesNothing(job: CronTime, current: CronTime)
    requires Valid(job) && Concrete(current) && job.hours.Value?
    requires NextTrigger(job, current).when == Tomorrow
    ensures forall h, m :: InDay(h, m) && Matches(job, h, m) ==>
      !AtOrBefore(current.hours.n, current.minutes.n, h, m)
  {
  }

  /**
   * With a wildcard hour the same does not hold: from `H:C` with `M < C` and
   * `H < 23`, the job `*:M` is put off to tomorrow though `(H+1):M` matches today.
   */
  lemma WildcardHourSkipsLaterToday(job: CronTime, current: CronTime)
    requires Valid(job) && Valid(current) && Concrete(current)
    requires job.hours.Wildcard? && job.minutes.Value?
    requires job.minutes.n < current.minutes.n && current.hours.n < HoursMax
    ensures NextTrigger(job, current).when == Tomorrow
    ensures var h := current.hours.n + 1;
      InDay(h, job.minutes.n) && Matches(job, h, job.minutes.n)
      && AtOrBefore(current.hours.n, current.minutes.n, h, job.minutes.n)
  {
    WildcardHourJob(job, current);
  }

  // ---------------------------------------------------------------------------
  // The scenarios of the test suite
  // ---------------------------------------------------------------------------

  /** A fixed time built as the initialisers build it. */
  function At(h: int, m: int): CronTime {
    FromFields(Value(h, Hours), Value(m, Minutes))
  }

  /** The trigger's text, given the texts of its time and of its day. */
  lemma TriggerRendersAs(job: CronTime, current: CronTime, text: string, day: string)
    requires TimeAsString(NextTrigger(job, current).time) == text
    requires WhenRaw(NextTrigger(job, current).when) == day
    ensures NextTrigger(job, current).rawValue == text + " " + day
  {
  }

  lemma ScenarioSameHourLater()
    ensures NextTrigger(At(15, 30), At(15, 10)).rawValue == "15:30 today"
  {
    FixedJob(At(15, 30), At(15, 10));
    assert TimeAsString(At(15, 30)) == "15:30" by {
      assert AsString(Value(15, Hours)) == "15" && AsString(Value(30, Minutes)) == "30";
    }
    TriggerRendersAs(At(15, 30), At(15, 10), "15:30", "today");
    assert "15:30" + " " + "today" == "15:30 today";
  }

  lemma ScenarioEqualIsToday()
    ensures NextTrigger(At(23, 59), At(23, 59)).rawValue == "23:59 today"
  {
    FixedJob(At(23, 59), At(23, 59));
    assert TimeAsString(At(23, 59)) == "23:59" by {
      assert AsString(Value(23, Hours)) == "23" && AsString(Value(59, Minutes)) == "59";
    }
    TriggerRendersAs(At(23, 59), At(23, 59), "23:59", "today");
    assert "23:59" + " " + "today" == "23:59 today";
  }

  lemma ScenarioEarlierHourIsTomorrow()
    ensures NextTrigger(At(14, 30), At(15, 10)).rawValue == "14:30 tomorrow"
  {
    FixedJob(At(14, 30), At(15, 10));
    assert TimeAsString(At(14, 30)) == "14:30" by {
      assert AsString(Value(14, Hours)) == "14" && AsString(Value(30, Minutes)) == "30";
    }
    TriggerRendersAs(At(14, 30), At(15, 10), "14:30", "tomorrow");
    assert "14:30" + " " + "tomorrow" == "14:30 tomorrow";
  }

  lemma ScenarioMidnightIsTomorrow()
    ensures NextTrigger(At(0, 0), At(23, 59)).rawValue == "0:00 tomorrow"
  {
    FixedJob(At(0, 0), At(23, 59));
    assert TimeAsString(At(0, 0)) == "0:00" by {
      assert AsString(Value(0, Hours)) == "0" && AsString(Value(0, Minutes)) == "00";
    }
    TriggerRendersAs(At(0, 0), At(23, 59), "0:00", "tomorrow");
    assert "0:00" + " " + "tomorrow" == "0:00 tomorrow";
  }

  lemma ScenarioWildcardHourToday()
    ensures NextTrigger(FromFields(Wildcard, Value(30, Minutes)), At(15, 10)).rawValue == "15:30 today"
  {
    WildcardHourJob(FromFields(Wildcard, Value(30, Minutes)), At(15, 10));
    assert TimeAsString(At(15, 30)) == "15:30" by {
      assert AsString(Value(15, Hours)) == "15" && AsString(Value(30, Minutes)) == "30";
    }
    TriggerRendersAs(FromFields(Wildcard, Value(30, Minutes)), At(15, 10), "15:30", "today");
    assert "15:30" + " " + "today" == "15:30 today";
  }

  lemma ScenarioWildcardHourTomorrow()
    ensures NextTrigger(FromFields(Wildcard, Value(15, Minutes)), At(23, 30)).rawValue == "0:15 tomorrow"
  {
    WildcardHourJob(FromFields(Wildcard, Value(15, Minutes)), At(23, 30));
    assert TimeAsString(At(0, 15)) == "0:15" by {
      assert AsString(Value(0, Hours)) == "0" && AsString(Value(15, Minutes)) == "15";
    }
    TriggerRendersAs(FromFields(Wildcard, Value(15, Minutes)), At(23, 30), "0:15", "tomorrow");
    assert "0:15" + " " + "tomorrow" == "0:15 tomorrow";
  }

  lemma ScenarioEveryMinute()
    ensures NextTrigger(FromFields(Wildcard, Wildcard), At(15, 10)).rawValue == "15:10 today"
  {
    EveryMinuteJob(FromFields(Wildcard, Wildcard), At(15, 10));
    assert TimeAsString(At(15, 10)) == "15:10" by {
      assert AsString(Value(15, Hours)) == "15" && AsString(Value(10, Minutes)) == "10";
    }
    TriggerRendersAs(FromFields(Wildcard, Wildcard), At(15, 10), "15:10", "today");
    assert "15:10" + " " + "today" == "15:10 today";
  }

  lemma ScenarioWildcardMinuteLaterHour()
    ensures NextTrigger(FromFields(Value(19, Hours), Wildcard), At(16, 10)).rawValue == "19:00 today"
  {
    WildcardMinuteLaterHourJob(FromFields(Value(19, Hours), Wildcard), At(16, 10));
    assert TimeAsString(At(19, 0)) == "19:00" by {
      assert AsString(Value(19, Hours)) == "19" && AsString(Value(0, Minutes)) == "00";
    }
    TriggerRendersAs(FromFields(Value(19, Hours), Wildcard), At(16, 10), "19:00", "today");
    assert "19:00" + " " + "today" == "19:00 today";
  }
}
