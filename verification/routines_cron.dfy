/** Which schedules a create or update accepts, and what that means for sparse ones. */
module RoutinesCron {
  import opened Sequences
  import opened Frontmatter
  import opened Routines
  import opened Cron
  import opened SchedulerRuns
  import opened SchedulerServed
  import Scheduler

  /** `validate_cron` at a clock reading: no schedule is fine, and a schedule that is no string raises. */
  function ValidateCron(cal: Calendar, now: int): Value -> CronVerdict {
    (schedule: Value) =>
      if !Truthy(schedule) then Valid
      else if !schedule.Str? then Raises
      else
        match NextFire(schedule.s, cal, Scheduler.MinuteOf(now))
        case At(_) => Valid
        case Never => Invalid
        case Raised => Raises
  }

  /** A schedule is accepted exactly when it is empty or names a minute within eight days of the request. */
  lemma AcceptedIff(schedule: string, cal: Calendar, now: int)
    ensures ValidateCron(cal, now)(Str(schedule)) == Valid
      <==> schedule == "" || HorizonHits(schedule, cal, Scheduler.MinuteOf(now))
  {
    NextFireFoundIff(schedule, cal, Scheduler.MinuteOf(now));
  }

  /** Where all else is in order, creating a routine with the monthly schedule succeeds exactly when a first of the
      month at ten is within eight days. */
  lemma MonthlyAcceptedIff(store: map<string, Spec>, req: Request, cal: Calendar, now: int)
    requires "schedule" in req.fields && req.fields["schedule"] == Str(MONTHLY)
    requires CreateOutcome(store, req, _ => Valid).Done?
    ensures CreateOutcome(store, req, ValidateCron(cal, now)).Done?
      <==> FirstWithin(cal, Scheduler.MinuteOf(now), HORIZON)
  {
    MonthlyFoundIff(cal, Scheduler.MinuteOf(now));
    AcceptedIff(MONTHLY, cal, now);
    assert "schedule"[0] == 's' && "id"[0] == 'i';
    assert Routines.Field(Identified(req).1, "schedule", Null) == Str(MONTHLY);
  }
}
