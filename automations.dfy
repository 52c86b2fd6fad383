/**
 * The development cron simulation of lib/automations.ts: once a minute
 * `startAutomationScheduler` reads the clock and starts the job whose
 * trigger time it is, and each job is a wrapper that logs, runs its
 * step and logs again, catching any error.
 */
module Automations {
  import opened Database

  datatype Job =
    | CreateDailyPolls
    | SendPrePollNotifications
    | ActivatePolls
    | CleanupOldData
    | GenerateWeeklyAnalytics

  /** The clock fields the scheduler reads: `getDay()`, `getHours()`, `getMinutes()`. */
  datatype Clock = Clock(weekday: nat, hour: nat, minute: nat)

  const MinuteMs: nat := 60_000
  const MinutesPerDay: nat := 1440

  /** The minute of the day of a timestamp (time zone left out). */
  function MinuteOfDay(t: int): (m: nat)
    ensures m < MinutesPerDay
  {
    (t / MinuteMs) % MinutesPerDay
  }

  /** The clock fields of a timestamp; day 0 of the epoch was a Thursday (`getDay() == 4`). */
  function ClockOf(t: int): (c: Clock)
    ensures c.weekday < 7 && c.hour < 24 && c.minute < 60
    ensures c.hour * 60 + c.minute == MinuteOfDay(t)
  {
    Clock((Day(t) + 4) % 7, MinuteOfDay(t) / 60, MinuteOfDay(t) % 60)
  }

  /** The jobs one scheduler tick starts at the given clock reading. */
  function DueJobs(c: Clock): (due: set<Job>)
    ensures forall j :: j in due ==> TriggerMinute(j) == c.hour * 60 + c.minute
    ensures GenerateWeeklyAnalytics in due ==> c.weekday == 0
  {
    (if c.hour == 0 && c.minute == 5 then {CreateDailyPolls} else {})
    + (if c.hour == 12 && c.minute == 59 then {SendPrePollNotifications} else {})
    + (if c.hour == 13 && c.minute == 0 then {ActivatePolls} else {})
    + (if c.hour == 2 && c.minute == 0 then {CleanupOldData} else {})
    + (if c.weekday == 0 && c.hour == 3 && c.minute == 0 then {GenerateWeeklyAnalytics} else {})
  }

  /** The minute of the day at which a job fires (the weekly one only on Sundays). */
  function TriggerMinute(j: Job): (m: nat)
    ensures m < MinutesPerDay
  {
    match j
    case CreateDailyPolls => 0 * 60 + 5
    case SendPrePollNotifications => 12 * 60 + 59
    case ActivatePolls => 13 * 60 + 0
    case CleanupOldData => 2 * 60 + 0
    case GenerateWeeklyAnalytics => 3 * 60 + 0
  }

  /**
   * A job is due exactly in its own minute of the day, and the weekly
   * analytics job only when that day is a Sunday.
   */
  lemma DueExactlyAtTrigger(c: Clock, j: Job)
    requires c.hour < 24 && c.minute < 60
    ensures j in DueJobs(c) <==>
      c.hour * 60 + c.minute == TriggerMinute(j) && (j == GenerateWeeklyAnalytics ==> c.weekday == 0)
  {
  }

  /**
   * The five trigger times are pairwise distinct, so one tick starts at
   * most one job, and none outside the trigger minutes.
   */
  lemma AtMostOneJob(c: Clock)
    ensures |DueJobs(c)| <= 1
    ensures (forall j :: c.hour * 60 + c.minute != TriggerMinute(j)) ==> DueJobs(c) == {}
    ensures forall j, k :: j in DueJobs(c) && k in DueJobs(c) ==> j == k
  {
    var due := DueJobs(c);
    if c.hour == 0 && c.minute == 5 {
      assert due == {CreateDailyPolls} && TriggerMinute(CreateDailyPolls) == c.hour * 60 + c.minute;
    } else if c.hour == 12 && c.minute == 59 {
      assert due == {SendPrePollNotifications} && TriggerMinute(SendPrePollNotifications) == c.hour * 60 + c.minute;
    } else if c.hour == 13 && c.minute == 0 {
      assert due == {ActivatePolls} && TriggerMinute(ActivatePolls) == c.hour * 60 + c.minute;
    } else if c.hour == 2 && c.minute == 0 {
      assert due == {CleanupOldData} && TriggerMinute(CleanupOldData) == c.hour * 60 + c.minute;
    } else if c.weekday == 0 && c.hour == 3 && c.minute == 0 {
      assert due == {GenerateWeeklyAnalytics} && TriggerMinute(GenerateWeeklyAnalytics) == c.hour * 60 + c.minute;
    } else {
      assert due == {};
    }
  }

  /**
   * On a real clock, a daily job fires in exactly one minute of each day:
   * the timestamps at which it is due are those whose minute of the day is
   * its trigger minute.
   */
  lemma DailyJobOncePerDay(t: int, j: Job)
    requires j != GenerateWeeklyAnalytics
    ensures j in DueJobs(ClockOf(t)) <==> MinuteOfDay(t) == TriggerMinute(j)
  {
    var c := ClockOf(t);
    DueExactlyAtTrigger(c, j);
  }

  /** The weekly analytics fire on Sundays only, at 03:00. */
  lemma WeeklyJobOnSundays(t: int)
    ensures GenerateWeeklyAnalytics in DueJobs(ClockOf(t)) <==>
      (Day(t) + 4) % 7 == 0 && MinuteOfDay(t) == 3 * 60
  {
    DueExactlyAtTrigger(ClockOf(t), GenerateWeeklyAnalytics);
  }

  /** A console line written by a job wrapper. */
  datatype LogLine = Info(message: string)

  /** What a wrapper logs before its step. */
  function StartMessage(j: Job): string {
    match j
    case CreateDailyPolls => "Creating daily polls..."
    case SendPrePollNotifications => "Sending pre-poll notifications..."
    case ActivatePolls => "Activating polls..."
    case CleanupOldData => "Cleaning up old data..."
    case GenerateWeeklyAnalytics => "Generating weekly analytics..."
  }

  /** What a wrapper logs once its step has returned. */
  function DoneMessage(j: Job): string {
    match j
    case CreateDailyPolls => "Daily polls created successfully"
    case SendPrePollNotifications => "Pre-poll notifications sent successfully"
    case ActivatePolls => "Polls activated successfully"
    case CleanupOldData => "Old data cleaned up successfully"
    case GenerateWeeklyAnalytics => "Weekly analytics generated successfully"
  }

  /**
   * One job wrapper: logs, runs the job's step against the store, logs
   * success. Only `createDailyPolls` and `cleanupOldData` touch the store;
   * the store steps modelled here never fail, so the catch branch that
   * would log an error is never taken and nothing is rethrown.
   */
  method RunJob(db: MockDatabase, j: Job, now: int) returns (log: seq<LogLine>)
    requires db.Valid()
    modifies db
    ensures db.Valid()
    ensures log == [Info(StartMessage(j)), Info(DoneMessage(j))]
    ensures j == CreateDailyPolls ==>
      db.dailyPolls == old(db.dailyPolls) + RoundRobin(db.schools, DailyTemplates, old(db.nextId), now + DayMs, now)
      && db.nextId == old(db.nextId) + |db.schools|
    ensures j == CleanupOldData ==>
      db.dailyPolls == KeepSince(old(db.dailyPolls), ScheduledFor, Cutoff(now))
      && db.responses == KeepSince(old(db.responses), SubmittedAt, Cutoff(now))
    ensures j != CreateDailyPolls && j != CleanupOldData ==>
      db.dailyPolls == old(db.dailyPolls) && db.responses == old(db.responses) && db.nextId == old(db.nextId)
    ensures db.users == old(db.users) && db.schools == old(db.schools)
    ensures j != CleanupOldData ==> db.responses == old(db.responses)
    ensures j != CreateDailyPolls ==> db.nextId == old(db.nextId)
  {
    log := [Info(StartMessage(j))];
    match j {
      case CreateDailyPolls => db.CreateDailyPolls(now);
      case CleanupOldData => db.CleanupOldData(now);
      case _ =>
    }
    log := log + [Info(DoneMessage(j))];
  }

  /**
   * `startAutomationScheduler` at time `now`: starts the job that is due,
   * if any, and otherwise leaves the store alone.
   */
  method RunScheduler(db: MockDatabase, now: int) returns (log: seq<LogLine>)
    requires db.Valid()
    modifies db
    ensures db.Valid()
    ensures DueJobs(ClockOf(now)) == {} ==>
      log == [] && db.dailyPolls == old(db.dailyPolls) && db.responses == old(db.responses) && db.nextId == old(db.nextId)
    ensures forall j :: j in DueJobs(ClockOf(now)) ==> log == [Info(StartMessage(j)), Info(DoneMessage(j))]
    ensures CreateDailyPolls in DueJobs(ClockOf(now)) ==>
      db.dailyPolls == old(db.dailyPolls) + RoundRobin(db.schools, DailyTemplates, old(db.nextId), now + DayMs, now)
      && db.responses == old(db.responses) && db.nextId == old(db.nextId) + |db.schools|
    ensures CleanupOldData in DueJobs(ClockOf(now)) ==>
      db.dailyPolls == KeepSince(old(db.dailyPolls), ScheduledFor, Cutoff(now))
      && db.responses == KeepSince(old(db.responses), SubmittedAt, Cutoff(now))
      && db.nextId == old(db.nextId)
    ensures forall j :: j in DueJobs(ClockOf(now)) && j != CreateDailyPolls && j != CleanupOldData ==>
      db.dailyPolls == old(db.dailyPolls) && db.responses == old(db.responses) && db.nextId == old(db.nextId)
    ensures db.users == old(db.users) && db.schools == old(db.schools)
  {
    var c := ClockOf(now);
    AtMostOneJob(c);
    log := [];
    if c.hour == 0 && c.minute == 5 {
      log := RunJob(db, CreateDailyPolls, now);
    }
    if c.hour == 12 && c.minute == 59 {
      log := RunJob(db, SendPrePollNotifications, now);
    }
    if c.hour == 13 && c.minute == 0 {
      log := RunJob(db, ActivatePolls, now);
    }
    if c.hour == 2 && c.minute == 0 {
      log := RunJob(db, CleanupOldData, now);
    }
    if c.weekday == 0 && c.hour == 3 && c.minute == 0 {
      log := RunJob(db, GenerateWeeklyAnalytics, now);
    }
  }
}
