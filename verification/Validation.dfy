/** When the worker validates a backup by restoring it (worker.js validationWindowInfo to
    backupValidationPlan, and its use in runBackup). Local time is milliseconds in which every day has 24
    hours; days are numbered, day 0 is a Thursday. */
module Validation {
  import opened Runs

  type Time = int
  type Day = int

  const MINUTE_MS: int := 60 * 1000
  const DAY_MS: int := 24 * 60 * MINUTE_MS
  const DAY_MINUTES: nat := 24 * 60

  function DayOf(t: Time): Day { t / DAY_MS }
  function MinuteOf(t: Time): int { t % DAY_MS / MINUTE_MS }
  function WeekdayOf(day: Day): nat { (day + 4) % 7 }

  /** Days are 24 hours, minutes 60 seconds, and weekdays go round from day 0, a Thursday. */
  lemma ClockExactly(t: Time)
    ensures DayOf(t) * 86400000 + MinuteOf(t) * 60000 <= t < DayOf(t) * 86400000 + (MinuteOf(t) + 1) * 60000
    ensures 0 <= MinuteOf(t) < 1440
    ensures WeekdayOf(0) == 4 && forall d :: WeekdayOf(d + 1) == if WeekdayOf(d) == 6 then 0 else WeekdayOf(d) + 1
  {
  }

  // ----- the calendar -----

  /** parseValidationWeekdays; the weekdays are distinct and none where the text is unusable. */
  datatype Policy = Disabled | Invalid | Daily | Weekdays(days: seq<nat>)

  predicate ValidPolicy(p: Policy) {
    p.Weekdays? ==> forall w :: w in p.days ==> w < 7
  }

  function Offset(day: Day, weekday: nat): nat {
    (WeekdayOf(day) - weekday + 7) % 7
  }

  /** The least offset of the first n weekdays, 7 before any. */
  function Nearest(days: seq<nat>, n: nat, day: Day): nat
    requires n <= |days|
  {
    if n == 0 then 7
    else
      var before := Nearest(days, n - 1, day);
      if Offset(day, days[n - 1]) < before then Offset(day, days[n - 1]) else before
  }

  function PeriodStart(p: Policy, day: Day): Day {
    if p.Weekdays? && p.days != [] then day - Nearest(p.days, |p.days|, day) else day
  }

  method ValidationPeriodStart(p: Policy, day: Day) returns (start: Day)
    ensures start == PeriodStart(p, day)
  {
    start := day;
    if p.Weekdays? && |p.days| > 0 {
      var nearestOffset := 7;
      for i := 0 to |p.days|
        invariant nearestOffset == Nearest(p.days, i, day)
      {
        var offset := (WeekdayOf(start) - p.days[i] + 7) % 7;
        if offset < nearestOffset {
          nearestOffset := offset;
        }
      }
      start := start - nearestOffset;
    }
  }

  /** start is the latest day not after day whose weekday is among days. */
  ghost predicate IsLatestDay(days: seq<nat>, day: Day, start: Day) {
    && start <= day
    && WeekdayOf(start) in days
    && forall d :: start < d <= day ==> WeekdayOf(d) !in days
  }

  /** Of the last seven days, the one with weekday w is as far back as its offset. */
  lemma OffsetExact(day: Day, w: nat, d: Day)
    requires w < 7 && day - 7 < d <= day
    ensures WeekdayOf(d) == w <==> day - d == Offset(day, w)
  {
  }

  lemma {:induction false} NearestIsLeast(days: seq<nat>, n: nat, day: Day, d: Day)
    requires n <= |days| && (forall w :: w in days ==> w < 7) && day - 7 < d <= day
    ensures WeekdayOf(d) in days[..n] ==> Nearest(days, n, day) <= day - d
    ensures n > 0 ==> Nearest(days, n, day) < 7
    ensures day - d == Nearest(days, n, day) ==> WeekdayOf(d) in days[..n]
    decreases n
  {
    if n > 0 {
      var w := days[n - 1];
      assert w in days && days[..n] == days[..n - 1] + [w];
      NearestIsLeast(days, n - 1, day, d);
      OffsetExact(day, w, d);
    }
  }

  /** The loop finds the latest allowed day, at most six days back. */
  lemma PeriodStartIsLatest(p: Policy, day: Day)
    requires ValidPolicy(p) && p.Weekdays? && p.days != []
    ensures IsLatestDay(p.days, day, PeriodStart(p, day))
    ensures day - 6 <= PeriodStart(p, day)
  {
    assert p.days[..|p.days|] == p.days;
    NearestIsLeast(p.days, |p.days|, day, day);
    var start := PeriodStart(p, day);
    NearestIsLeast(p.days, |p.days|, day, start);
    forall d | start < d <= day ensures WeekdayOf(d) !in p.days {
      NearestIsLeast(p.days, |p.days|, day, d);
    }
  }

  /** Without weekdays a period is a day. */
  lemma DailyPeriod(p: Policy, day: Day)
    requires !p.Weekdays? || p.days == []
    ensures PeriodStart(p, day) == day
  {
  }

  /** Periods are ordered like their days, and a period starts at its own start. */
  lemma PeriodStartMonotone(p: Policy, a: Day, b: Day)
    requires ValidPolicy(p) && a <= b
    ensures PeriodStart(p, a) <= PeriodStart(p, b) <= b
    ensures PeriodStart(p, PeriodStart(p, a)) == PeriodStart(p, a)
  {
    if p.Weekdays? && p.days != [] {
      PeriodStartIsLatest(p, a);
      PeriodStartIsLatest(p, b);
      PeriodStartIsLatest(p, PeriodStart(p, a));
    }
  }

  // ----- the window -----

  datatype Window = Off | Always | BadWindow | Between(start: nat, end: nat)

  predicate ValidWindow(w: Window) {
    w.Between? ==> w.start < DAY_MINUTES && w.end < DAY_MINUTES
  }

  predicate Wraps(start: nat, end: nat) {
    start > end
  }

  predicate InBetween(start: nat, end: nat, minute: int) {
    if Wraps(start, end) then minute >= start || minute < end else start <= minute < end
  }

  function WindowMinutes(start: nat, end: nat): int {
    if Wraps(start, end) then DAY_MINUTES - start + end else end - start
  }

  /** How many of the first n minutes of a day lie inside the window. */
  function MinutesInside(start: nat, end: nat, n: nat): nat {
    if n == 0 then 0 else MinutesInside(start, end, n - 1) + if InBetween(start, end, n - 1) then 1 else 0
  }

  function Least(a: int, b: int): int { if a < b then a else b }
  function Excess(n: int, start: int): int { if n > start then n - start else 0 }

  lemma {:induction false} MinutesInsideClosed(start: nat, end: nat, n: nat)
    ensures MinutesInside(start, end, n)
         == if Wraps(start, end) then Least(n, end) + Excess(n, start) else Excess(Least(n, end), start)
    decreases n
  {
    if n > 0 {
      MinutesInsideClosed(start, end, n - 1);
    }
  }

  /** For every start and end, over midnight or not, the minutes of a day accepted are as many as reported. */
  lemma WindowMinutesExact(start: nat, end: nat)
    requires start < DAY_MINUTES && end < DAY_MINUTES
    ensures MinutesInside(start, end, DAY_MINUTES) == WindowMinutes(start, end)
  {
    MinutesInsideClosed(start, end, DAY_MINUTES);
  }

  predicate InWindow(w: Window, now: Time) {
    w.Always? || (w.Between? && InBetween(w.start, w.end, MinuteOf(now)))
  }

  /** The day whose key the window carries: after midnight of a wrapping window, the day it began. */
  function AnchorDay(w: Window, now: Time): Day {
    if w.Between? && Wraps(w.start, w.end) && MinuteOf(now) < w.end then DayOf(now) - 1 else DayOf(now)
  }

  function WindowKey(p: Policy, w: Window, now: Time): Day {
    if w.Off? || w.BadWindow? then DayOf(now) else PeriodStart(p, AnchorDay(w, now))
  }

  // ----- backup jobs and the plan -----

  datatype Status = Running | Success | Failed

  /** validatedAt is set where the backup passed its restore validation, which its manifest records;
      aboutValidation where the error text mentions it. manifest: the row names a manifest;
      readable: it is there to be read; deleted: the row is not. History: plannedAt
      is when the worker planned to validate it, recordedAt when its end was recorded. */
  datatype Job = Job(createdAt: Time, status: Status, manifest: bool, validatedAt: Option<Time>, aboutValidation: bool,
                     readable: bool, deleted: bool, plannedAt: Option<Time>, recordedAt: Time)

  predicate Counts(job: Job) { job.status == Success && job.manifest && !job.deleted }

  /** What the plan can see. */
  predicate Validated(job: Job) { Counts(job) && job.readable && job.validatedAt.Some? }

  /** What happened, whatever became of the row. */
  predicate WasValidated(job: Job) { job.status == Success && job.validatedAt.Some? }

  /** Jobs stand in order of creation; the newest of the last `take` successful ones that is validated. */
  function LatestValidated(jobs: seq<Job>, take: nat): Option<nat>
    decreases |jobs|
  {
    if jobs == [] || take == 0 then None
    else
      var last := jobs[|jobs| - 1];
      if !Counts(last) then LatestValidated(jobs[..|jobs| - 1], take)
      else if Validated(last) then Some(|jobs| - 1)
      else LatestValidated(jobs[..|jobs| - 1], take - 1)
  }

  /** Whether one of the last `take` failed jobs created since then mentions the validation. */
  function ValidationFailedSince(jobs: seq<Job>, since: Time, take: nat): bool
    decreases |jobs|
  {
    if jobs == [] || take == 0 then false
    else
      var last := jobs[|jobs| - 1];
      if last.status != Failed || last.createdAt < since then ValidationFailedSince(jobs[..|jobs| - 1], since, take)
      else last.aboutValidation || ValidationFailedSince(jobs[..|jobs| - 1], since, take - 1)
  }

  const TAKE_VALIDATED: nat := 80
  const TAKE_FAILED: nat := 10

  datatype Mode = AlwaysValidate | NeverValidate | WeeklyWindow

  datatype Config = Config(mode: Mode, policy: Policy, window: Window)

  predicate ValidConfig(c: Config) {
    ValidPolicy(c.policy) && ValidWindow(c.window)
  }

  predicate WeekdayAllowed(p: Policy, now: Time) {
    p.Daily? || (p.Weekdays? && WeekdayOf(DayOf(now)) in p.days)
  }

  datatype Reason = ModeAlways | ModeNever | WrongWeekday | AlreadyValidated | FailedInWindow | Due | OutsideWindow

  predicate MatchesPeriod(p: Policy, validatedAt: Time, now: Time) {
    validatedAt >= PeriodStart(p, DayOf(now)) * DAY_MS
  }

  function Plan(c: Config, jobs: seq<Job>, now: Time): Reason {
    if c.mode.AlwaysValidate? then ModeAlways
    else if c.mode.NeverValidate? then ModeNever
    else
      var latest := LatestValidated(jobs, TAKE_VALIDATED);
      if !WeekdayAllowed(c.policy, now) then WrongWeekday
      else if !InWindow(c.window, now) then OutsideWindow
      else if latest.Some? && latest.value < |jobs| && jobs[latest.value].validatedAt.Some?
              && MatchesPeriod(c.policy, jobs[latest.value].validatedAt.value, now) then AlreadyValidated
      else if ValidationFailedSince(jobs, WindowKey(c.policy, c.window, now) * DAY_MS, TAKE_FAILED) then FailedInWindow
      else Due
  }

  predicate ShouldValidate(r: Reason) { r == ModeAlways || r == Due }

  /** The loop of latestValidatedBackup over the rows of its query. */
  method LatestValidatedBackup(jobs: seq<Job>, take: nat) returns (latest: Option<nat>)
    ensures latest == LatestValidated(jobs, take)
  {
    var i, left := |jobs|, take;
    assert jobs[..i] == jobs;
    while i > 0 && left > 0
      invariant 0 <= i <= |jobs|
      invariant LatestValidated(jobs[..i], left) == LatestValidated(jobs, take)
    {
      assert jobs[..i][..i - 1] == jobs[..i - 1];
      i := i - 1;
      if Counts(jobs[i]) {
        if Validated(jobs[i]) {
          return Some(i);
        }
        left := left - 1;
      }
    }
    latest := None;
  }

  method BackupValidationPlan(c: Config, jobs: seq<Job>, now: Time) returns (reason: Reason)
    ensures reason == Plan(c, jobs, now)
  {
    if c.mode.AlwaysValidate? {
      return ModeAlways;
    }
    if c.mode.NeverValidate? {
      return ModeNever;
    }
    var latest := LatestValidatedBackup(jobs, TAKE_VALIDATED);
    if !WeekdayAllowed(c.policy, now) {
      return WrongWeekday;
    }
    if InWindow(c.window, now) {
      var start := ValidationPeriodStart(c.policy, DayOf(now));
      if latest.Some? && latest.value < |jobs| && jobs[latest.value].validatedAt.Some?
         && jobs[latest.value].validatedAt.value >= start * DAY_MS {
        return AlreadyValidated;
      }
      if ValidationFailedSince(jobs, WindowKey(c.policy, c.window, now) * DAY_MS, TAKE_FAILED) {
        return FailedInWindow;
      }
      return Due;
    }
    reason := OutsideWindow;
  }

  function CountAll(jobs: seq<Job>): nat
    decreases |jobs|
  {
    if jobs == [] then 0 else CountAll(jobs[..|jobs| - 1]) + if Counts(jobs[|jobs| - 1]) then 1 else 0
  }

  ghost predicate IsLastValidated(jobs: seq<Job>, i: int) {
    0 <= i < |jobs| && Validated(jobs[i]) && forall j :: i < j < |jobs| ==> !Validated(jobs[j])
  }

  /** The query sees the last validated backup exactly when fewer than `take` successes came after it. */
  lemma {:induction false} LatestSeenExactly(jobs: seq<Job>, take: nat, i: nat)
    requires IsLastValidated(jobs, i)
    ensures LatestValidated(jobs, take) == if CountAll(jobs[i + 1..]) < take then Some(i) else None
    decreases |jobs|
  {
    var front := jobs[..|jobs| - 1];
    if i == |jobs| - 1 {
      assert jobs[i + 1..] == [];
    } else {
      assert IsLastValidated(front, i);
      assert jobs[i + 1..][..|jobs[i + 1..]| - 1] == front[i + 1..];
      if take > 0 {
        LatestSeenExactly(front, take, i);
        LatestSeenExactly(front, take - 1, i);
      }
    }
  }

  lemma {:induction false} NoneSeen(jobs: seq<Job>, take: nat)
    requires forall i :: 0 <= i < |jobs| ==> !Validated(jobs[i])
    ensures LatestValidated(jobs, take) == None
    decreases |jobs|
  {
    if jobs != [] && take > 0 {
      NoneSeen(jobs[..|jobs| - 1], take);
      NoneSeen(jobs[..|jobs| - 1], take - 1);
    }
  }

  /** The last validated backup is of the present period, and the plan sees it. */
  ghost predicate SeenThisPeriod(c: Config, jobs: seq<Job>, now: Time) {
    exists i :: IsLastValidated(jobs, i) && CountAll(jobs[i + 1..]) < TAKE_VALIDATED
                && MatchesPeriod(c.policy, jobs[i].validatedAt.value, now)
  }

  lemma DueSeen(c: Config, jobs: seq<Job>, now: Time)
    requires c.mode.WeeklyWindow?
    ensures ShouldValidate(Plan(c, jobs, now)) <==>
      && WeekdayAllowed(c.policy, now) && InWindow(c.window, now)
      && !ValidationFailedSince(jobs, WindowKey(c.policy, c.window, now) * DAY_MS, TAKE_FAILED)
      && !SeenThisPeriod(c, jobs, now)
  {
    if exists i :: 0 <= i < |jobs| && Validated(jobs[i]) {
      var last := LastWhere(jobs, Validated);
      LatestSeenExactly(jobs, TAKE_VALIDATED, last);
      SeenIsLast(c, jobs, now, last);
    } else {
      NoneSeen(jobs, TAKE_VALIDATED);
    }
  }

  lemma SeenIsLast(c: Config, jobs: seq<Job>, now: Time, last: nat)
    requires IsLastValidated(jobs, last)
    ensures SeenThisPeriod(c, jobs, now)
      <==> CountAll(jobs[last + 1..]) < TAKE_VALIDATED && MatchesPeriod(c.policy, jobs[last].validatedAt.value, now)
  {
    assert forall i :: IsLastValidated(jobs, i) ==> i == last;
  }

  // ----- the plan, without its own functions -----

  /** The successes with a manifest that are still there. */
  ghost function CountThere(jobs: seq<Job>): nat
    decreases |jobs|
  {
    if jobs == [] then 0
    else
      var last := jobs[|jobs| - 1];
      CountThere(jobs[..|jobs| - 1]) + if last.status == Success && last.manifest && !last.deleted then 1 else 0
  }

  ghost function CountFailures(jobs: seq<Job>, since: Time): nat
    decreases |jobs|
  {
    if jobs == [] then 0
    else
      var last := jobs[|jobs| - 1];
      CountFailures(jobs[..|jobs| - 1], since) + if last.status == Failed && last.createdAt >= since then 1 else 0
  }

  /** Row i is the last that anyone can see to be validated, and fewer than 80 successes with a manifest, as far
      as they are still there, were created after it. */
  ghost predicate LastSeen(jobs: seq<Job>, i: int) {
    && 0 <= i < |jobs| && SeenValidated(jobs[i])
    && (forall j :: i < j < |jobs| ==> !SeenValidated(jobs[j]))
    && CountThere(jobs[i + 1..]) < 80
  }

  ghost predicate SeenValidated(job: Job) {
    job.status == Success && job.manifest && !job.deleted && job.readable && job.validatedAt.Some?
  }

  lemma {:induction false} CountAllIsThere(jobs: seq<Job>)
    ensures CountAll(jobs) == CountThere(jobs)
    decreases |jobs|
  {
    if jobs != [] {
      CountAllIsThere(jobs[..|jobs| - 1]);
    }
  }

  /** Row i is a failure about the validation since then, with fewer than `take` failures since then after it. */
  ghost predicate BlocksSince(jobs: seq<Job>, since: Time, take: nat, i: int) {
    && 0 <= i < |jobs| && jobs[i].status == Failed && jobs[i].aboutValidation && jobs[i].createdAt >= since
    && CountFailures(jobs[i + 1..], since) < take
  }

  lemma BlocksInFront(jobs: seq<Job>, since: Time, take: nat, i: nat)
    requires i < |jobs| - 1
    ensures var front, last := jobs[..|jobs| - 1], jobs[|jobs| - 1];
      BlocksSince(jobs, since, take, i)
      <==> if last.status == Failed && last.createdAt >= since then take > 0 && BlocksSince(front, since, take - 1, i)
           else BlocksSince(front, since, take, i)
  {
    assert jobs[i + 1..][..|jobs[i + 1..]| - 1] == jobs[..|jobs| - 1][i + 1..];
  }

  /** The limited search for a failure finds one exactly when there is one among the last `take` failures. */
  lemma {:induction false} FailureSeenExactly(jobs: seq<Job>, since: Time, take: nat)
    ensures ValidationFailedSince(jobs, since, take) <==> exists i :: BlocksSince(jobs, since, take, i)
    decreases |jobs|
  {
    if jobs != [] {
      var front, last := jobs[..|jobs| - 1], jobs[|jobs| - 1];
      assert jobs[|jobs|..] == [];
      var counted := last.status == Failed && last.createdAt >= since;
      var left := if counted && take > 0 then take - 1 else take;
      FailureSeenExactly(front, since, left);
      if i :| BlocksSince(jobs, since, take, i) && i < |jobs| - 1 {
        BlocksInFront(jobs, since, take, i);
        assert BlocksSince(front, since, left, i);
      }
      if i :| BlocksSince(front, since, left, i) {
        BlocksInFront(jobs, since, take, i);
        assert !(counted && take == 0) ==> BlocksSince(jobs, since, take, i);
      }
      assert BlocksSince(jobs, since, take, |jobs| - 1) <==> counted && last.aboutValidation && take > 0;
      if take == 0 {
        assert forall i :: !BlocksSince(jobs, since, 0, i);
      }
    }
  }

  /** The first day of the period of day: the latest weekday of the policy not after it, or the day itself. */
  ghost predicate BeganOn(p: Policy, day: Day, start: Day) {
    if p.Weekdays? && p.days != [] then IsLatestDay(p.days, day, start) else start == day
  }

  lemma PeriodBeganOn(p: Policy, day: Day, start: Day)
    requires ValidPolicy(p)
    ensures BeganOn(p, day, start) <==> start == PeriodStart(p, day)
  {
    if p.Weekdays? && p.days != [] {
      PeriodStartIsLatest(p, day);
    }
  }

  ghost predicate DayAllowed(p: Policy, now: Time) {
    p.Daily? || (p.Weekdays? && exists i :: 0 <= i < |p.days| && p.days[i] == WeekdayOf(DayOf(now)))
  }

  ghost predicate MinuteAllowed(w: Window, minute: int) {
    || w.Always?
    || (w.Between? && if w.start <= w.end then w.start <= minute < w.end else minute >= w.start || minute < w.end)
  }

  /** The day the present window began: the day before, after midnight in a window that goes over it. */
  ghost function WindowDay(w: Window, now: Time): Day {
    if w.Between? && w.end < w.start && MinuteOf(now) < w.end then DayOf(now) - 1 else DayOf(now)
  }

  /** A validated backup of the period that began on that day is in view. */
  ghost predicate ValidatedInView(jobs: seq<Job>, period: Day) {
    exists i :: LastSeen(jobs, i) && jobs[i].validatedAt.value >= period * 86400000
  }

  /** One of the last ten failures since the beginning of that day is about the validation. */
  ghost predicate FailureInView(jobs: seq<Job>, since: Day) {
    exists i :: BlocksSince(jobs, since * 86400000, 10, i)
  }

  /** In window mode, where period and since are the first days of the periods of today and of the day the
      window began: the plan's answer is the first of five that applies. */
  lemma PlanExactly(c: Config, jobs: seq<Job>, now: Time, period: Day, since: Day)
    requires ValidConfig(c) && c.mode.WeeklyWindow?
    requires BeganOn(c.policy, DayOf(now), period) && BeganOn(c.policy, WindowDay(c.window, now), since)
    ensures Plan(c, jobs, now)
      == if !DayAllowed(c.policy, now) then WrongWeekday
         else if !MinuteAllowed(c.window, MinuteOf(now)) then OutsideWindow
         else if ValidatedInView(jobs, period) then AlreadyValidated
         else if FailureInView(jobs, since) then FailedInWindow
         else Due
  {
    DayAndMinute(c, now);
    if DayAllowed(c.policy, now) && MinuteAllowed(c.window, MinuteOf(now)) {
      InsideExactly(c, jobs, now, period, since);
    }
  }

  lemma InsideExactly(c: Config, jobs: seq<Job>, now: Time, period: Day, since: Day)
    requires ValidConfig(c) && c.mode.WeeklyWindow? && WeekdayAllowed(c.policy, now) && InWindow(c.window, now)
    requires BeganOn(c.policy, DayOf(now), period) && BeganOn(c.policy, WindowDay(c.window, now), since)
    ensures Plan(c, jobs, now)
      == if ValidatedInView(jobs, period) then AlreadyValidated
         else if FailureInView(jobs, since) then FailedInWindow else Due
  {
    PeriodBeganOn(c.policy, DayOf(now), period);
    SeenIsInView(c, jobs, now, period);
    FailureIsInView(c, jobs, now, since);
    PlanSeen(c, jobs, now);
  }

  lemma FailureIsInView(c: Config, jobs: seq<Job>, now: Time, since: Day)
    requires ValidConfig(c) && InWindow(c.window, now) && BeganOn(c.policy, WindowDay(c.window, now), since)
    ensures ValidationFailedSince(jobs, WindowKey(c.policy, c.window, now) * DAY_MS, TAKE_FAILED)
      <==> FailureInView(jobs, since)
  {
    PeriodBeganOn(c.policy, WindowDay(c.window, now), since);
    DayAndMinute(c, now);
    FailureSeenExactly(jobs, since * DAY_MS, TAKE_FAILED);
  }

  lemma DayAndMinute(c: Config, now: Time)
    ensures MinuteAllowed(c.window, MinuteOf(now)) <==> InWindow(c.window, now)
    ensures WeekdayAllowed(c.policy, now) <==> DayAllowed(c.policy, now)
    ensures InWindow(c.window, now) ==>
      WindowKey(c.policy, c.window, now) == PeriodStart(c.policy, WindowDay(c.window, now))
  {
  }

  /** The branches of the plan in window mode. */
  lemma PlanSeen(c: Config, jobs: seq<Job>, now: Time)
    requires c.mode.WeeklyWindow? && WeekdayAllowed(c.policy, now) && InWindow(c.window, now)
    ensures Plan(c, jobs, now) == AlreadyValidated <==> SeenThisPeriod(c, jobs, now)
    ensures !SeenThisPeriod(c, jobs, now) ==>
      Plan(c, jobs, now)
      == if ValidationFailedSince(jobs, WindowKey(c.policy, c.window, now) * DAY_MS, TAKE_FAILED) then FailedInWindow
         else Due
  {
    if exists i :: 0 <= i < |jobs| && Validated(jobs[i]) {
      var last := LastWhere(jobs, Validated);
      LatestSeenExactly(jobs, TAKE_VALIDATED, last);
      SeenIsLast(c, jobs, now, last);
    } else {
      NoneSeen(jobs, TAKE_VALIDATED);
    }
  }

  lemma SeenIsInView(c: Config, jobs: seq<Job>, now: Time, period: Day)
    requires period == PeriodStart(c.policy, DayOf(now))
    ensures SeenThisPeriod(c, jobs, now) <==> ValidatedInView(jobs, period)
  {
    forall i | 0 <= i < |jobs|
      ensures IsLastValidated(jobs, i) && CountAll(jobs[i + 1..]) < TAKE_VALIDATED <==> LastSeen(jobs, i)
    {
      CountAllIsThere(jobs[i + 1..]);
    }
    if ValidatedInView(jobs, period) {
      var i :| LastSeen(jobs, i) && jobs[i].validatedAt.value >= period * 86400000;
      assert IsLastValidated(jobs, i);
    }
    if SeenThisPeriod(c, jobs, now) {
      var i :| IsLastValidated(jobs, i) && CountAll(jobs[i + 1..]) < TAKE_VALIDATED
               && MatchesPeriod(c.policy, jobs[i].validatedAt.value, now);
      assert LastSeen(jobs, i);
    }
  }

  /** A backup is validated if the mode says always, not if it says never, and in window mode if and only if the
      weekday and the minute are right, no failure of the window is in view, and no validated backup of the
      present period is. */
  lemma DueExactly(c: Config, jobs: seq<Job>, now: Time, period: Day, since: Day)
    requires ValidConfig(c)
    requires BeganOn(c.policy, DayOf(now), period) && BeganOn(c.policy, WindowDay(c.window, now), since)
    ensures c.mode.AlwaysValidate? ==> Plan(c, jobs, now) == ModeAlways && ShouldValidate(Plan(c, jobs, now))
    ensures c.mode.NeverValidate? ==> Plan(c, jobs, now) == ModeNever && !ShouldValidate(Plan(c, jobs, now))
    ensures c.mode.WeeklyWindow? ==>
      (ShouldValidate(Plan(c, jobs, now)) <==>
         && DayAllowed(c.policy, now) && MinuteAllowed(c.window, MinuteOf(now))
         && !ValidatedInView(jobs, period) && !FailureInView(jobs, since))
  {
    if c.mode.WeeklyWindow? {
      PlanExactly(c, jobs, now, period, since);
    }
  }

  lemma {:induction false} LastWhere(jobs: seq<Job>, p: Job -> bool) returns (last: nat)
    requires exists i :: 0 <= i < |jobs| && p(jobs[i])
    ensures last < |jobs| && p(jobs[last]) && forall j :: last < j < |jobs| ==> !p(jobs[j])
    decreases |jobs|
  {
    if p(jobs[|jobs| - 1]) {
      last := |jobs| - 1;
    } else {
      last := LastWhere(jobs[..|jobs| - 1], p);
    }
  }

  // ----- runs of the worker's backups -----

  /** The worker's current backup: dumping, being restored for validation since its plan, or ready to be
      recorded as a success. */
  datatype Worker =
    | Idle
    | Dumping(job: nat)
    | Validating(job: nat, plannedAt: Time)
    | Recording(job: nat, plannedAt: Time, validatedAt: Option<Time>)

  datatype State = State(config: Config, now: Time, jobs: seq<Job>, worker: Worker)

  /** Manual adds a row of the administrator's: a backup, which ends without a validation, or an automatic
      maintenance, which validates what it backed up at any time it pleases. Retention and cleanup remove the
      manifests and rows of successful backups. */
  datatype Event =
    | Pass(ms: nat)
    | Begin
    | MakePlan
    | ValidationPassed
    | Record
    | Fail(aboutValidation: bool)
    | Manual(manifest: bool)
    | ManualDone(job: nat, ok: bool)
    | MaintenanceDone(job: nat, validatedAt: Time)
    | LoseManifest(job: nat)
    | DeleteRow(job: nat)

  predicate Owns(w: Worker, i: nat) {
    !w.Idle? && w.job == i
  }

  /** The administrator's row i is still running. */
  predicate ManualRuns(s: State, i: nat) {
    i < |s.jobs| && s.jobs[i].status == Running && !Owns(s.worker, i)
  }

  function NewRow(now: Time, manifest: bool): Job {
    Job(now, Running, manifest, None, false, true, false, None, now)
  }

  /** The validation of a worker's backup is on record with the time of its plan. */
  function Recorded(job: Job, now: Time, plannedAt: Time, validatedAt: Option<Time>): Job {
    job.(status := Success, recordedAt := now, validatedAt := validatedAt,
         plannedAt := if validatedAt.Some? then Some(plannedAt) else None)
  }

  function Step(s: State, e: Event): State {
    match e
    case Pass(ms) => s.(now := s.now + ms)
    case Begin =>
      if s.worker.Idle? then s.(jobs := s.jobs + [NewRow(s.now, true)], worker := Dumping(|s.jobs|)) else s
    case MakePlan =>
      if s.worker.Dumping? then
        s.(worker := if ShouldValidate(Plan(s.config, s.jobs, s.now)) then Validating(s.worker.job, s.now)
                     else Recording(s.worker.job, s.now, None))
      else s
    case ValidationPassed =>
      if s.worker.Validating? then s.(worker := Recording(s.worker.job, s.worker.plannedAt, Some(s.now))) else s
    case Record =>
      if s.worker.Recording? && s.worker.job < |s.jobs| then
        var row := Recorded(s.jobs[s.worker.job], s.now, s.worker.plannedAt, s.worker.validatedAt);
        s.(jobs := s.jobs[s.worker.job := row], worker := Idle)
      else s
    case Fail(about) =>
      if !s.worker.Idle? && s.worker.job < |s.jobs| then
        var row := s.jobs[s.worker.job].(status := Failed, aboutValidation := about);
        s.(jobs := s.jobs[s.worker.job := row], worker := Idle)
      else s
    case Manual(manifest) => s.(jobs := s.jobs + [NewRow(s.now, manifest)])
    case ManualDone(i, ok) =>
      if ManualRuns(s, i) then
        s.(jobs := s.jobs[i := s.jobs[i].(status := if ok then Success else Failed, recordedAt := s.now)])
      else s
    case MaintenanceDone(i, at) =>
      if ManualRuns(s, i) && s.jobs[i].createdAt <= at <= s.now then
        s.(jobs := s.jobs[i := s.jobs[i].(status := Success, validatedAt := Some(at), recordedAt := s.now)])
      else s
    case LoseManifest(i) =>
      if i < |s.jobs| && s.jobs[i].status == Success then s.(jobs := s.jobs[i := s.jobs[i].(readable := false)]) else s
    case DeleteRow(i) =>
      if i < |s.jobs| && s.jobs[i].status == Success then s.(jobs := s.jobs[i := s.jobs[i].(deleted := true)]) else s
  }

  /** A backup of the worker from its first write to its plan: a running row, and a validation if the plan over
      the rows that now stand says so. */
  lemma BeginsExactly(s: State)
    requires s.worker.Idle?
    ensures var t := Exec(Step, s, [] + [Begin] + [MakePlan]); var n := |s.jobs|;
      && t.jobs == s.jobs + [Job(s.now, Running, true, None, false, true, false, None, s.now)]
      && t.worker == (if ShouldValidate(Plan(s.config, t.jobs, s.now)) then Validating(n, s.now)
                      else Recording(n, s.now, None))
      && t.now == s.now && t.config == s.config
  {
    ExecSnoc(Step, s, [], Begin);
    ExecSnoc(Step, s, [] + [Begin], MakePlan);
  }

  /** How it ends: a validation that passes is recorded with its time and that of its plan, a backup without one
      as not validated, and a failure with what it was about. */
  lemma EndsExactly(s: State, about: bool)
    requires !s.worker.Idle? && s.worker.job < |s.jobs|
    ensures var n := s.worker.job; var job := s.jobs[n];
      && Step(s, Fail(about))
         == s.(worker := Idle, jobs := s.jobs[n := job.(status := Failed, aboutValidation := about)])
      && (s.worker.Validating? ==>
            Exec(Step, s, [] + [ValidationPassed] + [Record]) == s.(worker := Idle, jobs := s.jobs[n :=
              job.(status := Success, recordedAt := s.now, validatedAt := Some(s.now),
                   plannedAt := Some(s.worker.plannedAt))]))
      && (s.worker.Recording? && s.worker.validatedAt.None? ==>
            Step(s, Record) == s.(worker := Idle, jobs := s.jobs[n :=
              job.(status := Success, recordedAt := s.now, validatedAt := None, plannedAt := None)]))
  {
    ExecSnoc(Step, s, [], ValidationPassed);
    ExecSnoc(Step, s, [] + [ValidationPassed], Record);
  }

  /** Rows of others: a manual backup ends without a validation, a maintenance with the one it made, and removing
      the manifest or the row of a success leaves its place in the order of rows. */
  lemma OthersExactly(s: State, i: nat, at: Time, manifest: bool)
    requires i < |s.jobs|
    ensures Step(s, Manual(manifest)).jobs
         == s.jobs + [Job(s.now, Running, manifest, None, false, true, false, None, s.now)]
    ensures var job := s.jobs[i]; var free := job.status == Running && (s.worker.Idle? || s.worker.job != i);
      && (forall ok :: Step(s, ManualDone(i, ok)).jobs
            == if free then s.jobs[i := job.(status := if ok then Success else Failed, recordedAt := s.now)]
               else s.jobs)
      && Step(s, MaintenanceDone(i, at)).jobs
         == (if free && job.createdAt <= at <= s.now
             then s.jobs[i := job.(status := Success, validatedAt := Some(at), recordedAt := s.now)] else s.jobs)
      && Step(s, LoseManifest(i)).jobs
         == (if job.status == Success then s.jobs[i := job.(readable := false)] else s.jobs)
      && Step(s, DeleteRow(i)).jobs == (if job.status == Success then s.jobs[i := job.(deleted := true)] else s.jobs)
  {
  }

  /** A failed validation blocks the window: unless the period has a validated backup in view, no plan in the same
      window validates again, as long as fewer than ten later backups failed. */
  lemma FailureBlocks(s: State, now: Time, period: Day, since: Day)
    requires ValidConfig(s.config) && s.config.mode.WeeklyWindow?
    requires !s.worker.Idle? && s.worker.job < |s.jobs|
    requires DayAllowed(s.config.policy, now) && MinuteAllowed(s.config.window, MinuteOf(now))
    requires BeganOn(s.config.policy, DayOf(now), period)
    requires BeganOn(s.config.policy, WindowDay(s.config.window, now), since)
    requires s.jobs[s.worker.job].createdAt >= since * 86400000
    requires CountFailures(s.jobs[s.worker.job + 1..], since * 86400000) < 10
    ensures var jobs := Step(s, Fail(true)).jobs;
      Plan(s.config, jobs, now) == if ValidatedInView(jobs, period) then AlreadyValidated else FailedInWindow
  {
    var jobs, n := Step(s, Fail(true)).jobs, s.worker.job;
    PlanExactly(s.config, jobs, now, period, since);
    assert jobs[n + 1..] == s.jobs[n + 1..];
    assert BlocksSince(jobs, since * 86400000, 10, n);
  }

  ghost predicate WasLastValidated(jobs: seq<Job>, i: int) {
    0 <= i < |jobs| && WasValidated(jobs[i]) && forall j :: i < j < |jobs| ==> !WasValidated(jobs[j])
  }

  /** The last of the backups ever validated, if there is one, was validated last, is still there with its
      manifest, and has fewer than 80 successes after it. */
  ghost predicate Visible(jobs: seq<Job>) {
    forall i :: WasLastValidated(jobs, i) ==>
      && Validated(jobs[i]) && CountAll(jobs[i + 1..]) < TAKE_VALIDATED
      && forall j :: 0 <= j < |jobs| && WasValidated(jobs[j]) ==> jobs[j].validatedAt.value <= jobs[i].validatedAt.value
  }

  ghost predicate AlwaysVisible(s: State, evs: seq<Event>) {
    forall k :: 0 <= k < |evs| && evs[k].MakePlan? ==> Visible(Exec(Step, s, evs[..k]).jobs)
  }

  /** The start of the period a validation belongs to. */
  function PeriodOf(c: Config, t: Time): Time {
    PeriodStart(c.policy, DayOf(t)) * DAY_MS
  }

  /** A validation the worker planned and made. */
  predicate ByWorker(job: Job) {
    WasValidated(job) && job.plannedAt.Some?
  }

  /** The validation on record in job was there when the worker planned one at that time. */
  predicate KnownAt(job: Job, plannedAt: Time) {
    WasValidated(job) && (ByWorker(job) || job.recordedAt < plannedAt)
  }

  /** Every validation known when the worker made its plan came before the period of t. */
  ghost predicate BeforePeriod(s: State, plannedAt: Time, t: Time) {
    forall i :: 0 <= i < |s.jobs| && KnownAt(s.jobs[i], plannedAt) ==>
        s.jobs[i].validatedAt.value < PeriodOf(s.config, t)
  }

  ghost predicate RowOk(job: Job, now: Time) {
    && (WasValidated(job) ==> job.validatedAt.value <= now && job.recordedAt <= now)
    && (ByWorker(job) ==> job.plannedAt.value <= now)
    && (job.status == Running ==> job.validatedAt.None? && job.plannedAt.None?)
  }

  ghost predicate RowsOk(s: State) {
    forall i :: 0 <= i < |s.jobs| ==> RowOk(s.jobs[i], s.now)
  }

  /** A worker's validation is of a later period than the worker's before it and than any recorded before its plan. */
  ghost predicate Apart(s: State) {
    forall i, j :: 0 <= i < |s.jobs| && 0 <= j < |s.jobs| && Precedes(s.jobs, i, j) ==>
      s.jobs[i].validatedAt.value < PeriodOf(s.config, s.jobs[j].validatedAt.value)
  }

  predicate Precedes(jobs: seq<Job>, i: int, j: int) {
    && 0 <= i < |jobs| && 0 <= j < |jobs| && WasValidated(jobs[i]) && ByWorker(jobs[j])
    && ((ByWorker(jobs[i]) && i < j) || jobs[i].recordedAt < jobs[j].plannedAt.value)
  }

  ghost predicate WorkerOk(s: State) {
    && (!s.worker.Idle? ==>
          s.worker.job < |s.jobs| && s.jobs[s.worker.job].status == Running
          && forall i :: s.worker.job <= i < |s.jobs| ==> !ByWorker(s.jobs[i]))
    && (s.worker.Validating? ==> s.worker.plannedAt <= s.now && BeforePeriod(s, s.worker.plannedAt, s.worker.plannedAt))
    && (s.worker.Recording? ==> s.worker.plannedAt <= s.now)
    && (s.worker.Recording? && s.worker.validatedAt.Some? ==>
          s.worker.validatedAt.value <= s.now && BeforePeriod(s, s.worker.plannedAt, s.worker.validatedAt.value))
  }

  ghost predicate Inv(s: State) {
    ValidConfig(s.config) && s.config.mode.WeeklyWindow? && RowsOk(s) && Apart(s) && WorkerOk(s)
  }

  lemma DaysOrdered(a: Time, b: Time)
    requires a <= b
    ensures DayOf(a) <= DayOf(b) && DayOf(b) * DAY_MS <= b
  {
  }

  lemma Scaled(a: int, b: int)
    requires a <= b
    ensures a * DAY_MS <= b * DAY_MS
  {
  }

  lemma PeriodOfMonotone(c: Config, a: Time, b: Time)
    requires ValidConfig(c) && a <= b
    ensures PeriodOf(c, a) <= PeriodOf(c, b) <= b
  {
    DaysOrdered(a, b);
    PeriodStartMonotone(c.policy, DayOf(a), DayOf(b));
    Scaled(PeriodStart(c.policy, DayOf(a)), PeriodStart(c.policy, DayOf(b)));
    Scaled(PeriodStart(c.policy, DayOf(b)), DayOf(b));
  }

  /** When a backup is due, every earlier validation, whatever its origin, came before the present period. */
  lemma DueMeansNewPeriod(c: Config, jobs: seq<Job>, now: Time)
    requires c.mode.WeeklyWindow? && Visible(jobs) && ShouldValidate(Plan(c, jobs, now))
    ensures forall i :: 0 <= i < |jobs| && WasValidated(jobs[i]) ==> jobs[i].validatedAt.value < PeriodOf(c, now)
  {
    if exists i :: 0 <= i < |jobs| && WasValidated(jobs[i]) {
      var last := LastWhere(jobs, WasValidated);
      assert WasLastValidated(jobs, last) && IsLastValidated(jobs, last);
      DueSeen(c, jobs, now);
    }
  }

  /** Rows that were there keep what happened to them; a new or newly ended one is recorded now and not by the
      worker. */
  ghost predicate RowsFrame(s: State, t: State) {
    && s.config == t.config && s.now <= t.now && |s.jobs| <= |t.jobs|
    && (forall i :: 0 <= i < |s.jobs| && WasValidated(s.jobs[i]) ==> SameValidation(s.jobs[i], t.jobs[i]))
    && (forall i :: 0 <= i < |t.jobs| && WasValidated(t.jobs[i]) && !(i < |s.jobs| && WasValidated(s.jobs[i])) ==>
          t.jobs[i].plannedAt.None? && t.jobs[i].recordedAt == s.now)
  }

  predicate SameValidation(a: Job, b: Job) {
    WasValidated(b) && a.validatedAt == b.validatedAt && a.plannedAt == b.plannedAt && a.recordedAt == b.recordedAt
  }

  lemma FrameApart(s: State, t: State)
    requires RowsOk(s) && Apart(s) && RowsFrame(s, t)
    ensures Apart(t)
  {
    forall i, j | 0 <= i < |t.jobs| && 0 <= j < |t.jobs| && Precedes(t.jobs, i, j)
      ensures t.jobs[i].validatedAt.value < PeriodOf(t.config, t.jobs[j].validatedAt.value)
    {
      assert j < |s.jobs| && WasValidated(s.jobs[j]) && RowOk(s.jobs[j], s.now);
      assert i < |s.jobs| && WasValidated(s.jobs[i]);
      assert Precedes(s.jobs, i, j);
    }
  }

  lemma FrameBefore(s: State, t: State, plannedAt: Time, at: Time)
    requires BeforePeriod(s, plannedAt, at) && RowsFrame(s, t) && plannedAt <= s.now
    ensures BeforePeriod(t, plannedAt, at)
  {
    forall i | 0 <= i < |t.jobs| && KnownAt(t.jobs[i], plannedAt)
      ensures t.jobs[i].validatedAt.value < PeriodOf(t.config, at)
    {
      assert i < |s.jobs| && WasValidated(s.jobs[i]) && KnownAt(s.jobs[i], plannedAt);
    }
  }

  lemma PlanKeeps(s: State)
    requires Inv(s) && Visible(s.jobs)
    ensures Inv(Step(s, MakePlan))
  {
    if ShouldValidate(Plan(s.config, s.jobs, s.now)) {
      DueMeansNewPeriod(s.config, s.jobs, s.now);
    }
  }

  lemma PassedKeeps(s: State)
    requires Inv(s)
    ensures Inv(Step(s, ValidationPassed))
  {
    if s.worker.Validating? {
      PeriodOfMonotone(s.config, s.worker.plannedAt, s.now);
    }
  }

  lemma RecordKeeps(s: State)
    requires Inv(s)
    ensures Inv(Step(s, Record))
  {
    if s.worker.Recording? {
      var t, n := Step(s, Record), s.worker.job;
      forall i, j | 0 <= i < |t.jobs| && 0 <= j < |t.jobs| && Precedes(t.jobs, i, j)
        ensures t.jobs[i].validatedAt.value < PeriodOf(t.config, t.jobs[j].validatedAt.value)
      {
        if j != n {
          assert RowOk(s.jobs[j], s.now) && i != n && Precedes(s.jobs, i, j);
        } else if i != n {
          assert KnownAt(s.jobs[i], s.worker.plannedAt);
        }
      }
    }
  }

  /** The other events leave every validation on record as it was, and add at most one of the administrator's. */
  lemma OtherFrame(s: State, e: Event)
    requires Inv(s) && !e.MakePlan? && !e.ValidationPassed? && !e.Record?
    ensures RowsFrame(s, Step(s, e))
  {
  }

  lemma OtherRows(s: State, e: Event)
    requires Inv(s) && !e.MakePlan? && !e.ValidationPassed? && !e.Record?
    ensures RowsOk(Step(s, e))
  {
  }

  /** And the worker's backup goes on, begins or fails. */
  lemma OtherWorker(s: State, e: Event)
    requires Inv(s) && !e.MakePlan? && !e.ValidationPassed? && !e.Record?
    ensures var t := Step(s, e);
      && (t.worker == s.worker || t.worker.Idle? || (e.Begin? && t.worker == Dumping(|s.jobs|)))
      && (!t.worker.Idle? ==> t.worker.job < |t.jobs| && t.jobs[t.worker.job].status == Running)
  {
  }

  lemma OtherKeeps(s: State, e: Event)
    requires Inv(s) && !e.MakePlan? && !e.ValidationPassed? && !e.Record?
    ensures Inv(Step(s, e))
  {
    var t := Step(s, e);
    OtherFrame(s, e);
    OtherRows(s, e);
    OtherWorker(s, e);
    FrameApart(s, t);
    if t.worker == s.worker && s.worker.Validating? {
      FrameBefore(s, t, s.worker.plannedAt, s.worker.plannedAt);
    } else if t.worker == s.worker && s.worker.Recording? && s.worker.validatedAt.Some? {
      FrameBefore(s, t, s.worker.plannedAt, s.worker.validatedAt.value);
    }
    if !t.worker.Idle? {
      forall i | t.worker.job <= i < |t.jobs| ensures !ByWorker(t.jobs[i]) {
        assert i < |s.jobs| && WasValidated(s.jobs[i]) ==> SameValidation(s.jobs[i], t.jobs[i]);
      }
    }
  }

  lemma StepKeeps(s: State, e: Event)
    requires Inv(s) && (e.MakePlan? ==> Visible(s.jobs))
    ensures Inv(Step(s, e))
  {
    match e
    case MakePlan => PlanKeeps(s);
    case ValidationPassed => PassedKeeps(s);
    case Record => RecordKeeps(s);
    case _ => OtherKeeps(s, e);
  }

  lemma {:induction false} RunKeeps(s: State, evs: seq<Event>)
    requires Inv(s) && AlwaysVisible(s, evs)
    ensures Inv(Exec(Step, s, evs)) && Exec(Step, s, evs).config == s.config
    decreases |evs|
  {
    if evs != [] {
      var front := evs[..|evs| - 1];
      forall k | 0 <= k < |front| && front[k].MakePlan? ensures Visible(Exec(Step, s, front[..k]).jobs) {
        assert front[..k] == evs[..k] && evs[k].MakePlan?;
      }
      RunKeeps(s, front);
      StepKeeps(Exec(Step, s, front), evs[|evs| - 1]);
    }
  }

  /** In window mode, in every run in which the plan can see the last validated backup whenever it is made: the
      worker validates no backup in a period in which it has validated one before, or in which one, whatever
      its origin, was on record as validated before the plan. */
  lemma OneValidationPerPeriod(c: Config, now: Time, evs: seq<Event>, i: nat, j: nat)
    requires ValidConfig(c) && c.mode.WeeklyWindow? && AlwaysVisible(State(c, now, [], Idle), evs)
    requires Precedes(Exec(Step, State(c, now, [], Idle), evs).jobs, i, j)
    ensures var jobs := Exec(Step, State(c, now, [], Idle), evs).jobs;
      PeriodOf(c, jobs[i].validatedAt.value) <= jobs[i].validatedAt.value < PeriodOf(c, jobs[j].validatedAt.value)
  {
    RunKeeps(State(c, now, [], Idle), evs);
    var jobs := Exec(Step, State(c, now, [], Idle), evs).jobs;
    PeriodOfMonotone(c, jobs[i].validatedAt.value, jobs[i].validatedAt.value);
  }

  // ----- runs of worker backups alone -----

  /** The worker's own events: nobody else adds, ends or removes rows. */
  predicate OfWorker(e: Event) {
    e.Pass? || e.Begin? || e.MakePlan? || e.ValidationPassed? || e.Record? || e.Fail?
  }

  /** Fewer than 80 successes follow the last validated backup, if there is one. */
  ghost predicate Few(jobs: seq<Job>) {
    forall i :: WasLastValidated(jobs, i) ==> CountAll(jobs[i + 1..]) < TAKE_VALIDATED
  }

  ghost predicate AlwaysFew(s: State, evs: seq<Event>) {
    forall k :: 0 <= k < |evs| && evs[k].MakePlan? ==> Few(Exec(Step, s, evs[..k]).jobs)
  }

  /** Every row is there with its manifest, validations are the worker's and in order of the rows, and the
      worker's row is the last. */
  ghost predicate WorkerAlone(s: State) {
    && (forall i :: 0 <= i < |s.jobs| ==> s.jobs[i].manifest && s.jobs[i].readable && !s.jobs[i].deleted)
    && (forall i :: 0 <= i < |s.jobs| && WasValidated(s.jobs[i]) ==>
          ByWorker(s.jobs[i]) && s.jobs[i].validatedAt.value <= s.now)
    && (forall i, j :: 0 <= i < j < |s.jobs| && WasValidated(s.jobs[i]) && WasValidated(s.jobs[j]) ==>
          s.jobs[i].validatedAt.value <= s.jobs[j].validatedAt.value)
    && (!s.worker.Idle? ==> s.worker.job == |s.jobs| - 1 && s.jobs[s.worker.job].status == Running)
    && (s.worker.Recording? && s.worker.validatedAt.Some? ==>
          s.worker.validatedAt.value <= s.now
          && forall i :: 0 <= i < |s.jobs| && WasValidated(s.jobs[i]) ==>
               s.jobs[i].validatedAt.value <= s.worker.validatedAt.value)
  }

  lemma StepAlone(s: State, e: Event)
    requires WorkerAlone(s) && OfWorker(e)
    ensures WorkerAlone(Step(s, e))
  {
  }

  lemma {:induction false} RunAlone(s: State, evs: seq<Event>)
    requires WorkerAlone(s) && forall e :: e in evs ==> OfWorker(e)
    ensures WorkerAlone(Exec(Step, s, evs))
    decreases |evs|
  {
    if evs != [] {
      var front := evs[..|evs| - 1];
      assert forall e :: e in front ==> e in evs;
      RunAlone(s, front);
      assert evs[|evs| - 1] in evs;
      StepAlone(Exec(Step, s, front), evs[|evs| - 1]);
    }
  }

  lemma FewIsVisible(s: State)
    requires WorkerAlone(s) && Few(s.jobs)
    ensures Visible(s.jobs)
  {
    forall i, j | WasLastValidated(s.jobs, i) && 0 <= j < |s.jobs| && WasValidated(s.jobs[j])
      ensures s.jobs[j].validatedAt.value <= s.jobs[i].validatedAt.value
    {
      assert j <= i;
    }
  }

  /** In window mode, in every run of worker backups in which fewer than 80 successes follow the last validated
      one whenever a plan is made, at most one backup of a period is validated. */
  lemma WorkerValidatesOncePerPeriod(c: Config, now: Time, evs: seq<Event>, i: nat, j: nat)
    requires ValidConfig(c) && c.mode.WeeklyWindow? && AlwaysFew(State(c, now, [], Idle), evs)
    requires forall e :: e in evs ==> OfWorker(e)
    requires i < j < |Exec(Step, State(c, now, [], Idle), evs).jobs|
    requires WasValidated(Exec(Step, State(c, now, [], Idle), evs).jobs[i])
    requires WasValidated(Exec(Step, State(c, now, [], Idle), evs).jobs[j])
    ensures var jobs := Exec(Step, State(c, now, [], Idle), evs).jobs;
      PeriodOf(c, jobs[i].validatedAt.value) < PeriodOf(c, jobs[j].validatedAt.value)
  {
    var s0 := State(c, now, [], Idle);
    forall k | 0 <= k < |evs| && evs[k].MakePlan? ensures Visible(Exec(Step, s0, evs[..k]).jobs) {
      assert forall e :: e in evs[..k] ==> e in evs;
      RunAlone(s0, evs[..k]);
      FewIsVisible(Exec(Step, s0, evs[..k]));
    }
    RunAlone(s0, evs);
    OneValidationPerPeriod(c, now, evs, i, j);
  }

  // ----- when a period is validated twice -----

  ghost predicate PeriodsApart(c: Config, jobs: seq<Job>) {
    forall i, j :: 0 <= i < j < |jobs| && WasValidated(jobs[i]) && WasValidated(jobs[j]) ==>
      PeriodOf(c, jobs[i].validatedAt.value) != PeriodOf(c, jobs[j].validatedAt.value)
  }

  /** The step puts a validation on record in the period of row k's: a maintenance of that period ends, or the
      worker records one although a maintenance of that period was recorded since its plan. */
  predicate Repeats(s: State, e: Event, k: int) {
    && 0 <= k < |s.jobs| && WasValidated(s.jobs[k])
    && ((e.MaintenanceDone? && ManualRuns(s, e.job) && s.jobs[e.job].createdAt <= e.validatedAt <= s.now
         && PeriodOf(s.config, s.jobs[k].validatedAt.value) == PeriodOf(s.config, e.validatedAt))
        || (e.Record? && s.worker.Recording? && s.worker.validatedAt.Some?
            && s.jobs[k].plannedAt.None? && s.jobs[k].recordedAt >= s.worker.plannedAt
            && PeriodOf(s.config, s.jobs[k].validatedAt.value) == PeriodOf(s.config, s.worker.validatedAt.value)))
  }

  /** From states the runs above lead to, that is the only way a period comes to be validated twice. */
  lemma ApartExactly(s: State, e: Event)
    requires Inv(s) && PeriodsApart(s.config, s.jobs)
    ensures PeriodsApart(s.config, Step(s, e).jobs) <==> forall k :: !Repeats(s, e, k)
  {
    if e.Record? && s.worker.Recording? && s.worker.validatedAt.Some? {
      RecordApart(s);
    } else if e.MaintenanceDone? && ManualRuns(s, e.job) && s.jobs[e.job].createdAt <= e.validatedAt <= s.now {
      MaintenanceApart(s, e.job, e.validatedAt);
    } else {
      SameRows(s, e);
    }
  }

  lemma MaintenanceApart(s: State, n: nat, at: Time)
    requires Inv(s) && PeriodsApart(s.config, s.jobs) && ManualRuns(s, n) && s.jobs[n].createdAt <= at <= s.now
    ensures PeriodsApart(s.config, Step(s, MaintenanceDone(n, at)).jobs)
        <==> forall k :: !Repeats(s, MaintenanceDone(n, at), k)
  {
    OneMore(s.config, s.jobs, n, s.jobs[n].(status := Success, validatedAt := Some(at), recordedAt := s.now));
    forall k | 0 <= k < |s.jobs| && WasValidated(s.jobs[k])
      ensures PeriodOf(s.config, s.jobs[k].validatedAt.value) == PeriodOf(s.config, at)
        <==> Repeats(s, MaintenanceDone(n, at), k)
    {}
  }

  lemma RecordApart(s: State)
    requires Inv(s) && PeriodsApart(s.config, s.jobs) && s.worker.Recording? && s.worker.validatedAt.Some?
    ensures PeriodsApart(s.config, Step(s, Record).jobs) <==> forall k :: !Repeats(s, Record, k)
  {
    var at, n := s.worker.validatedAt.value, s.worker.job;
    OneMore(s.config, s.jobs, n, Recorded(s.jobs[n], s.now, s.worker.plannedAt, s.worker.validatedAt));
    forall k | 0 <= k < |s.jobs| && WasValidated(s.jobs[k])
      ensures PeriodOf(s.config, s.jobs[k].validatedAt.value) == PeriodOf(s.config, at) <==> Repeats(s, Record, k)
    {
      PeriodOfMonotone(s.config, s.jobs[k].validatedAt.value, s.jobs[k].validatedAt.value);
      assert KnownAt(s.jobs[k], s.worker.plannedAt) ==> s.jobs[k].validatedAt.value < PeriodOf(s.config, at);
    }
  }

  predicate OfPeriod(c: Config, job: Job, t: Time) {
    WasValidated(job) && PeriodOf(c, job.validatedAt.value) == PeriodOf(c, t)
  }

  /** Rows of which one is newly validated are apart exactly when no other is of its period. */
  lemma OneMore(c: Config, jobs: seq<Job>, n: nat, row: Job)
    requires n < |jobs| && !WasValidated(jobs[n]) && WasValidated(row) && PeriodsApart(c, jobs)
    ensures PeriodsApart(c, jobs[n := row]) <==>
      forall k :: 0 <= k < |jobs| ==> !OfPeriod(c, jobs[k], row.validatedAt.value)
  {
    var after := jobs[n := row];
    if k :| 0 <= k < |jobs| && OfPeriod(c, jobs[k], row.validatedAt.value) {
      assert k != n && after[k] == jobs[k] && after[n] == row;
      assert 0 <= k < n < |after| || 0 <= n < k < |after|;
    }
  }

  /** No other event puts a validation on record. */
  lemma SameRows(s: State, e: Event)
    requires Inv(s) && PeriodsApart(s.config, s.jobs)
    requires !(e.Record? && s.worker.Recording? && s.worker.validatedAt.Some?)
    requires !(e.MaintenanceDone? && ManualRuns(s, e.job) && s.jobs[e.job].createdAt <= e.validatedAt <= s.now)
    ensures PeriodsApart(s.config, Step(s, e).jobs) && forall k :: !Repeats(s, e, k)
  {
    var t := Step(s, e);
    NoneNew(s, e);
    forall i | 0 <= i < |t.jobs| && WasValidated(t.jobs[i])
      ensures i < |s.jobs| && WasValidated(s.jobs[i]) && s.jobs[i].validatedAt == t.jobs[i].validatedAt
    {}
  }

  lemma NoneNew(s: State, e: Event)
    requires Inv(s) && !(e.Record? && s.worker.Recording? && s.worker.validatedAt.Some?)
    requires !(e.MaintenanceDone? && ManualRuns(s, e.job) && s.jobs[e.job].createdAt <= e.validatedAt <= s.now)
    ensures var t := Step(s, e);
      |s.jobs| <= |t.jobs| && forall i :: 0 <= i < |t.jobs| && WasValidated(t.jobs[i]) ==>
        i < |s.jobs| && WasValidated(s.jobs[i]) && s.jobs[i].validatedAt == t.jobs[i].validatedAt
  {
  }

  // ----- two runs in which it happens -----

  const EVERY_DAY := Config(WeeklyWindow, Daily, Always)

  const VALIDATE: seq<Event> := [Begin, MakePlan, ValidationPassed] + [Record]

  function WorkerRow(now: Time): Job {
    Job(now, Success, true, Some(now), false, true, false, Some(now), now)
  }

  lemma {:induction false} NoFailureSeen(jobs: seq<Job>, since: Time, take: nat)
    requires forall i :: 0 <= i < |jobs| ==> jobs[i].status != Failed
    ensures !ValidationFailedSince(jobs, since, take)
    decreases |jobs|
  {
    if jobs != [] && take > 0 {
      NoFailureSeen(jobs[..|jobs| - 1], since, take);
    }
  }

  /** With no validated row to be seen and no failure, the worker's next backup is validated. */
  lemma ValidationRun(s: State)
    requires s.config == EVERY_DAY && s.worker.Idle?
    requires forall i :: 0 <= i < |s.jobs| ==> !Validated(s.jobs[i]) && s.jobs[i].status != Failed
    ensures Exec(Step, s, VALIDATE) == s.(jobs := s.jobs + [WorkerRow(s.now)])
  {
    var n := |s.jobs|;
    var s1 := s.(jobs := s.jobs + [NewRow(s.now, true)], worker := Dumping(n));
    NoneSeen(s1.jobs, TAKE_VALIDATED);
    NoFailureSeen(s1.jobs, WindowKey(Daily, Always, s.now) * DAY_MS, TAKE_FAILED);
    var s2 := s1.(worker := Validating(n, s.now));
    var s3 := s1.(worker := Recording(n, s.now, Some(s.now)));
    assert Step(s, Begin) == s1 && Step(s1, MakePlan) == s2 && Step(s2, ValidationPassed) == s3;
    assert Step(s3, Record) == s.(jobs := s.jobs + [WorkerRow(s.now)]);
    ExecThree(Step, s, Begin, MakePlan, ValidationPassed);
    ExecSnoc(Step, s, [Begin, MakePlan, ValidationPassed], Record);
  }

  /** A manual backup after a validated one lets the administrator's cleanup remove the validated one, manifest
      first; the worker's next backup is validated again, the same day. */
  lemma LostManifestRepeats()
    ensures var cleaned := [Manual(true), ManualDone(1, true), LoseManifest(0)] + [DeleteRow(0)];
      var jobs := Exec(Step, State(EVERY_DAY, 0, [], Idle), VALIDATE + cleaned + VALIDATE).jobs;
      && |jobs| == 3 && ByWorker(jobs[0]) && ByWorker(jobs[2])
      && PeriodOf(EVERY_DAY, jobs[0].validatedAt.value) == PeriodOf(EVERY_DAY, jobs[2].validatedAt.value)
  {
    var s0 := State(EVERY_DAY, 0, [], Idle);
    var cleaned := [Manual(true), ManualDone(1, true), LoseManifest(0)] + [DeleteRow(0)];
    ValidationRun(s0);
    var s1 := s0.(jobs := [] + [WorkerRow(0)]);
    var done := NewRow(0, true).(status := Success);
    var s2 := s0.(jobs := [WorkerRow(0), done]);
    var s3 := s0.(jobs := [WorkerRow(0).(readable := false), done]);
    var s4 := s0.(jobs := [WorkerRow(0).(readable := false, deleted := true), done]);
    assert Step(Step(s1, Manual(true)), ManualDone(1, true)) == s2;
    assert Step(s2, LoseManifest(0)) == s3 && Step(s3, DeleteRow(0)) == s4;
    ExecThree(Step, s1, Manual(true), ManualDone(1, true), LoseManifest(0));
    ExecSnoc(Step, s1, [Manual(true), ManualDone(1, true), LoseManifest(0)], DeleteRow(0));
    ValidationRun(s4);
    ExecConcat(Step, s0, VALIDATE, cleaned);
    ExecConcat(Step, s0, VALIDATE + cleaned, VALIDATE);
  }

  /** An automatic maintenance validates its backup on the day of the worker's validation. */
  lemma MaintenanceRepeats()
    ensures var evs := VALIDATE + ([] + [Manual(true)] + [MaintenanceDone(1, 0)]);
      var jobs := Exec(Step, State(EVERY_DAY, 0, [], Idle), evs).jobs;
      && |jobs| == 2 && ByWorker(jobs[0]) && WasValidated(jobs[1])
      && PeriodOf(EVERY_DAY, jobs[0].validatedAt.value) == PeriodOf(EVERY_DAY, jobs[1].validatedAt.value)
  {
    var s0 := State(EVERY_DAY, 0, [], Idle);
    ValidationRun(s0);
    var s1 := s0.(jobs := [] + [WorkerRow(0)]);
    ExecSnoc(Step, s1, [], Manual(true));
    ExecSnoc(Step, s1, [] + [Manual(true)], MaintenanceDone(1, 0));
    assert Step(Step(s1, Manual(true)), MaintenanceDone(1, 0)).jobs
        == [WorkerRow(0), NewRow(0, true).(status := Success, validatedAt := Some(0))];
    ExecConcat(Step, s0, VALIDATE, [] + [Manual(true)] + [MaintenanceDone(1, 0)]);
  }
}
