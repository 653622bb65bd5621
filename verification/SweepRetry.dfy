/** The worker's scheduled sweep and its retries (worker.js scheduleSweepRetry, runScheduledSweeps,
    resetScheduledSweepRetries, runScheduledSweepsFromCron). */
module SweepRetry {
  import opened Runs

  /** The module's variables. active: sweeps are enabled and the node is primary. */
  datatype Core = Core(active: bool, maxRetries: nat, running: bool, timer: bool, count: nat)

  datatype Source = FromCron | FromRetry

  // ----- the functions -----

  predicate Schedules(c: Core) {
    c.active && !c.timer && c.count < c.maxRetries
  }

  function RetryScheduled(c: Core): Core {
    if Schedules(c) then c.(timer := true, count := c.count + 1) else c
  }

  function RetriesReset(c: Core): Core {
    c.(timer := false, count := 0)
  }

  /** runScheduledSweeps up to its first database: the variables, and whether the pass goes on. */
  function Begun(c: Core, backupRunning: bool, haSync: bool): (Core, bool) {
    if !c.active || c.running then (c, false)
    else if backupRunning || haSync then (RetryScheduled(c), false)
    else (c.(running := true), true)
  }

  /** The end of a pass and, for a pass the cron started, of runScheduledSweepsFromCron: the promise between
      the two settles before any other timer or cron callback can run. */
  function Ended(c: Core, source: Source, postponed: bool): Core {
    var stopped := c.(running := false);
    if postponed then RetryScheduled(stopped)
    else if source == FromCron then stopped.(count := 0)
    else stopped
  }

  class SweepScheduler {
    const active: bool
    const maxRetries: nat
    var scheduledSweepRunning: bool
    var scheduledSweepRetryTimer: bool
    var scheduledSweepRetryCount: nat

    ghost function View(): Core
      reads this
    {
      Core(active, maxRetries, scheduledSweepRunning, scheduledSweepRetryTimer, scheduledSweepRetryCount)
    }

    constructor (active: bool, maxRetries: nat)
      ensures View() == Core(active, maxRetries, false, false, 0) == Init(active, maxRetries).core
    {
      this.active, this.maxRetries := active, maxRetries;
      scheduledSweepRunning, scheduledSweepRetryTimer, scheduledSweepRetryCount := false, false, 0;
    }

    method ScheduleSweepRetry()
      modifies this
      ensures View() == RetryScheduled(old(View()))
    {
      if !active {
        return;
      }
      if scheduledSweepRetryTimer || scheduledSweepRetryCount >= maxRetries {
        return;
      }
      scheduledSweepRetryCount := scheduledSweepRetryCount + 1;
      scheduledSweepRetryTimer := true;
    }

    method ResetScheduledSweepRetries()
      modifies this
      ensures View() == RetriesReset(old(View()))
    {
      scheduledSweepRetryCount := 0;
      if scheduledSweepRetryTimer {
        scheduledSweepRetryTimer := false;
      }
    }

    method BeginScheduledSweeps(backupRunning: bool, haSync: bool) returns (going: bool)
      modifies this
      ensures (View(), going) == Begun(old(View()), backupRunning, haSync)
    {
      if !active || scheduledSweepRunning {
        return false;
      }
      if backupRunning {
        ScheduleSweepRetry();
        return false;
      }
      if haSync {
        ScheduleSweepRetry();
        return false;
      }
      scheduledSweepRunning := true;
      going := true;
    }

    /** What the pass over the databases and the code after it do; results says of each database whether its
        sweep was postponed. */
    method FinishScheduledSweeps(source: Source, results: seq<bool>) returns (completed: bool)
      modifies this
      ensures View() == Ended(old(View()), source, true in results)
      ensures completed <==> true !in results
    {
      var postponed := false;
      for i := 0 to |results|
        invariant postponed <==> true in results[..i]
        invariant View() == old(View())
      {
        if results[i] {
          postponed := true;
        }
        assert results[..i + 1] == results[..i] + [results[i]];
      }
      assert results[..|results|] == results;
      scheduledSweepRunning := false;
      if postponed {
        ScheduleSweepRetry();
        return false;
      }
      if source == FromCron {
        scheduledSweepRetryCount := 0;
      }
      completed := true;
    }
  }

  // ----- crons, timers and passes -----

  datatype Pass = Pass(source: Source, postponed: bool)

  /** scheduled and started count the retries scheduled and the passes begun since the last cron firing. */
  datatype State = State(core: Core, passes: seq<Pass>, scheduled: nat, started: nat)

  datatype Event =
    | Cron(backupRunning: bool, haSync: bool)
    | Timer(backupRunning: bool, haSync: bool)
    | Postpone(pass: nat)
    | End(pass: nat)
    | Throw(pass: nat)

  function Init(active: bool, maxRetries: nat): State {
    State(Core(active, maxRetries, false, false, 0), [], 0, 0)
  }

  function Added(before: Core, after: Core): nat {
    if after.timer && !before.timer then 1 else 0
  }

  function PassBegun(s: State, source: Source, backupRunning: bool, haSync: bool): State {
    var (core, going) := Begun(s.core, backupRunning, haSync);
    State(core, if going then s.passes + [Pass(source, false)] else s.passes,
          s.scheduled + Added(s.core, core), s.started + if going then 1 else 0)
  }

  function Without(passes: seq<Pass>, i: nat): seq<Pass>
    requires i < |passes|
  {
    passes[..i] + passes[i + 1..]
  }

  function Step(s: State, e: Event): State {
    match e
    case Cron(backupRunning, haSync) =>
      PassBegun(State(RetriesReset(s.core), s.passes, 0, 0), FromCron, backupRunning, haSync)
    case Timer(backupRunning, haSync) =>
      if s.core.timer then PassBegun(s.(core := s.core.(timer := false)), FromRetry, backupRunning, haSync) else s
    case Postpone(i) => if i < |s.passes| then s.(passes := s.passes[i := s.passes[i].(postponed := true)]) else s
    case End(i) =>
      if i < |s.passes| then
        var core := Ended(s.core, s.passes[i].source, s.passes[i].postponed);
        s.(core := core, passes := Without(s.passes, i), scheduled := s.scheduled + Added(s.core, core))
      else s
    case Throw(i) =>
      if i < |s.passes| then s.(core := s.core.(running := false), passes := Without(s.passes, i)) else s
  }

  ghost predicate Inv(s: State) {
    && |s.passes| == (if s.core.running then 1 else 0)
    && (s.core.running ==> !s.core.timer)
    && s.core.count == s.scheduled <= s.core.maxRetries
    && (s.core.running && s.passes[0].source == FromCron ==> s.core.count == 0)
    && s.started + (if s.core.timer then 1 else 0) <= s.scheduled + 1
  }

  lemma StepKeeps(s: State, e: Event)
    requires Inv(s)
    ensures Inv(Step(s, e)) && Step(s, e).core.maxRetries == s.core.maxRetries
  {
  }

  /** In every run, between two cron firings: passes never overlap, no timer is pending while one runs, the
      retries scheduled are as many as the counter says and never more than the maximum, and at most one pass
      more than that is begun, however passes are postponed, end or throw. */
  lemma {:induction false} RetriesBounded(active: bool, maxRetries: nat, evs: seq<Event>)
    ensures var s := Exec(Step, Init(active, maxRetries), evs);
      && |s.passes| <= 1 && (s.core.running <==> |s.passes| == 1)
      && (|s.passes| == 1 ==> !s.core.timer)
      && s.core.count == s.scheduled <= maxRetries
      && s.started <= s.scheduled + 1 <= maxRetries + 1
      && Inv(s) && s.core.maxRetries == maxRetries
    decreases |evs|
  {
    if evs != [] {
      RetriesBounded(active, maxRetries, evs[..|evs| - 1]);
      StepKeeps(Exec(Step, Init(active, maxRetries), evs[..|evs| - 1]), evs[|evs| - 1]);
    }
  }

  /** A postponed pass is retried as long as the maximum allows: after it ends a timer is pending or the
      counter has reached the maximum. */
  lemma PostponedIsRetried(s: State, i: nat)
    requires Inv(s) && s.core.active && i < |s.passes| && s.passes[i].postponed
    ensures var t := Step(s, End(i));
      !t.core.running && (t.core.timer <==> s.scheduled < s.core.maxRetries)
      && t.scheduled == s.scheduled + if t.core.timer then 1 else 0
  {
  }

  /** When a cron firing or a due timer begins a pass: if sweeps are on and none runs, and neither a backup nor the
      HA sync does; those two schedule a retry instead, where the maximum allows one. */
  lemma BeginsExactly(s: State, backupRunning: bool, haSync: bool)
    ensures var t := Step(s, Cron(backupRunning, haSync)); var free := s.core.active && !s.core.running;
      && t.passes == (if free && !backupRunning && !haSync then s.passes + [Pass(FromCron, false)] else s.passes)
      && t.core.running == (s.core.running || (free && !backupRunning && !haSync))
      && t.core.timer == (free && (backupRunning || haSync) && s.core.maxRetries > 0)
      && t.core.count == t.scheduled == (if t.core.timer then 1 else 0)
      && t.started == |t.passes| - |s.passes|
    ensures var t := Step(s, Timer(backupRunning, haSync)); var free := s.core.active && !s.core.running;
      if !s.core.timer then t == s
      else
        && t.passes == (if free && !backupRunning && !haSync then s.passes + [Pass(FromRetry, false)] else s.passes)
        && t.core.running == (s.core.running || (free && !backupRunning && !haSync))
        && t.core.timer == (free && (backupRunning || haSync) && s.core.count < s.core.maxRetries)
        && t.core.count - s.core.count == t.scheduled - s.scheduled == (if t.core.timer then 1 else 0)
        && t.started - s.started == |t.passes| - |s.passes|
  {
  }

  /** How a pass ends: postponed it is retried once more where the maximum allows, completed for the cron it
      clears the counter, and one that throws leaves timer and counter alone. */
  lemma EndsExactly(s: State, i: nat)
    requires i < |s.passes|
    ensures var t := Step(s, End(i)); var pass := s.passes[i];
      var retry := pass.postponed && s.core.active && !s.core.timer && s.core.count < s.core.maxRetries;
      && !t.core.running && t.core.timer == (s.core.timer || retry)
      && t.core.count == (if retry then s.core.count + 1
                          else if !pass.postponed && pass.source == FromCron then 0 else s.core.count)
      && t.passes == s.passes[..i] + s.passes[i + 1..] && t.started == s.started
      && t.scheduled == s.scheduled + if retry then 1 else 0
    ensures Step(s, Throw(i)) == s.(core := s.core.(running := false), passes := s.passes[..i] + s.passes[i + 1..])
    ensures Step(s, Postpone(i)) == s.(passes := s.passes[i := Pass(s.passes[i].source, true)])
  {
  }
}
