/** Routine locks and circuit breaker of the worker (worker.js): a global and a per-database lock that lapse
    after an hour and are cleared by routine name, and a breaker per database with a cooldown. */
module RoutineLocks {
  import opened Runs

  type Db = nat
  type Time = int

  const LOCK_MS: int := 60 * 60 * 1000

  /** Backups share the lock; every other routine goes through withDatabaseRoutineLock. A backup's name
      carries a reason, but its one caller always gives the same. */
  datatype Routine = SessionHistory | DatabaseCheck | WeeklySweep | Backup

  /** Its caller lets in one at a time: sessionCollectionRunning, scheduledSweepRunning, backupRunning. */
  predicate HasFlag(routine: Routine) {
    routine != DatabaseCheck
  }

  /** Its script is of the class monitor, the only one the host ever answers with deferred. */
  predicate IsProbe(routine: Routine) {
    routine.SessionHistory? || routine.DatabaseCheck?
  }

  datatype Lock = Lock(routine: Routine, db: Db, startedAt: Time)
  datatype LockKey = Global | Of(db: Db)

  /** degradedUntil is 0 where the breaker never tripped. */
  datatype Breaker = Breaker(failures: nat, degradedUntil: Time)

  /** How the error text classifies: a timeout, another connectivity failure, anything else. */
  datatype Failure = TimedOut | Unreachable | OtherFailure

  type Locks = map<LockKey, Lock>
  type Breakers = map<Db, Breaker>

  // ----- the functions on the two maps -----

  function ActiveLock(locks: Locks, key: LockKey, now: Time): Option<Lock> {
    if key in locks && now - locks[key].startedAt < LOCK_MS then Some(locks[key]) else None
  }

  /** Looking at a lapsed lock deletes it. */
  function Looked(locks: Locks, key: LockKey, now: Time): Locks {
    if key in locks && now - locks[key].startedAt >= LOCK_MS then locks - {key} else locks
  }

  function Current(breakers: Breakers, db: Db): Breaker {
    if db in breakers then breakers[db] else Breaker(0, 0)
  }

  predicate Open(breakers: Breakers, db: Db, now: Time) {
    Current(breakers, db).degradedUntil != 0 && now < Current(breakers, db).degradedUntil
  }

  /** The checks before a routine and the locks it takes: the new locks, and whether it may run. */
  function Entered(locks: Locks, breakers: Breakers, db: Db, routine: Routine, now: Time): (Locks, bool) {
    var l1 := Looked(locks, Global, now);
    if ActiveLock(locks, Global, now).Some? then (l1, false)
    else
      var l2 := Looked(l1, Of(db), now);
      if ActiveLock(l1, Of(db), now).Some? || Open(breakers, db, now) then (l2, false)
      else (l2[Global := Lock(routine, db, now)][Of(db) := Lock(routine, db, now)], true)
  }

  function Released(locks: Locks, key: LockKey, routine: Routine): Locks {
    if key in locks && locks[key].routine == routine then locks - {key} else locks
  }

  function Cleared(locks: Locks, db: Db, routine: Routine): Locks {
    Released(Released(locks, Global, routine), Of(db), routine)
  }

  predicate Trips(failures: nat, kind: Failure, threshold: nat) {
    kind != OtherFailure && (failures >= threshold || kind == TimedOut)
  }

  /** The record markFirebirdFailure computes before it awaits anything. */
  function FailureRecord(breakers: Breakers, db: Db, kind: Failure, now: Time, cooldownMs: nat,
                         threshold: nat): Breaker {
    var failures := Current(breakers, db).failures + 1;
    Breaker(failures, if Trips(failures, kind, threshold) then now + cooldownMs
                      else Current(breakers, db).degradedUntil)
  }

  /** A lock younger than an hour. */
  predicate IsHeld(locks: Locks, key: LockKey, now: Time) {
    key in locks && now - locks[key].startedAt < 60 * 60 * 1000
  }

  /** The breaker of db was tripped and its cooldown is not over. */
  predicate IsDegraded(breakers: Breakers, db: Db, now: Time) {
    db in breakers && breakers[db].degradedUntil != 0 && now < breakers[db].degradedUntil
  }

  /** A routine is let in if and only if neither lock is held and the breaker is not open. Its record is then in
      both entries, and no other entry changes; otherwise lapsed entries are dropped, of the two those it looked at. */
  lemma EnteredExactly(locks: Locks, breakers: Breakers, db: Db, routine: Routine, now: Time)
    ensures var (after, granted) := Entered(locks, breakers, db, routine, now);
      && (granted <==> !IsHeld(locks, Global, now) && !IsHeld(locks, Of(db), now) && !IsDegraded(breakers, db, now))
      && (granted ==> after == locks[Global := Lock(routine, db, now)][Of(db) := Lock(routine, db, now)])
      && (!granted ==> forall key ::
            && (key in after ==> after[key] == locks[key])
            && (key in after <==> key in locks && (IsHeld(locks, key, now) || (key != Global && key != Of(db))
                                                   || (key == Of(db) && IsHeld(locks, Global, now)))))
  {
  }

  // ----- the module's variables and its code between two awaits -----

  class Worker {
    const cooldownMs: nat
    const threshold: nat
    var databaseRoutineLocks: Locks
    var firebirdCircuitBreakers: Breakers

    constructor (cooldownMs: nat, threshold: nat)
      ensures this.cooldownMs == cooldownMs && this.threshold == threshold
      ensures databaseRoutineLocks == map[] && firebirdCircuitBreakers == map[]
    {
      this.cooldownMs, this.threshold := cooldownMs, threshold;
      databaseRoutineLocks, firebirdCircuitBreakers := map[], map[];
    }

    method ActiveRoutineLock(key: LockKey, now: Time) returns (active: Option<Lock>)
      modifies this`databaseRoutineLocks
      ensures active == ActiveLock(old(databaseRoutineLocks), key, now)
      ensures databaseRoutineLocks == Looked(old(databaseRoutineLocks), key, now)
      ensures active.Some? <==> IsHeld(old(databaseRoutineLocks), key, now)
      ensures active.Some? ==> active.value == old(databaseRoutineLocks)[key]
      ensures databaseRoutineLocks
           == if active.Some? then old(databaseRoutineLocks) else old(databaseRoutineLocks) - {key}
    {
      if key !in databaseRoutineLocks {
        return None;
      }
      var lock := databaseRoutineLocks[key];
      if now - lock.startedAt < LOCK_MS {
        return Some(lock);
      }
      databaseRoutineLocks := databaseRoutineLocks - {key};
      active := None;
    }

    method FirebirdCircuitOpen(db: Db, now: Time) returns (open: bool)
      ensures open == Open(firebirdCircuitBreakers, db, now)
      ensures open <==> IsDegraded(firebirdCircuitBreakers, db, now)
    {
      var state := if db in firebirdCircuitBreakers then firebirdCircuitBreakers[db] else Breaker(0, 0);
      if state.degradedUntil == 0 || now >= state.degradedUntil {
        return false;
      }
      open := true;
    }

    /** From the lock check to the lock being set: one stretch without an await, in withDatabaseRoutineLock
        and in runBackup alike. */
    method Enter(db: Db, routine: Routine, now: Time) returns (granted: bool)
      modifies this`databaseRoutineLocks
      ensures (databaseRoutineLocks, granted)
           == Entered(old(databaseRoutineLocks), firebirdCircuitBreakers, db, routine, now)
      ensures granted <==>
        && !IsHeld(old(databaseRoutineLocks), Global, now) && !IsHeld(old(databaseRoutineLocks), Of(db), now)
        && !IsDegraded(firebirdCircuitBreakers, db, now)
    {
      var active := ActiveRoutineLock(Global, now);
      if active.None? {
        active := ActiveRoutineLock(Of(db), now);
      }
      if active.Some? {
        return false;
      }
      var open := FirebirdCircuitOpen(db, now);
      if open {
        return false;
      }
      var lock := Lock(routine, db, now);
      databaseRoutineLocks := databaseRoutineLocks[Global := lock];
      databaseRoutineLocks := databaseRoutineLocks[Of(db) := lock];
      granted := true;
    }

    method ClearDatabaseRoutineLock(db: Db, routine: Routine)
      modifies this`databaseRoutineLocks
      ensures databaseRoutineLocks == Cleared(old(databaseRoutineLocks), db, routine)
      ensures forall key :: key in databaseRoutineLocks <==>
                && key in old(databaseRoutineLocks)
                && !((key == Global || key == Of(db)) && old(databaseRoutineLocks)[key].routine == routine)
      ensures forall key :: key in databaseRoutineLocks ==> databaseRoutineLocks[key] == old(databaseRoutineLocks)[key]
    {
      var keys := [Global, Of(db)];
      for i := 0 to |keys|
        invariant i == 0 ==> databaseRoutineLocks == old(databaseRoutineLocks)
        invariant i == 1 ==> databaseRoutineLocks == Released(old(databaseRoutineLocks), Global, routine)
        invariant i == 2 ==> databaseRoutineLocks == Cleared(old(databaseRoutineLocks), db, routine)
      {
        var key := keys[i];
        if key in databaseRoutineLocks && databaseRoutineLocks[key].routine == routine {
          databaseRoutineLocks := databaseRoutineLocks - {key};
        }
      }
    }

    method MarkFirebirdSuccess(db: Db)
      modifies this`firebirdCircuitBreakers
      ensures firebirdCircuitBreakers == old(firebirdCircuitBreakers) - {db}
    {
      firebirdCircuitBreakers := firebirdCircuitBreakers - {db};
    }

    /** markFirebirdFailure up to its first await: a record that trips the breaker is only stored after the
        database and alert writes, so it is handed back. */
    method MarkFirebirdFailure(db: Db, kind: Failure, inGrace: bool, now: Time) returns (pending: Option<Breaker>)
      modifies this`firebirdCircuitBreakers
      ensures var data := FailureRecord(old(firebirdCircuitBreakers), db, kind, now, cooldownMs, threshold);
        if inGrace then pending == None && firebirdCircuitBreakers == old(firebirdCircuitBreakers)
        else if Trips(data.failures, kind, threshold)
        then pending == Some(data) && firebirdCircuitBreakers == old(firebirdCircuitBreakers)
        else pending == None && firebirdCircuitBreakers == old(firebirdCircuitBreakers)[db := data]
    {
      if inGrace {
        return None;
      }
      var current := if db in firebirdCircuitBreakers then firebirdCircuitBreakers[db] else Breaker(0, 0);
      var data := Breaker(current.failures + 1, current.degradedUntil);
      if kind != OtherFailure && (data.failures >= threshold || kind == TimedOut) {
        data := data.(degradedUntil := now + cooldownMs);
        return Some(data);
      }
      firebirdCircuitBreakers := firebirdCircuitBreakers[db := data];
      pending := None;
    }
  }

  // ----- the worker with its routines -----

  datatype Phase = Body | Storing(data: Breaker) | Leaving | Gone

  datatype Task = Task(db: Db, routine: Routine, startedAt: Time, phase: Phase)

  /** A failure that tripped the breaker of db: the count in its record, the failures counted since the last
      success, itself included, and how many successes there had been. */
  datatype Trip = Trip(db: Db, kind: Failure, failures: nat, at: Time, counted: nat, round: nat)

  datatype Outcome =
    | Succeeded(validated: bool)
    | Deferred
    | Failed(kind: Failure, inGrace: bool)
    | ValidationFailed

  /** marks: failures of a database counted since its last success; rounds: its successes. */
  datatype State = State(cooldownMs: nat, threshold: nat, now: Time, locks: Locks, breakers: Breakers,
                         tasks: seq<Task>, trips: seq<Trip>, marks: map<Db, nat>, rounds: map<Db, nat>)

  datatype Event =
    | Pass(ms: nat)
    | Enter(db: Db, routine: Routine)
    | Close(task: nat)
    | End(task: nat, outcome: Outcome)
    | Store(task: nat)
    | Leave(task: nat)
    | Forget(db: Db)

  function Init(cooldownMs: nat, threshold: nat, now: Time): State {
    State(cooldownMs, threshold, now, map[], map[], [], [], map[], map[])
  }

  function Marks(s: State, db: Db): nat {
    if db in s.marks then s.marks[db] else 0
  }

  function Rounds(s: State, db: Db): nat {
    if db in s.rounds then s.rounds[db] else 0
  }

  predicate Live(s: State, i: int) {
    0 <= i < |s.tasks| && s.tasks[i].phase != Gone
  }

  predicate InProgress(s: State, routine: Routine) {
    exists i :: 0 <= i < |s.tasks| && Live(s, i) && s.tasks[i].routine == routine
  }

  function SuccessMarked(s: State, db: Db): State {
    s.(breakers := s.breakers - {db}, marks := s.marks[db := 0], rounds := s.rounds[db := Rounds(s, db) + 1])
  }

  function FailureEnded(s: State, i: nat, kind: Failure): State
    requires i < |s.tasks|
  {
    var t := s.tasks[i];
    var data := FailureRecord(s.breakers, t.db, kind, s.now, s.cooldownMs, s.threshold);
    var counted := Marks(s, t.db) + 1;
    var s' := s.(marks := s.marks[t.db := counted]);
    if Trips(data.failures, kind, s.threshold) then
      s'.(tasks := s.tasks[i := t.(phase := Storing(data))],
          trips := s.trips + [Trip(t.db, kind, data.failures, s.now, counted, Rounds(s, t.db))])
    else s'.(tasks := s.tasks[i := t.(phase := Leaving)], breakers := s.breakers[t.db := data])
  }

  /** The end of a routine's work. Only probes are ever answered deferred; only a backup validates, and its
      success closes the breaker only when the backup was validated. */
  function Ended(s: State, i: nat, outcome: Outcome): State
    requires i < |s.tasks|
  {
    var t := s.tasks[i];
    var left := s.(tasks := s.tasks[i := t.(phase := Leaving)]);
    match outcome
    case Succeeded(validated) => if t.routine.Backup? && !validated then left else SuccessMarked(left, t.db)
    case Deferred => if IsProbe(t.routine) then left else s
    case Failed(kind, inGrace) => if inGrace then left else FailureEnded(s, i, kind)
    case ValidationFailed => if t.routine.Backup? then left else s
  }

  /** A routine that awaits the writes before its breaker is stored leaves without storing it when one fails. */
  predicate MayLeave(t: Task) {
    t.phase == Leaving || t.phase.Storing?
  }

  /** Close: a routine marks its success and fails in what it does after. Forget: the session collector drops
      the breaker of a database in a restore or its grace period. */
  function Step(s: State, e: Event): State {
    match e
    case Pass(ms) => s.(now := s.now + ms)
    case Enter(db, routine) =>
      if HasFlag(routine) && InProgress(s, routine) then s
      else
        var (locks, granted) := Entered(s.locks, s.breakers, db, routine, s.now);
        s.(locks := locks, tasks := if granted then s.tasks + [Task(db, routine, s.now, Body)] else s.tasks)
    case Close(i) => if i < |s.tasks| && s.tasks[i].phase == Body then SuccessMarked(s, s.tasks[i].db) else s
    case End(i, outcome) => if i < |s.tasks| && s.tasks[i].phase == Body then Ended(s, i, outcome) else s
    case Store(i) =>
      if i < |s.tasks| && s.tasks[i].phase.Storing? then
        s.(breakers := s.breakers[s.tasks[i].db := s.tasks[i].phase.data],
           tasks := s.tasks[i := s.tasks[i].(phase := Leaving)])
      else s
    case Leave(i) =>
      if i < |s.tasks| && MayLeave(s.tasks[i]) then
        s.(locks := Cleared(s.locks, s.tasks[i].db, s.tasks[i].routine),
           tasks := s.tasks[i := s.tasks[i].(phase := Gone)])
      else s
    case Forget(db) => s.(breakers := s.breakers - {db})
  }

  lemma EndedFrame(s: State, i: nat, outcome: Outcome)
    requires i < |s.tasks| && s.tasks[i].phase == Body
    ensures var t := Ended(s, i, outcome);
      && t.locks == s.locks && t.now == s.now && |t.tasks| == |s.tasks|
      && t.tasks == s.tasks[i := t.tasks[i]] && t.tasks[i].phase != Gone && t.tasks[i].(phase := Body) == s.tasks[i]
  {
  }

  /** Between entering and leaving, a routine's record changes only its phase, and the locks not at all. */
  lemma TasksFrame(s: State, e: Event)
    requires !e.Enter? && (e.Leave? ==> Step(s, e) == s)
    ensures var t := Step(s, e);
      && t.locks == s.locks && |t.tasks| == |s.tasks| && s.now <= t.now
      && forall i :: 0 <= i < |s.tasks| ==>
           && (t.tasks[i].phase == Gone <==> s.tasks[i].phase == Gone)
           && t.tasks[i].(phase := Body) == s.tasks[i].(phase := Body)
  {
    if e.End? && e.task < |s.tasks| && s.tasks[e.task].phase == Body {
      EndedFrame(s, e.task, e.outcome);
    }
  }

  // ----- every lock belongs to a routine in progress -----

  function LockOf(t: Task): Lock {
    Lock(t.routine, t.db, t.startedAt)
  }

  /** The entry is one that t set when it entered. */
  predicate Carries(t: Task, key: LockKey, lock: Lock) {
    (key == Global || key == Of(t.db)) && lock == LockOf(t)
  }

  predicate IsYoung(s: State, i: int) {
    Live(s, i) && s.now - s.tasks[i].startedAt < LOCK_MS
  }

  predicate OwnedBy(s: State, key: LockKey, i: int) {
    Live(s, i) && key in s.locks && Carries(s.tasks[i], key, s.locks[key])
  }

  predicate HoldsBoth(locks: Locks, t: Task) {
    Global in locks && locks[Global] == LockOf(t) && Of(t.db) in locks && locks[Of(t.db)] == LockOf(t)
  }

  /** Every entry was set by a routine still in progress, no two in progress have the same name, and one
      younger than the lock expiry has both its entries. */
  ghost predicate LocksOwned(s: State) {
    && (forall key :: key in s.locks ==> exists i :: OwnedBy(s, key, i))
    && (forall i, j :: Live(s, i) && Live(s, j) && s.tasks[i].routine == s.tasks[j].routine ==> i == j)
    && (forall i :: IsYoung(s, i) ==> HoldsBoth(s.locks, s.tasks[i]))
  }

  /** Database checks have no flag of their own; their tools time out long before the lock does. */
  ghost predicate ChecksBrief(s: State) {
    forall i :: Live(s, i) && s.tasks[i].routine.DatabaseCheck? ==> IsYoung(s, i)
  }

  ghost predicate ChecksAlwaysBrief(s: State, evs: seq<Event>) {
    forall k :: 0 <= k < |evs| && evs[k].Enter? && evs[k].routine.DatabaseCheck? ==>
        ChecksBrief(Exec(Step, s, evs[..k]))
  }

  /** A routine is let in if and only if its flag is free, its database's breaker is closed and nothing in
      progress is younger than an hour: one hour is the exact bound, a routine that outlives it is overlapped. */
  lemma GrantedExactly(s: State, db: Db, routine: Routine)
    requires LocksOwned(s)
    ensures |Step(s, Enter(db, routine)).tasks| > |s.tasks| <==>
      && !(routine != DatabaseCheck && exists i :: Live(s, i) && s.tasks[i].routine == routine)
      && !IsDegraded(s.breakers, db, s.now) && forall i :: !IsYoung(s, i)
  {
    if i :| IsYoung(s, i) {
      assert HoldsBoth(s.locks, s.tasks[i]);
    } else {
      NothingActive(s, Global);
      NothingActive(s, Of(db));
    }
  }

  lemma NothingActive(s: State, key: LockKey)
    requires LocksOwned(s) && forall i :: !IsYoung(s, i)
    ensures ActiveLock(s.locks, key, s.now).None?
  {
    if key in s.locks {
      var i :| OwnedBy(s, key, i);
      assert !IsYoung(s, i);
    }
  }

  /** Looking only drops entries, and none of a young routine. */
  lemma RefusedOwned(s: State, t: State)
    requires LocksOwned(s) && t == s.(locks := t.locks)
    requires forall key :: key in t.locks ==> key in s.locks && t.locks[key] == s.locks[key]
    requires forall key :: key in s.locks && key !in t.locks ==> s.now - s.locks[key].startedAt >= LOCK_MS
    ensures LocksOwned(t)
  {
    forall key | key in t.locks ensures exists i :: OwnedBy(t, key, i) {
      var i :| OwnedBy(s, key, i);
      assert OwnedBy(t, key, i);
    }
    forall i | IsYoung(t, i) ensures HoldsBoth(t.locks, t.tasks[i]) {
      assert IsYoung(s, i) && HoldsBoth(s.locks, s.tasks[i]);
    }
    assert forall i :: Live(t, i) <==> Live(s, i);
  }

  lemma GrantedFrame(s: State, db: Db, routine: Routine)
    requires |Step(s, Enter(db, routine)).tasks| > |s.tasks|
    ensures var t, task := Step(s, Enter(db, routine)), Task(db, routine, s.now, Body);
      && t == s.(locks := t.locks, tasks := s.tasks + [task]) && HoldsBoth(t.locks, task)
      && forall key :: key in t.locks && key != Global && key != Of(db) ==>
          key in s.locks && t.locks[key] == s.locks[key]
  {
  }

  lemma GrantedOwned(s: State, db: Db, routine: Routine)
    requires LocksOwned(s) && !InProgress(s, routine) && forall i :: !IsYoung(s, i)
    requires |Step(s, Enter(db, routine)).tasks| > |s.tasks|
    ensures LocksOwned(Step(s, Enter(db, routine)))
  {
    var t, n := Step(s, Enter(db, routine)), |s.tasks|;
    GrantedFrame(s, db, routine);
    forall key | key in t.locks ensures exists i :: OwnedBy(t, key, i) {
      if key == Global || key == Of(db) {
        assert OwnedBy(t, key, n);
      } else {
        var i :| OwnedBy(s, key, i);
        assert OwnedBy(t, key, i);
      }
    }
    forall i | Live(t, i) && i != n ensures Live(s, i) && !IsYoung(t, i) && t.tasks[i].routine != routine {
      assert !IsYoung(s, i);
    }
  }

  lemma EnterOwned(s: State, db: Db, routine: Routine)
    requires LocksOwned(s) && (routine.DatabaseCheck? ==> ChecksBrief(s))
    ensures LocksOwned(Step(s, Enter(db, routine)))
  {
    var t := Step(s, Enter(db, routine));
    GrantedExactly(s, db, routine);
    if |t.tasks| > |s.tasks| {
      GrantedOwned(s, db, routine);
    } else {
      RefusedOwned(s, t);
    }
  }

  /** The finisher removes its own entries, all of them that are left, and no others. */
  lemma LeaveOwnOnly(s: State, i: nat)
    requires LocksOwned(s) && i < |s.tasks| && MayLeave(s.tasks[i])
    ensures var t := Step(s, Leave(i));
      && (forall key :: key in t.locks ==> key in s.locks && t.locks[key] == s.locks[key])
      && (forall key :: key in s.locks ==> (key !in t.locks <==> OwnedBy(s, key, i)))
  {
    var t := Step(s, Leave(i));
    forall key | key in s.locks ensures key !in t.locks <==> OwnedBy(s, key, i) {
      var j :| OwnedBy(s, key, j);
      if key !in t.locks {
        assert s.tasks[j].routine == s.tasks[i].routine && Live(s, i);
      }
    }
  }

  lemma LeaveOwned(s: State, i: nat)
    requires LocksOwned(s) && i < |s.tasks| && MayLeave(s.tasks[i])
    ensures LocksOwned(Step(s, Leave(i)))
  {
    var t := Step(s, Leave(i));
    LeaveOwnOnly(s, i);
    forall j | Live(t, j) ensures Live(s, j) && j != i && t.tasks[j] == s.tasks[j] {}
    forall key | key in t.locks ensures exists j :: OwnedBy(t, key, j) {
      var j :| OwnedBy(s, key, j);
      assert OwnedBy(t, key, j);
    }
    forall j | IsYoung(t, j) ensures HoldsBoth(t.locks, t.tasks[j]) {
      assert IsYoung(s, j) && HoldsBoth(s.locks, s.tasks[j]);
      assert !OwnedBy(s, Global, i) && !OwnedBy(s, Of(s.tasks[j].db), i);
    }
  }

  lemma OtherOwned(s: State, e: Event)
    requires LocksOwned(s) && !e.Enter? && (e.Leave? ==> Step(s, e) == s)
    ensures LocksOwned(Step(s, e))
  {
    var t := Step(s, e);
    TasksFrame(s, e);
    forall i | Live(t, i) ensures Live(s, i) && LockOf(t.tasks[i]) == LockOf(s.tasks[i]) {}
    forall key | key in t.locks ensures exists i :: OwnedBy(t, key, i) {
      var i :| OwnedBy(s, key, i);
      assert OwnedBy(t, key, i);
    }
    forall i | IsYoung(t, i) ensures HoldsBoth(t.locks, t.tasks[i]) {
      assert IsYoung(s, i) && HoldsBoth(s.locks, s.tasks[i]);
    }
  }

  lemma StepOwned(s: State, e: Event)
    requires LocksOwned(s) && (e.Enter? && e.routine.DatabaseCheck? ==> ChecksBrief(s))
    ensures LocksOwned(Step(s, e))
  {
    if e.Enter? {
      EnterOwned(s, e.db, e.routine);
    } else if e.Leave? && Step(s, e) != s {
      LeaveOwned(s, e.task);
    } else {
      OtherOwned(s, e);
    }
  }

  lemma {:induction false} RunOwned(cooldownMs: nat, threshold: nat, now: Time, evs: seq<Event>)
    requires ChecksAlwaysBrief(Init(cooldownMs, threshold, now), evs)
    ensures LocksOwned(Exec(Step, Init(cooldownMs, threshold, now), evs))
    decreases |evs|
  {
    if evs != [] {
      var s0, front, e := Init(cooldownMs, threshold, now), evs[..|evs| - 1], evs[|evs| - 1];
      forall k | 0 <= k < |front| && front[k].Enter? && front[k].routine.DatabaseCheck?
        ensures ChecksBrief(Exec(Step, s0, front[..k]))
      {
        assert front[..k] == evs[..k] && evs[k] == front[k];
      }
      RunOwned(cooldownMs, threshold, now, front);
      assert e.Enter? && e.routine.DatabaseCheck? ==> ChecksBrief(Exec(Step, s0, front));
      StepOwned(Exec(Step, s0, front), e);
    }
  }

  /** In every run, routines of any length included: no two in progress younger than an hour, no two of the
      same name, and no entry of the lock table without a routine in progress that set it. */
  lemma OneYoungRoutine(cooldownMs: nat, threshold: nat, now: Time, evs: seq<Event>)
    requires ChecksAlwaysBrief(Init(cooldownMs, threshold, now), evs)
    ensures var s := Exec(Step, Init(cooldownMs, threshold, now), evs);
      && (forall i, j :: IsYoung(s, i) && IsYoung(s, j) ==> i == j)
      && (forall i, j :: Live(s, i) && Live(s, j) && i != j ==> s.tasks[i].routine != s.tasks[j].routine)
      && (forall key :: key in s.locks ==> exists i :: OwnedBy(s, key, i))
  {
    RunOwned(cooldownMs, threshold, now, evs);
    var s := Exec(Step, Init(cooldownMs, threshold, now), evs);
    forall i, j | IsYoung(s, i) && IsYoung(s, j) ensures i == j {
      assert HoldsBoth(s.locks, s.tasks[i]) && HoldsBoth(s.locks, s.tasks[j]);
    }
  }

  /** A sweep that lasts an hour: the session collector and then a backup of the very database being swept
      run beside it. */
  lemma LongSweepOverlapped(cooldownMs: nat, threshold: nat, now: Time)
    ensures var evs := [Enter(1, WeeklySweep), Pass(LOCK_MS)] + [Enter(1, SessionHistory)] + [End(1, Succeeded(false))]
                       + [Leave(1)] + [Enter(1, Backup)];
      var s := Exec(Step, Init(cooldownMs, threshold, now), evs);
      && Live(s, 0) && Live(s, 2) && |s.tasks| == 3
      && s.tasks[0].routine == WeeklySweep && s.tasks[2].routine == Backup && s.tasks[0].db == s.tasks[2].db == 1
  {
    var s0, later := Init(cooldownMs, threshold, now), now + LOCK_MS;
    var e2 := [Enter(1, WeeklySweep), Pass(LOCK_MS)];
    assert e2 == [] + [Enter(1, WeeklySweep)] + [Pass(LOCK_MS)];
    ExecSnoc(Step, s0, [], Enter(1, WeeklySweep));
    ExecSnoc(Step, s0, [] + [Enter(1, WeeklySweep)], Pass(LOCK_MS));
    var sweep := Task(1, WeeklySweep, now, Body);
    var s2 := s0.(now := later, locks := LocksOf(sweep), tasks := [sweep]);
    assert Exec(Step, s0, e2) == s2;
    ExecSnoc(Step, s0, e2, Enter(1, SessionHistory));
    ExecSnoc(Step, s0, e2 + [Enter(1, SessionHistory)], End(1, Succeeded(false)));
    ExecSnoc(Step, s0, e2 + [Enter(1, SessionHistory)] + [End(1, Succeeded(false))], Leave(1));
    ExecSnoc(Step, s0, e2 + [Enter(1, SessionHistory)] + [End(1, Succeeded(false))] + [Leave(1)], Enter(1, Backup));
    BesideSweep(s2);
  }

  function LocksOf(t: Task): Locks {
    map[Global := LockOf(t), Of(t.db) := LockOf(t)]
  }

  /** The same from the state in which the sweep has run for an hour. */
  lemma BesideSweep(s: State)
    requires |s.tasks| == 1 && s.tasks[0] == Task(1, WeeklySweep, s.now - LOCK_MS, Body)
    requires s.locks == LocksOf(s.tasks[0]) && s.breakers == map[]
    ensures Step(Step(Step(Step(s, Enter(1, SessionHistory)), End(1, Succeeded(false))), Leave(1)),
                 Enter(1, Backup)).tasks
      == [s.tasks[0], Task(1, SessionHistory, s.now, Gone), Task(1, Backup, s.now, Body)]
  {
    var probe := Task(1, SessionHistory, s.now, Body);
    var s1 := Step(s, Enter(1, SessionHistory));
    assert s1.tasks == [s.tasks[0], probe] && s1.locks == LocksOf(probe);
    var s2 := Step(s1, End(1, Succeeded(false)));
    assert s2.tasks == [s.tasks[0], probe.(phase := Leaving)] && s2.locks == s1.locks && s2.breakers == map[];
    var s3 := Step(s2, Leave(1));
    assert s3.tasks == [s.tasks[0], probe.(phase := Gone)] && s3.locks == map[];
    forall i | Live(s3, i) ensures s3.tasks[i].routine != Backup {}
  }

  // ----- mutual exclusion -----

  /** At most one routine is in progress, and the lock table holds its two entries and nothing else. */
  ghost predicate Exclusive(s: State) {
    && (forall i, j :: Live(s, i) && Live(s, j) ==> i == j)
    && (forall i :: Live(s, i) ==> s.locks == LocksOf(s.tasks[i]))
    && ((forall i :: 0 <= i < |s.tasks| ==> !Live(s, i)) ==> s.locks == map[])
  }

  /** Every routine in progress is younger than the lock expiry. */
  ghost predicate Young(s: State) {
    forall i :: Live(s, i) ==> IsYoung(s, i)
  }

  /** Whenever a routine tries to start, the ones in progress are younger than the lock expiry. */
  ghost predicate Timely(s: State, evs: seq<Event>) {
    forall k :: 0 <= k < |evs| && evs[k].Enter? ==> Young(Exec(Step, s, evs[..k]))
  }

  lemma EnterExclusive(s: State, db: Db, routine: Routine)
    requires Exclusive(s) && Young(s)
    ensures Exclusive(Step(s, Enter(db, routine)))
  {
    var t := Step(s, Enter(db, routine));
    if i :| Live(s, i) {
      assert s.locks == LocksOf(s.tasks[i]) && IsYoung(s, i);
      assert t == s;
    } else {
      assert s.locks == map[];
      forall i | Live(t, i) ensures i == |s.tasks| {
        if i < |s.tasks| {
          assert Live(s, i);
        }
      }
      if |t.tasks| > |s.tasks| {
        assert Live(t, |s.tasks|);
        assert t.locks == LocksOf(t.tasks[|s.tasks|]);
      }
    }
  }

  lemma LeaveExclusive(s: State, i: nat)
    requires Exclusive(s) && i < |s.tasks| && MayLeave(s.tasks[i])
    ensures Exclusive(Step(s, Leave(i)))
  {
    assert Live(s, i);
    var t := Step(s, Leave(i));
    forall j | 0 <= j < |t.tasks| ensures !Live(t, j) {
      assert j != i && Live(t, j) ==> Live(s, j);
    }
    assert t.locks == map[];
  }

  lemma StepExclusive(s: State, e: Event)
    requires Exclusive(s) && (e.Enter? ==> Young(s))
    ensures Exclusive(Step(s, e))
  {
    var t := Step(s, e);
    if e.Enter? {
      EnterExclusive(s, e.db, e.routine);
    } else if e.Leave? && t != s {
      LeaveExclusive(s, e.task);
    } else {
      TasksFrame(s, e);
      forall i | Live(t, i) ensures Live(s, i) && t.locks == LocksOf(t.tasks[i]) {
        assert s.locks == LocksOf(s.tasks[i]) && LockOf(t.tasks[i]) == LockOf(s.tasks[i]);
      }
      if forall i :: 0 <= i < |t.tasks| ==> !Live(t, i) {
        forall i | 0 <= i < |s.tasks| ensures !Live(s, i) {
          assert !Live(t, i);
        }
      }
    }
  }

  /** In every run in which routines in progress are younger than an hour whenever another tries to start, at
      most one runs at a time across all databases, whatever its kind. */
  lemma {:induction false} MutualExclusion(cooldownMs: nat, threshold: nat, now: Time, evs: seq<Event>)
    requires Timely(Init(cooldownMs, threshold, now), evs)
    ensures Exclusive(Exec(Step, Init(cooldownMs, threshold, now), evs))
    decreases |evs|
  {
    if evs != [] {
      var s0, front := Init(cooldownMs, threshold, now), evs[..|evs| - 1];
      TimelyFront(s0, evs);
      MutualExclusion(cooldownMs, threshold, now, front);
      assert evs[|evs| - 1].Enter? ==> Young(Exec(Step, s0, front));
      StepExclusive(Exec(Step, s0, front), evs[|evs| - 1]);
    }
  }

  lemma TimelyFront(s: State, evs: seq<Event>)
    requires evs != [] && Timely(s, evs)
    ensures Timely(s, evs[..|evs| - 1])
  {
    var front := evs[..|evs| - 1];
    forall k | 0 <= k < |front| && front[k].Enter? ensures Young(Exec(Step, s, front[..k])) {
      assert front[..k] == evs[..k] && evs[k].Enter?;
    }
  }

  // ----- the breaker, in every run -----

  /** A trip of db that keeps its breaker open until the given time. */
  predicate TrippedUntil(s: State, db: Db, until: Time, i: int) {
    0 <= i < |s.trips| && s.trips[i].db == db && until == s.trips[i].at + s.cooldownMs
  }

  ghost predicate Earned(s: State, db: Db, data: Breaker) {
    data.degradedUntil != 0 ==> exists i :: TrippedUntil(s, db, data.degradedUntil, i)
  }

  ghost predicate BreakerInv(s: State) {
    && (forall db :: db in s.breakers ==> Earned(s, db, s.breakers[db]))
    && (forall i :: 0 <= i < |s.tasks| && s.tasks[i].phase.Storing? ==> Earned(s, s.tasks[i].db, s.tasks[i].phase.data))
    && (forall i :: 0 <= i < |s.trips| ==>
          s.trips[i].at <= s.now && Trips(s.trips[i].failures, s.trips[i].kind, s.threshold))
  }

  lemma EarnedStays(s: State, t: State, db: Db, data: Breaker)
    requires Earned(s, db, data) && s.cooldownMs == t.cooldownMs && s.trips <= t.trips
    ensures Earned(t, db, data)
  {
    if data.degradedUntil != 0 {
      var i :| TrippedUntil(s, db, data.degradedUntil, i);
      assert TrippedUntil(t, db, data.degradedUntil, i);
    }
  }

  lemma FailureBreaker(s: State, i: nat, kind: Failure)
    requires BreakerInv(s) && i < |s.tasks| && s.tasks[i].phase == Body
    ensures BreakerInv(FailureEnded(s, i, kind))
  {
    var t := FailureEnded(s, i, kind);
    var db := s.tasks[i].db;
    var data := FailureRecord(s.breakers, db, kind, s.now, s.cooldownMs, s.threshold);
    forall d | d in s.breakers ensures Earned(t, d, s.breakers[d]) {
      EarnedStays(s, t, d, s.breakers[d]);
    }
    forall j | 0 <= j < |s.tasks| && s.tasks[j].phase.Storing? ensures Earned(t, s.tasks[j].db, s.tasks[j].phase.data) {
      EarnedStays(s, t, s.tasks[j].db, s.tasks[j].phase.data);
    }
    if |t.trips| > |s.trips| {
      assert TrippedUntil(t, db, data.degradedUntil, |s.trips|);
    }
    assert Earned(t, db, data);
  }

  lemma StoreBreaker(s: State, i: nat)
    requires BreakerInv(s) && i < |s.tasks| && s.tasks[i].phase.Storing?
    ensures BreakerInv(Step(s, Store(i)))
  {
    var t := Step(s, Store(i));
    forall db | db in t.breakers ensures Earned(t, db, t.breakers[db]) {
      EarnedStays(s, t, db, t.breakers[db]);
    }
    forall j | 0 <= j < |t.tasks| && t.tasks[j].phase.Storing? ensures Earned(t, t.tasks[j].db, t.tasks[j].phase.data) {
      EarnedStays(s, t, s.tasks[j].db, s.tasks[j].phase.data);
    }
  }

  /** The remaining events count no failure; they only drop breakers. */
  predicate CountsFailure(s: State, e: Event) {
    e.End? && e.task < |s.tasks| && s.tasks[e.task].phase == Body && e.outcome.Failed? && !e.outcome.inGrace
  }

  lemma OtherFrame(s: State, e: Event)
    requires !CountsFailure(s, e) && !e.Store?
    ensures var t := Step(s, e);
      && t.cooldownMs == s.cooldownMs && t.threshold == s.threshold && t.trips == s.trips && s.now <= t.now
      && (forall db :: db in t.breakers ==> db in s.breakers && t.breakers[db] == s.breakers[db])
      && (forall j :: 0 <= j < |t.tasks| && t.tasks[j].phase.Storing? ==> j < |s.tasks| && t.tasks[j] == s.tasks[j])
  {
  }

  lemma OtherBreaker(s: State, e: Event)
    requires BreakerInv(s) && !CountsFailure(s, e) && !e.Store?
    ensures BreakerInv(Step(s, e))
  {
    var t := Step(s, e);
    OtherFrame(s, e);
    forall db | db in t.breakers ensures Earned(t, db, t.breakers[db]) {
      EarnedStays(s, t, db, t.breakers[db]);
    }
    forall j | 0 <= j < |t.tasks| && t.tasks[j].phase.Storing? ensures Earned(t, t.tasks[j].db, t.tasks[j].phase.data) {
      EarnedStays(s, t, s.tasks[j].db, s.tasks[j].phase.data);
    }
  }

  lemma StepBreaker(s: State, e: Event)
    requires BreakerInv(s)
    ensures BreakerInv(Step(s, e))
  {
    if CountsFailure(s, e) {
      FailureBreaker(s, e.task, e.outcome.kind);
    } else if e.Store? {
      if e.task < |s.tasks| && s.tasks[e.task].phase.Storing? {
        StoreBreaker(s, e.task);
      }
    } else {
      OtherBreaker(s, e);
    }
  }

  lemma {:induction false} RunBreaker(s: State, evs: seq<Event>)
    requires BreakerInv(s)
    ensures BreakerInv(Exec(Step, s, evs))
    decreases |evs|
  {
    if evs != [] {
      RunBreaker(s, evs[..|evs| - 1]);
      StepBreaker(Exec(Step, s, evs[..|evs| - 1]), evs[|evs| - 1]);
    }
  }

  /** A trip of db less than one cooldown ago, by a timeout, or by a connectivity failure when the failure
      count in its record had reached the threshold. */
  predicate RecentTrip(s: State, db: Db, i: int) {
    && 0 <= i < |s.trips| && s.trips[i].db == db && s.trips[i].at <= s.now < s.trips[i].at + s.cooldownMs
    && (s.trips[i].kind == TimedOut || (s.trips[i].kind == Unreachable && s.threshold <= s.trips[i].failures))
  }

  /** In every run, overlapping routines included, a breaker that is open has such a trip. */
  lemma OpenMeansRecentTrip(cooldownMs: nat, threshold: nat, now: Time, evs: seq<Event>, db: Db)
    ensures var s := Exec(Step, Init(cooldownMs, threshold, now), evs);
      Open(s.breakers, db, s.now) ==> exists i :: RecentTrip(s, db, i)
  {
    RunBreaker(Init(cooldownMs, threshold, now), evs);
    var s := Exec(Step, Init(cooldownMs, threshold, now), evs);
    if Open(s.breakers, db, s.now) {
      var i :| TrippedUntil(s, db, s.breakers[db].degradedUntil, i);
      TripIsRecent(s, db, i);
    }
  }

  lemma TripIsRecent(s: State, db: Db, i: int)
    requires BreakerInv(s) && Open(s.breakers, db, s.now) && TrippedUntil(s, db, s.breakers[db].degradedUntil, i)
    ensures RecentTrip(s, db, i)
  {
  }

  // ----- the breaker and the last success -----

  /** A success of the task's database: the end of a routine, or its mark before it goes on. */
  predicate MarksSuccess(s: State, e: Event) {
    (e.End? || e.Close?) && e.task < |s.tasks| && s.tasks[e.task].phase == Body
    && (e.End? ==> e.outcome.Succeeded? && (s.tasks[e.task].routine.Backup? ==> e.outcome.validated))
  }

  /** A tripping record of db waits for the writes that are awaited before it is stored. */
  predicate Waits(s: State, db: Db, j: int) {
    0 <= j < |s.tasks| && s.tasks[j].phase.Storing? && s.tasks[j].db == db
  }

  /** It would open the breaker. */
  predicate IsCurrent(s: State, data: Breaker) {
    data.degradedUntil != 0 && s.now < data.degradedUntil
  }

  predicate WaitsToOpen(s: State, db: Db, j: int) {
    Waits(s, db, j) && IsCurrent(s, s.tasks[j].phase.data)
  }

  /** No success of a database is marked while a record of it waits that would open its breaker. */
  ghost predicate Calm(s: State, evs: seq<Event>) {
    forall k :: 0 <= k < |evs| ==> CalmStep(Exec(Step, s, evs[..k]), evs[k])
  }

  ghost predicate CalmStep(s: State, e: Event) {
    MarksSuccess(s, e) ==> forall j :: !WaitsToOpen(s, s.tasks[e.task].db, j)
  }

  /** The same of any record that waits. */
  ghost predicate Settled(s: State, evs: seq<Event>) {
    forall k :: 0 <= k < |evs| ==> SettledStep(Exec(Step, s, evs[..k]), evs[k])
  }

  ghost predicate SettledStep(s: State, e: Event) {
    MarksSuccess(s, e) ==> forall j :: !Waits(s, s.tasks[e.task].db, j)
  }

  predicate TripOfRound(s: State, db: Db, until: Time, i: int) {
    TrippedUntil(s, db, until, i) && s.trips[i].round == Rounds(s, db)
  }

  /** What keeps the breaker open is a trip since the last success. */
  ghost predicate IsFresh(s: State, db: Db, data: Breaker) {
    IsCurrent(s, data) ==> exists i :: TripOfRound(s, db, data.degradedUntil, i)
  }

  ghost predicate FreshInv(s: State) {
    && (forall db :: db in s.breakers ==> IsFresh(s, db, s.breakers[db]))
    && (forall j :: 0 <= j < |s.tasks| && s.tasks[j].phase.Storing? ==>
        IsFresh(s, s.tasks[j].db, s.tasks[j].phase.data))
  }

  lemma FreshStays(s: State, t: State, db: Db, data: Breaker)
    requires IsFresh(s, db, data) && s.cooldownMs == t.cooldownMs && s.trips <= t.trips && s.now <= t.now
    requires Rounds(s, db) == Rounds(t, db)
    ensures IsFresh(t, db, data)
  {
    if IsCurrent(t, data) {
      var i :| TripOfRound(s, db, data.degradedUntil, i);
      assert TripOfRound(t, db, data.degradedUntil, i);
    }
  }

  lemma FailureFresh(s: State, i: nat, kind: Failure)
    requires FreshInv(s) && i < |s.tasks| && s.tasks[i].phase == Body
    ensures FreshInv(FailureEnded(s, i, kind))
  {
    var t := FailureEnded(s, i, kind);
    var db := s.tasks[i].db;
    var data := FailureRecord(s.breakers, db, kind, s.now, s.cooldownMs, s.threshold);
    forall d | d in s.breakers ensures IsFresh(t, d, s.breakers[d]) {
      FreshStays(s, t, d, s.breakers[d]);
    }
    forall j | 0 <= j < |s.tasks| && s.tasks[j].phase.Storing?
      ensures IsFresh(t, s.tasks[j].db, s.tasks[j].phase.data)
    {
      FreshStays(s, t, s.tasks[j].db, s.tasks[j].phase.data);
    }
    if |t.trips| > |s.trips| {
      assert TripOfRound(t, db, data.degradedUntil, |s.trips|);
    }
    assert IsFresh(t, db, data);
  }

  lemma SuccessFresh(s: State, e: Event)
    requires FreshInv(s) && MarksSuccess(s, e) && CalmStep(s, e)
    ensures FreshInv(Step(s, e))
  {
    var t, db := Step(s, e), s.tasks[e.task].db;
    forall d | d in t.breakers ensures IsFresh(t, d, t.breakers[d]) {
      FreshStays(s, t, d, s.breakers[d]);
    }
    forall j | 0 <= j < |t.tasks| && t.tasks[j].phase.Storing?
      ensures IsFresh(t, t.tasks[j].db, t.tasks[j].phase.data)
    {
      assert t.tasks[j] == s.tasks[j];
      if s.tasks[j].db == db {
        assert Waits(s, db, j) && !WaitsToOpen(s, db, j);
      } else {
        FreshStays(s, t, s.tasks[j].db, s.tasks[j].phase.data);
      }
    }
  }

  lemma StoreFresh(s: State, i: nat)
    requires FreshInv(s) && i < |s.tasks| && s.tasks[i].phase.Storing?
    ensures FreshInv(Step(s, Store(i)))
  {
    var t := Step(s, Store(i));
    forall db | db in t.breakers ensures IsFresh(t, db, t.breakers[db]) {
      FreshStays(s, t, db, t.breakers[db]);
    }
    forall j | 0 <= j < |t.tasks| && t.tasks[j].phase.Storing?
      ensures IsFresh(t, t.tasks[j].db, t.tasks[j].phase.data)
    {
      FreshStays(s, t, s.tasks[j].db, s.tasks[j].phase.data);
    }
  }

  lemma CountsFrame(s: State, e: Event)
    requires !CountsFailure(s, e) && !MarksSuccess(s, e)
    ensures Step(s, e).marks == s.marks && Step(s, e).rounds == s.rounds
  {
  }

  lemma OtherFresh(s: State, e: Event)
    requires FreshInv(s) && !CountsFailure(s, e) && !MarksSuccess(s, e) && !e.Store?
    ensures FreshInv(Step(s, e))
  {
    var t := Step(s, e);
    OtherFrame(s, e);
    CountsFrame(s, e);
    forall db | db in t.breakers ensures IsFresh(t, db, t.breakers[db]) {
      FreshStays(s, t, db, t.breakers[db]);
    }
    forall j | 0 <= j < |t.tasks| && t.tasks[j].phase.Storing?
      ensures IsFresh(t, t.tasks[j].db, t.tasks[j].phase.data)
    {
      FreshStays(s, t, s.tasks[j].db, s.tasks[j].phase.data);
    }
  }

  lemma StepFresh(s: State, e: Event)
    requires FreshInv(s) && CalmStep(s, e)
    ensures FreshInv(Step(s, e))
  {
    if CountsFailure(s, e) {
      FailureFresh(s, e.task, e.outcome.kind);
    } else if MarksSuccess(s, e) {
      SuccessFresh(s, e);
    } else if e.Store? {
      if e.task < |s.tasks| && s.tasks[e.task].phase.Storing? {
        StoreFresh(s, e.task);
      }
    } else {
      OtherFresh(s, e);
    }
  }

  lemma {:induction false} RunFresh(s: State, evs: seq<Event>)
    requires FreshInv(s) && Calm(s, evs)
    ensures FreshInv(Exec(Step, s, evs))
    decreases |evs|
  {
    if evs != [] {
      var front := evs[..|evs| - 1];
      forall k | 0 <= k < |front| ensures CalmStep(Exec(Step, s, front[..k]), front[k]) {
        assert front[..k] == evs[..k] && CalmStep(Exec(Step, s, evs[..k]), evs[k]);
      }
      RunFresh(s, front);
      assert CalmStep(Exec(Step, s, evs[..|evs| - 1]), evs[|evs| - 1]);
      StepFresh(Exec(Step, s, front), evs[|evs| - 1]);
    }
  }

  /** The breaker of db is open although nothing tripped it since the last success of db. */
  ghost predicate OpenWithoutTrip(s: State, db: Db) {
    Open(s.breakers, db, s.now) && forall i :: RecentTrip(s, db, i) ==> s.trips[i].round != Rounds(s, db)
  }

  lemma FreshMeansTrip(s: State, db: Db)
    requires BreakerInv(s) && FreshInv(s)
    ensures !OpenWithoutTrip(s, db)
  {
    if Open(s.breakers, db, s.now) {
      assert IsFresh(s, db, s.breakers[db]);
      var i :| TripOfRound(s, db, s.breakers[db].degradedUntil, i);
      TripIsRecent(s, db, i);
    }
  }

  /** In every run, overlaps included, in which no success of a database is marked while a record that would
      open its breaker waits: an open breaker was tripped, less than one cooldown ago, since the last success. */
  lemma TrippedSinceSuccess(cooldownMs: nat, threshold: nat, now: Time, evs: seq<Event>, db: Db)
    requires Calm(Init(cooldownMs, threshold, now), evs)
    ensures !OpenWithoutTrip(Exec(Step, Init(cooldownMs, threshold, now), evs), db)
  {
    RunBreaker(Init(cooldownMs, threshold, now), evs);
    RunFresh(Init(cooldownMs, threshold, now), evs);
    FreshMeansTrip(Exec(Step, Init(cooldownMs, threshold, now), evs), db);
  }

  /** And that condition is exact: after any such run, a success opens the way to a breaker that is open with
      no trip since it, by a run that meets the condition, if and only if a record waits that would open it. */
  lemma SuccessExactly(cooldownMs: nat, threshold: nat, now: Time, evs: seq<Event>, e: Event)
    requires Calm(Init(cooldownMs, threshold, now), evs)
    requires MarksSuccess(Exec(Step, Init(cooldownMs, threshold, now), evs), e)
    ensures var s := Exec(Step, Init(cooldownMs, threshold, now), evs); var db := s.tasks[e.task].db;
      (exists more :: Calm(Step(s, e), more) && OpenWithoutTrip(Exec(Step, Step(s, e), more), db))
      <==> exists j :: WaitsToOpen(s, db, j)
  {
    var s := Exec(Step, Init(cooldownMs, threshold, now), evs);
    var db, t := s.tasks[e.task].db, Step(s, e);
    RunBreaker(Init(cooldownMs, threshold, now), evs);
    RunRounds(Init(cooldownMs, threshold, now), evs);
    if j :| WaitsToOpen(s, db, j) {
      StoredAfterSuccess(s, e, j);
    } else {
      RunFresh(Init(cooldownMs, threshold, now), evs);
      StepFresh(s, e);
      StepBreaker(s, e);
      forall more | Calm(t, more) ensures !OpenWithoutTrip(Exec(Step, t, more), db) {
        RunFresh(t, more);
        RunBreaker(t, more);
        FreshMeansTrip(Exec(Step, t, more), db);
      }
    }
  }

  /** No trip is of a round to come. */
  ghost predicate RoundsInv(s: State) {
    forall i :: 0 <= i < |s.trips| ==> s.trips[i].round <= Rounds(s, s.trips[i].db)
  }

  lemma StepRounds(s: State, e: Event)
    requires RoundsInv(s)
    ensures RoundsInv(Step(s, e))
  {
    if !CountsFailure(s, e) && !MarksSuccess(s, e) {
      CountsFrame(s, e);
      if !e.Store? {
        OtherFrame(s, e);
      }
    }
  }

  lemma {:induction false} RunRounds(s: State, evs: seq<Event>)
    requires RoundsInv(s)
    ensures RoundsInv(Exec(Step, s, evs))
    decreases |evs|
  {
    if evs != [] {
      RunRounds(s, evs[..|evs| - 1]);
      StepRounds(Exec(Step, s, evs[..|evs| - 1]), evs[|evs| - 1]);
    }
  }

  /** A success changes no other routine and no trip. */
  lemma SuccessFrame(s: State, e: Event, j: nat)
    requires MarksSuccess(s, e) && j < |s.tasks| && s.tasks[j].phase.Storing?
    ensures var t, db := Step(s, e), s.tasks[e.task].db;
      && j < |t.tasks| && t.tasks[j] == s.tasks[j] && t.trips == s.trips && t.now == s.now
      && t.cooldownMs == s.cooldownMs && t.threshold == s.threshold && t.locks == s.locks
      && Rounds(t, db) == Rounds(s, db) + 1 && Marks(t, db) == 0
  {
  }

  lemma StoredAfterSuccess(s: State, e: Event, j: nat)
    requires RoundsInv(s) && MarksSuccess(s, e) && WaitsToOpen(s, s.tasks[e.task].db, j)
    ensures var t := Step(s, e);
      Calm(t, [Store(j)]) && OpenWithoutTrip(Exec(Step, t, [Store(j)]), s.tasks[e.task].db)
  {
    SuccessFrame(s, e, j);
    var db := s.tasks[e.task].db;
    assert forall i :: 0 <= i < |s.trips| && s.trips[i].db == db ==> s.trips[i].round <= Rounds(s, db);
    StoreOpens(Step(s, e), db, j);
  }

  lemma StoreOpens(s: State, db: Db, j: nat)
    requires WaitsToOpen(s, db, j)
    requires forall i :: 0 <= i < |s.trips| && s.trips[i].db == db ==> s.trips[i].round != Rounds(s, db)
    ensures Calm(s, [Store(j)]) && OpenWithoutTrip(Exec(Step, s, [Store(j)]), db)
  {
    ExecSnoc(Step, s, [], Store(j));
    assert [] + [Store(j)] == [Store(j)];
    var u := Step(s, Store(j));
    assert u.breakers[db] == s.tasks[j].phase.data && u.trips == s.trips && Rounds(u, db) == Rounds(s, db);
  }

  const SWEEP_TIMES_OUT: seq<Event> := [Enter(1, WeeklySweep), Pass(LOCK_MS), End(0, Failed(TimedOut, false))]
  const COLLECTOR_SUCCEEDS: seq<Event> := [Enter(1, SessionHistory), End(1, Succeeded(false)), Store(0)]

  /** The run in which it happens: a sweep of an hour fails by a timeout, and while its alert is being written
      the session collector succeeds. */
  lemma SuccessBeforeStore(cooldownMs: nat, threshold: nat, now: Time)
    requires cooldownMs > 0 && now > 0
    ensures OpenWithoutTrip(Exec(Step, Init(cooldownMs, threshold, now), SWEEP_TIMES_OUT + COLLECTOR_SUCCEEDS), 1)
  {
    SweepTimesOut(cooldownMs, threshold, now);
    CollectorSucceeds(Waiting(cooldownMs, threshold, now), Breaker(1, now + LOCK_MS + cooldownMs));
    ExecConcat(Step, Init(cooldownMs, threshold, now), SWEEP_TIMES_OUT, COLLECTOR_SUCCEEDS);
  }

  /** The sweep has failed and its record waits. */
  function Waiting(cooldownMs: nat, threshold: nat, now: Time): State {
    var later := now + LOCK_MS;
    var sweep := Task(1, WeeklySweep, now, Storing(Breaker(1, later + cooldownMs)));
    State(cooldownMs, threshold, later, LocksOf(sweep), map[], [sweep], [Trip(1, TimedOut, 1, later, 1, 0)],
          map[1 := 1], map[])
  }

  function Sweeping(cooldownMs: nat, threshold: nat, began: Time, now: Time): State {
    var sweep := Task(1, WeeklySweep, began, Body);
    State(cooldownMs, threshold, now, LocksOf(sweep), map[], [sweep], [], map[], map[])
  }

  lemma SweepBegins(cooldownMs: nat, threshold: nat, now: Time)
    ensures Step(Init(cooldownMs, threshold, now), Enter(1, WeeklySweep)) == Sweeping(cooldownMs, threshold, now, now)
  {
  }

  lemma SweepFails(cooldownMs: nat, threshold: nat, now: Time)
    ensures Step(Sweeping(cooldownMs, threshold, now, now + LOCK_MS), End(0, Failed(TimedOut, false)))
         == Waiting(cooldownMs, threshold, now)
  {
  }

  lemma SweepTimesOut(cooldownMs: nat, threshold: nat, now: Time)
    ensures Exec(Step, Init(cooldownMs, threshold, now), SWEEP_TIMES_OUT) == Waiting(cooldownMs, threshold, now)
  {
    SweepBegins(cooldownMs, threshold, now);
    SweepFails(cooldownMs, threshold, now);
    assert Step(Sweeping(cooldownMs, threshold, now, now), Pass(LOCK_MS))
        == Sweeping(cooldownMs, threshold, now, now + LOCK_MS);
    ExecThree(Step, Init(cooldownMs, threshold, now),
              Enter(1, WeeklySweep), Pass(LOCK_MS), End(0, Failed(TimedOut, false)));
  }

  lemma CollectorBegins(s: State)
    requires |s.tasks| == 1 && s.tasks[0].routine == WeeklySweep && s.tasks[0].startedAt == s.now - LOCK_MS
    requires s.tasks[0].db == 1 && s.locks == LocksOf(s.tasks[0]) && s.breakers == map[]
    ensures var probe := Task(1, SessionHistory, s.now, Body);
      Step(s, Enter(1, SessionHistory)) == s.(tasks := s.tasks + [probe], locks := LocksOf(probe))
  {
  }

  /** Its success has been marked, and the sweep's record is stored. */
  lemma RecordStored(s: State, data: Breaker)
    requires |s.tasks| == 2 && s.tasks[0].phase == Storing(data) && s.tasks[0].db == 1
    requires s.tasks[1] == Task(1, SessionHistory, s.now, Body) && Rounds(s, 1) == 0
    requires IsCurrent(s, data) && |s.trips| == 1 && s.trips[0].round == 0
    ensures OpenWithoutTrip(Step(Step(s, End(1, Succeeded(false))), Store(0)), 1)
  {
    var s2 := Step(s, End(1, Succeeded(false)));
    assert s2 == SuccessMarked(s.(tasks := s.tasks[1 := s.tasks[1].(phase := Leaving)]), 1);
    var s3 := Step(s2, Store(0));
    assert s3.breakers[1] == data && s3.now == s.now && Rounds(s3, 1) == 1 && s3.trips == s.trips;
  }

  lemma CollectorSucceeds(s: State, data: Breaker)
    requires s.tasks == [Task(1, WeeklySweep, s.now - LOCK_MS, Storing(data))] && s.locks == LocksOf(s.tasks[0])
    requires IsCurrent(s, data) && s.breakers == map[] && Rounds(s, 1) == 0
    requires |s.trips| == 1 && s.trips[0].round == 0
    ensures OpenWithoutTrip(Exec(Step, s, COLLECTOR_SUCCEEDS), 1)
  {
    var probe := Task(1, SessionHistory, s.now, Body);
    CollectorBegins(s);
    RecordStored(s.(tasks := s.tasks + [probe], locks := LocksOf(probe)), data);
    ExecThree(Step, s, Enter(1, SessionHistory), End(1, Succeeded(false)), Store(0));
  }

  // ----- the breaker and the threshold -----

  /** No record, stored, waiting or of a trip, counts more failures than there were since the last success. */
  ghost predicate CountInv(s: State) {
    && (forall db :: db in s.breakers ==> s.breakers[db].failures <= Marks(s, db))
    && (forall j :: 0 <= j < |s.tasks| && s.tasks[j].phase.Storing? ==>
          s.tasks[j].phase.data.failures <= Marks(s, s.tasks[j].db))
    && (forall i :: 0 <= i < |s.trips| ==> s.trips[i].failures <= s.trips[i].counted)
  }

  /** A trip and a record that waits count at least the failure that they are. */
  ghost predicate TripsCounted(s: State) {
    && (forall i :: 0 <= i < |s.trips| ==> s.trips[i].counted >= 1)
    && (forall j :: 0 <= j < |s.tasks| && s.tasks[j].phase.Storing? ==> s.tasks[j].phase.data.failures >= 1)
  }

  lemma StepCounted(s: State, e: Event)
    requires TripsCounted(s)
    ensures TripsCounted(Step(s, e))
  {
    if !CountsFailure(s, e) && !e.Store? {
      OtherFrame(s, e);
    }
  }

  lemma {:induction false} RunCounted(s: State, evs: seq<Event>)
    requires TripsCounted(s)
    ensures TripsCounted(Exec(Step, s, evs))
    decreases |evs|
  {
    if evs != [] {
      RunCounted(s, evs[..|evs| - 1]);
      StepCounted(Exec(Step, s, evs[..|evs| - 1]), evs[|evs| - 1]);
    }
  }

  lemma SuccessCount(s: State, e: Event)
    requires CountInv(s) && MarksSuccess(s, e) && SettledStep(s, e)
    ensures CountInv(Step(s, e))
  {
    var t, db := Step(s, e), s.tasks[e.task].db;
    forall j | 0 <= j < |t.tasks| && t.tasks[j].phase.Storing?
      ensures t.tasks[j] == s.tasks[j] && t.tasks[j].db != db
    {
      assert !Waits(s, db, j);
    }
  }

  lemma FailureCount(s: State, i: nat, kind: Failure)
    requires CountInv(s) && i < |s.tasks| && s.tasks[i].phase == Body
    ensures CountInv(FailureEnded(s, i, kind))
  {
    var db := s.tasks[i].db;
    assert Current(s.breakers, db).failures <= Marks(s, db);
  }

  lemma OtherCount(s: State, e: Event)
    requires CountInv(s) && !CountsFailure(s, e) && !MarksSuccess(s, e) && !e.Store?
    ensures CountInv(Step(s, e))
  {
    CountsFrame(s, e);
    OtherFrame(s, e);
  }

  lemma StoreCount(s: State, i: nat)
    requires CountInv(s)
    ensures CountInv(Step(s, Store(i)))
  {
  }

  lemma StepCount(s: State, e: Event)
    requires CountInv(s) && SettledStep(s, e)
    ensures CountInv(Step(s, e))
  {
    if CountsFailure(s, e) {
      FailureCount(s, e.task, e.outcome.kind);
    } else if MarksSuccess(s, e) {
      SuccessCount(s, e);
    } else if e.Store? {
      StoreCount(s, e.task);
    } else {
      OtherCount(s, e);
    }
  }

  lemma {:induction false} RunCount(s: State, evs: seq<Event>)
    requires CountInv(s) && Settled(s, evs)
    ensures CountInv(Exec(Step, s, evs))
    decreases |evs|
  {
    if evs != [] {
      var front := evs[..|evs| - 1];
      forall k | 0 <= k < |front| ensures SettledStep(Exec(Step, s, front[..k]), front[k]) {
        assert front[..k] == evs[..k] && SettledStep(Exec(Step, s, evs[..k]), evs[k]);
      }
      RunCount(s, front);
      assert SettledStep(Exec(Step, s, evs[..|evs| - 1]), evs[|evs| - 1]);
      StepCount(Exec(Step, s, front), evs[|evs| - 1]);
    }
  }

  lemma SettledMeansCalm(s: State, evs: seq<Event>)
    requires Settled(s, evs)
    ensures Calm(s, evs)
  {
    forall k | 0 <= k < |evs| ensures CalmStep(Exec(Step, s, evs[..k]), evs[k]) {
      assert SettledStep(Exec(Step, s, evs[..k]), evs[k]);
    }
  }

  /** A recent trip since the last success, which if not a timeout came when at least the threshold number of
      failures had been counted since then. */
  predicate TripSinceSuccess(s: State, db: Db, i: int) {
    && RecentTrip(s, db, i) && s.trips[i].round == Rounds(s, db)
    && (s.trips[i].kind == TimedOut || s.threshold <= s.trips[i].counted)
  }

  /** In every run, overlaps included, in which no success of a database is marked while a record of it waits
      to be stored: an open breaker was tripped since the last success, and by a connectivity failure only at
      the threshold of failures since then. */
  lemma OpenSinceLastSuccess(cooldownMs: nat, threshold: nat, now: Time, evs: seq<Event>, db: Db)
    requires Settled(Init(cooldownMs, threshold, now), evs)
    ensures var s := Exec(Step, Init(cooldownMs, threshold, now), evs);
      Open(s.breakers, db, s.now) ==> exists i :: TripSinceSuccess(s, db, i)
  {
    var s := Exec(Step, Init(cooldownMs, threshold, now), evs);
    RunCount(Init(cooldownMs, threshold, now), evs);
    SettledMeansCalm(Init(cooldownMs, threshold, now), evs);
    TrippedSinceSuccess(cooldownMs, threshold, now, evs, db);
    if Open(s.breakers, db, s.now) {
      var i :| RecentTrip(s, db, i) && s.trips[i].round == Rounds(s, db);
      assert TripSinceSuccess(s, db, i);
    }
  }

  /** The breaker of db is open with no trip since its last success, or by a connectivity failure below the
      threshold of failures since then. */
  ghost predicate OpenedWrongly(s: State, db: Db) {
    Open(s.breakers, db, s.now) && forall i :: !TripSinceSuccess(s, db, i)
  }

  /** The record would open the breaker, or is counted on from where the threshold is more than one. */
  predicate Misleads(s: State, db: Db, j: int) {
    Waits(s, db, j) && s.cooldownMs > 0 && (IsCurrent(s, s.tasks[j].phase.data) || s.threshold > 1)
  }

  /** The condition is exact: after any such run, a success opens the way to a breaker opened wrongly, by a run
      that meets the condition, if and only if a record waits and, where it is past its cooldown, the
      threshold is more than one. */
  lemma SettledExactly(cooldownMs: nat, threshold: nat, now: Time, evs: seq<Event>, e: Event)
    requires Settled(Init(cooldownMs, threshold, now), evs) && now > 0
    requires MarksSuccess(Exec(Step, Init(cooldownMs, threshold, now), evs), e)
    ensures var s := Exec(Step, Init(cooldownMs, threshold, now), evs); var db := s.tasks[e.task].db;
      (exists more :: Settled(Step(s, e), more) && OpenedWrongly(Exec(Step, Step(s, e), more), db))
      <==> exists j :: Misleads(s, db, j)
  {
    var s0 := Init(cooldownMs, threshold, now);
    var s := Exec(Step, s0, evs);
    var db, t := s.tasks[e.task].db, Step(s, e);
    RunBreaker(s0, evs);
    RunRounds(s0, evs);
    RunPast(s0, evs);
    RunCounted(s0, evs);
    if j :| Misleads(s, db, j) {
      MisledAfterSuccess(s, e, j);
    } else {
      SettledMeansCalm(s0, evs);
      RunFresh(s0, evs);
      RunCount(s0, evs);
      forall more | Settled(t, more) ensures !OpenedWrongly(Exec(Step, t, more), db) {
        NeverMisled(s, e, more);
      }
    }
  }

  /** Nothing in the run marks a success. */
  predicate NoSuccess(evs: seq<Event>) {
    forall e :: e in evs ==> !e.Close? && (e.End? ==> !e.outcome.Succeeded?)
  }

  lemma NoSuccessSettled(s: State, evs: seq<Event>)
    requires NoSuccess(evs)
    ensures Settled(s, evs)
  {
    forall k | 0 <= k < |evs| ensures SettledStep(Exec(Step, s, evs[..k]), evs[k]) {
      assert evs[k] in evs;
    }
  }

  /** No lock was set in time to come. */
  ghost predicate LocksPast(s: State) {
    s.now > 0 && forall key :: key in s.locks ==> s.locks[key].startedAt <= s.now
  }

  lemma StepPast(s: State, e: Event)
    requires LocksPast(s)
    ensures LocksPast(Step(s, e))
  {
    if !e.Enter? && (e.Leave? ==> Step(s, e) == s) {
      TasksFrame(s, e);
    }
  }

  lemma {:induction false} RunPast(s: State, evs: seq<Event>)
    requires LocksPast(s)
    ensures LocksPast(Exec(Step, s, evs))
    decreases |evs|
  {
    if evs != [] {
      RunPast(s, evs[..|evs| - 1]);
      StepPast(Exec(Step, s, evs[..|evs| - 1]), evs[|evs| - 1]);
    }
  }

  /** Every lock has lapsed, the breaker of db is closed, its record counts failures, of which counted since the
      last success, and nothing tripped it since. */
  ghost predicate Ready(s: State, db: Db, failures: nat, counted: nat) {
    && s.now > 0 && s.cooldownMs > 0 && s.threshold > 1
    && (forall key :: key in s.locks ==> s.now - s.locks[key].startedAt >= LOCK_MS)
    && db in s.breakers && s.breakers[db].failures == failures && !IsCurrent(s, s.breakers[db])
    && Marks(s, db) == counted
    && (forall i :: 0 <= i < |s.trips| && s.trips[i].db == db ==> s.trips[i].round != Rounds(s, db))
  }

  lemma MisledAfterSuccess(s: State, e: Event, j: nat)
    requires RoundsInv(s) && LocksPast(s) && BreakerInv(s) && TripsCounted(s)
    requires MarksSuccess(s, e) && Misleads(s, s.tasks[e.task].db, j)
    ensures exists more :: Settled(Step(s, e), more) && OpenedWrongly(Exec(Step, Step(s, e), more), s.tasks[e.task].db)
  {
    var t, db := Step(s, e), s.tasks[e.task].db;
    if WaitsToOpen(s, db, j) {
      StoredAfterSuccess(s, e, j);
      NoSuccessSettled(t, [Store(j)]);
      assert OpenedWrongly(Exec(Step, t, [Store(j)]), db);
    } else {
      var two := [Store(j)] + [Pass(LOCK_MS)];
      StoredExpired(s, e, j);
      var u := Step(Step(t, Store(j)), Pass(LOCK_MS));
      ExecSnoc(Step, t, [], Store(j));
      ExecSnoc(Step, t, [Store(j)], Pass(LOCK_MS));
      assert [] + [Store(j)] == [Store(j)];
      var more := Climb(u, db, s.tasks[j].phase.data.failures, 0);
      ExecConcat(Step, t, two, more);
      NoSuccessSettled(t, two + more);
    }
  }

  lemma StoredExpired(s: State, e: Event, j: nat)
    requires RoundsInv(s) && LocksPast(s) && BreakerInv(s)
    requires MarksSuccess(s, e) && Misleads(s, s.tasks[e.task].db, j)
    requires !WaitsToOpen(s, s.tasks[e.task].db, j)
    ensures var u := Step(Step(Step(s, e), Store(j)), Pass(LOCK_MS));
      Ready(u, s.tasks[e.task].db, s.tasks[j].phase.data.failures, 0)
  {
    var t, db := Step(s, e), s.tasks[e.task].db;
    StepPast(s, e);
    SuccessFrame(s, e, j);
    var u := Step(t, Store(j));
    assert u.breakers[db] == s.tasks[j].phase.data && u.locks == t.locks;
  }

  /** One database check of db that fails without tripping. */
  function FailedCheck(s: State, db: Db): seq<Event> {
    [Enter(db, DatabaseCheck), End(|s.tasks|, Failed(OtherFailure, false)), Leave(|s.tasks|)]
  }

  lemma CheckGranted(s: State, db: Db)
    requires forall key :: key in s.locks ==> s.now - s.locks[key].startedAt >= LOCK_MS
    requires !Open(s.breakers, db, s.now)
    ensures var t, task := Step(s, Enter(db, DatabaseCheck)), Task(db, DatabaseCheck, s.now, Body);
      && t == s.(locks := t.locks, tasks := s.tasks + [task])
      && (forall key :: key in t.locks && key != Global && key != Of(db) ==>
            key in s.locks && t.locks[key] == s.locks[key])
      && (forall key :: key in t.locks && (key == Global || key == Of(db)) ==> t.locks[key].routine == DatabaseCheck)
  {
    assert ActiveLock(s.locks, Global, s.now).None?;
    assert ActiveLock(Looked(s.locks, Global, s.now), Of(db), s.now).None?;
  }

  lemma CheckFails(s: State, db: Db, failures: nat, counted: nat)
    requires Ready(s, db, failures, counted)
    ensures Ready(Exec(Step, s, FailedCheck(s, db)), db, failures + 1, counted + 1)
    ensures Exec(Step, s, FailedCheck(s, db)).threshold == s.threshold
  {
    var n := |s.tasks|;
    CheckGranted(s, db);
    var s1 := Step(s, Enter(db, DatabaseCheck));
    var s2 := Step(s1, End(n, Failed(OtherFailure, false)));
    assert s2.tasks == s1.tasks[n := s1.tasks[n].(phase := Leaving)] && s2.locks == s1.locks && s2.trips == s.trips;
    assert s2.breakers[db] == Breaker(failures + 1, s.breakers[db].degradedUntil) && Marks(s2, db) == counted + 1;
    var s3 := Step(s2, Leave(n));
    assert Global !in s3.locks && Of(db) !in s3.locks;
    ExecThree(Step, s, Enter(db, DatabaseCheck), End(n, Failed(OtherFailure, false)), Leave(n));
  }

  /** From such a state checks fail until one more connectivity failure trips the breaker, too early. */
  lemma {:induction false} Climb(s: State, db: Db, failures: nat, counted: nat) returns (more: seq<Event>)
    requires Ready(s, db, failures, counted) && counted < failures && (counted == 0 || failures < s.threshold)
    ensures NoSuccess(more) && OpenedWrongly(Exec(Step, s, more), db)
    decreases if failures < s.threshold then s.threshold - failures else 0
  {
    if failures + 1 >= s.threshold {
      more := [Enter(db, DatabaseCheck), End(|s.tasks|, Failed(Unreachable, false)), Store(|s.tasks|)];
      CheckTrips(s, db, failures, counted);
    } else {
      CheckFails(s, db, failures, counted);
      var rest := Climb(Exec(Step, s, FailedCheck(s, db)), db, failures + 1, counted + 1);
      more := FailedCheck(s, db) + rest;
      ExecConcat(Step, s, FailedCheck(s, db), rest);
    }
  }

  lemma CheckTrips(s: State, db: Db, failures: nat, counted: nat)
    requires Ready(s, db, failures, counted) && failures + 1 >= s.threshold > counted + 1
    ensures OpenedWrongly(Exec(Step, s,
        [Enter(db, DatabaseCheck), End(|s.tasks|, Failed(Unreachable, false)), Store(|s.tasks|)]), db)
  {
    var n := |s.tasks|;
    CheckGranted(s, db);
    UnreachableTrips(s, Step(s, Enter(db, DatabaseCheck)), db, failures, counted);
    ExecThree(Step, s, Enter(db, DatabaseCheck), End(n, Failed(Unreachable, false)), Store(n));
  }

  lemma UnreachableTrips(s: State, s1: State, db: Db, failures: nat, counted: nat)
    requires Ready(s, db, failures, counted) && failures + 1 >= s.threshold > counted + 1
    requires s1 == s.(locks := s1.locks, tasks := s.tasks + [Task(db, DatabaseCheck, s.now, Body)])
    ensures OpenedWrongly(Step(Step(s1, End(|s.tasks|, Failed(Unreachable, false))), Store(|s.tasks|)), db)
  {
    var n := |s.tasks|;
    var s2 := Step(s1, End(n, Failed(Unreachable, false)));
    var data := Breaker(failures + 1, s.now + s.cooldownMs);
    assert s2.tasks[n].phase == Storing(data) && s2.now == s.now && Rounds(s2, db) == Rounds(s, db);
    assert s2.trips == s.trips + [Trip(db, Unreachable, failures + 1, s.now, counted + 1, Rounds(s, db))];
    var s3 := Step(s2, Store(n));
    assert s3.breakers[db] == data && s3.trips == s2.trips && s3.now == s.now && Rounds(s3, db) == Rounds(s, db);
  }

  lemma NeverMisled(s: State, e: Event, more: seq<Event>)
    requires BreakerInv(s) && FreshInv(s) && CountInv(s) && TripsCounted(s)
    requires MarksSuccess(s, e) && Settled(Step(s, e), more)
    requires forall j :: !Misleads(s, s.tasks[e.task].db, j)
    ensures !OpenedWrongly(Exec(Step, Step(s, e), more), s.tasks[e.task].db)
  {
    var db, t := s.tasks[e.task].db, Step(s, e);
    var u := Exec(Step, t, more);
    StepBreaker(s, e);
    RunBreaker(t, more);
    RunSettings(t, more);
    SettledMeansCalm(t, more);
    if s.cooldownMs > 0 && Open(u.breakers, db, u.now) {
      assert forall j :: WaitsToOpen(s, db, j) ==> Misleads(s, db, j);
      StepFresh(s, e);
      RunFresh(t, more);
      FreshMeansTrip(u, db);
      var i :| RecentTrip(u, db, i) && u.trips[i].round == Rounds(u, db);
      if s.threshold > 1 {
        assert forall j :: Waits(s, db, j) ==> Misleads(s, db, j);
        StepCount(s, e);
        RunCount(t, more);
      } else {
        StepCounted(s, e);
        RunCounted(t, more);
      }
      assert TripSinceSuccess(u, db, i);
    }
  }

  lemma StepSettings(s: State, e: Event)
    ensures Step(s, e).cooldownMs == s.cooldownMs && Step(s, e).threshold == s.threshold
  {
  }

  lemma {:induction false} RunSettings(s: State, evs: seq<Event>)
    ensures Exec(Step, s, evs).cooldownMs == s.cooldownMs && Exec(Step, s, evs).threshold == s.threshold
    decreases |evs|
  {
    if evs != [] {
      RunSettings(s, evs[..|evs| - 1]);
      StepSettings(Exec(Step, s, evs[..|evs| - 1]), evs[|evs| - 1]);
    }
  }

  /** Where routines do not overlap the condition is met. */
  lemma TimelyMeansSettled(cooldownMs: nat, threshold: nat, now: Time, evs: seq<Event>)
    requires Timely(Init(cooldownMs, threshold, now), evs)
    ensures Settled(Init(cooldownMs, threshold, now), evs)
  {
    var s0 := Init(cooldownMs, threshold, now);
    forall k | 0 <= k < |evs| ensures SettledStep(Exec(Step, s0, evs[..k]), evs[k]) {
      var s := Exec(Step, s0, evs[..k]);
      forall n | 0 <= n < k && evs[..k][n].Enter? ensures Young(Exec(Step, s0, evs[..k][..n])) {
        assert evs[..k][..n] == evs[..n] && evs[n].Enter?;
      }
      MutualExclusion(cooldownMs, threshold, now, evs[..k]);
      if MarksSuccess(s, evs[k]) {
        assert Live(s, evs[k].task);
        assert forall j :: Waits(s, s.tasks[evs[k].task].db, j) ==> Live(s, j);
      }
    }
  }

  /** No routine starts while its database's breaker is open, in any state whatever. */
  lemma NoStartWhileOpen(s: State, e: Event)
    requires |Step(s, e).tasks| > |s.tasks|
    ensures e.Enter? && !IsDegraded(s.breakers, e.db, s.now)
    ensures s.breakers == Step(s, e).breakers
  {
  }

  /** The failures on record against db. */
  function OnRecord(s: State, db: Db): Breaker {
    if db in s.breakers then s.breakers[db] else Breaker(0, 0)
  }

  /** A failure outside the grace period trips the breaker if it is a timeout, or a connectivity failure that
      brings the record to the threshold; one that does is stored only after the routine's writes, and one that
      does not only adds to the record. */
  lemma FailureExactly(s: State, i: nat, kind: Failure)
    requires i < |s.tasks| && s.tasks[i].phase == Body
    ensures var t := Step(s, End(i, Failed(kind, false)));
      var db := s.tasks[i].db; var n := OnRecord(s, db).failures + 1;
      if kind == TimedOut || (kind == Unreachable && n >= s.threshold) then
        && t.breakers == s.breakers && t.tasks[i].phase == Storing(Breaker(n, s.now + s.cooldownMs))
        && Step(t, Store(i)).breakers == s.breakers[db := Breaker(n, s.now + s.cooldownMs)]
        && |t.trips| == |s.trips| + 1 && t.trips[|s.trips|].kind == kind && t.trips[|s.trips|].at == s.now
      else
        && t.breakers == s.breakers[db := Breaker(n, OnRecord(s, db).degradedUntil)]
        && t.tasks[i].phase == Leaving && t.trips == s.trips
  {
  }

  /** Once stored it keeps every routine from starting on the database until the cooldown is over, and no longer. */
  lemma TripHoldsExactly(s: State, i: nat, ms: nat)
    requires i < |s.tasks| && s.tasks[i].phase == Body && s.now + s.cooldownMs != 0
    ensures var db := s.tasks[i].db;
      var t := Step(Step(Step(s, End(i, Failed(TimedOut, false))), Store(i)), Pass(ms));
      && (IsDegraded(t.breakers, db, t.now) <==> ms < s.cooldownMs)
      && (ms < s.cooldownMs ==> forall routine :: Step(t, Enter(db, routine)).tasks == t.tasks)
  {
    FailureExactly(s, i, TimedOut);
    var db := s.tasks[i].db;
    var t := Step(Step(Step(s, End(i, Failed(TimedOut, false))), Store(i)), Pass(ms));
    assert t.breakers[db].degradedUntil == s.now + s.cooldownMs && t.now == s.now + ms;
    forall routine | ms < s.cooldownMs ensures Step(t, Enter(db, routine)).tasks == t.tasks {
      EnteredExactly(t.locks, t.breakers, db, routine, t.now);
    }
  }

  /** Every other end of a routine: a success drops the breaker of its database, unless it is of a backup that was
      not validated; a probe that is deferred, a backup that fails its validation and a failure in the grace
      period change no breaker. All of them leave; no other routine is ever deferred or validated. The breaker of
      a database in a restore is forgotten without one. */
  lemma EndExactly(s: State, i: nat, outcome: Outcome)
    requires i < |s.tasks| && s.tasks[i].phase == Body && !(outcome.Failed? && !outcome.inGrace)
    ensures var t := Step(s, End(i, outcome)); var routine, db := s.tasks[i].routine, s.tasks[i].db;
      && t.breakers == (if outcome.Succeeded? && (routine != Backup || outcome.validated) then s.breakers - {db}
                        else s.breakers)
      && t.tasks == (if (outcome.Deferred? && routine != SessionHistory && routine != DatabaseCheck)
                        || (outcome.ValidationFailed? && routine != Backup)
                     then s.tasks else s.tasks[i := s.tasks[i].(phase := Leaving)])
      && t.trips == s.trips && t.locks == s.locks
    ensures forall db :: Step(s, Forget(db)) == s.(breakers := s.breakers - {db})
  {
  }

  /** A routine that ends without success leaves every breaker and every count as they were if and only if it
      was a deferred probe, in the grace period after a restore, or a failed validation. */
  lemma BreakerUntouched(s: State, i: nat, outcome: Outcome)
    requires i < |s.tasks| && s.tasks[i].phase == Body && !outcome.Succeeded?
    ensures var t := Step(s, End(i, outcome));
      (t.breakers == s.breakers && t.marks == s.marks && t.rounds == s.rounds)
      <==> outcome.Deferred? || outcome.ValidationFailed? || outcome.inGrace
  {
    assert Marks(s, s.tasks[i].db) + 1 != Marks(s, s.tasks[i].db);
  }
}
