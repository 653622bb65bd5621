/** When the worker's automatic backups start (worker.js runAutomaticBackups and the attempt time runBackup
    writes). A pass reads all rows, then the clock, and judges each database by that reading, however long
    the databases before it take. */
module BackupSchedule {
  import opened Runs

  type Db = nat
  type Time = nat

  const MINUTE_MS: int := 60 * 1000

  /** Times are 0 where the column is null; frequency is None where it is not a number. */
  datatype Row = Row(frequencyMinutes: Option<int>, lastBackupAt: Time, lastAttemptAt: Time, scheduleUpdatedAt: Time)

  // ----- the due rule -----

  /** normalizePositiveMinutes with its default bounds. */
  function NormalizedMinutes(value: Option<int>, fallback: int): int {
    if value.None? then fallback
    else if value.value < 1 then 1
    else if value.value > 10080 then 10080
    else value.value
  }

  function Max(a: int, b: int): int { if a > b then a else b }

  function Last(row: Row): Time {
    Max(Max(row.lastBackupAt, row.lastAttemptAt), row.scheduleUpdatedAt)
  }

  function FrequencyMs(row: Row, fallback: int): int {
    NormalizedMinutes(row.frequencyMinutes, fallback) * MINUTE_MS
  }

  predicate Due(row: Row, fallback: int, now: Time) {
    Last(row) == 0 || now - Last(row) >= FrequencyMs(row, fallback)
  }

  /** minutes is the frequency in force: as set, but at least one minute and at most a week, or the default. */
  ghost predicate InForce(row: Row, fallback: int, minutes: int) {
    match row.frequencyMinutes
    case None => minutes == fallback
    case Some(given) =>
      1 <= minutes <= 10080 && (minutes != given ==> (minutes == 1 && given < 1) || (minutes == 10080 && given > 10080))
  }

  /** Nothing is known of the row's database, or each of its three times lies at least that far back. */
  ghost predicate LongAgo(row: Row, minutes: int, now: Time) {
    || (row.lastBackupAt == 0 && row.lastAttemptAt == 0 && row.scheduleUpdatedAt == 0)
    || (now - row.lastBackupAt >= minutes * 60000 && now - row.lastAttemptAt >= minutes * 60000
        && now - row.scheduleUpdatedAt >= minutes * 60000)
  }

  /** A database is due exactly when it was never backed up, tried or scheduled, or all that is long enough ago. */
  lemma DueExactly(row: Row, fallback: int, minutes: int, now: Time)
    requires InForce(row, fallback, minutes)
    ensures FrequencyMs(row, fallback) == minutes * 60000
    ensures Due(row, fallback, now) <==> LongAgo(row, minutes, now)
  {
  }

  /** One pass with nothing in between: the attempt times it writes. */
  class ManagedDatabases {
    const fallback: int
    var rows: map<Db, Row>

    constructor (fallback: int, rows: map<Db, Row>)
      ensures this.fallback == fallback && this.rows == rows
    {
      this.fallback, this.rows := fallback, rows;
    }

    /** passes[i] says whether database i gets past the guards ahead of its attempt (a running job, an
        operation, a lock, an open breaker); clock[i] is the time when its turn comes. */
    method RunAutomaticBackups(dbs: seq<Db>, now: Time, passes: seq<bool>, clock: seq<Time>)
      requires |passes| == |clock| == |dbs|
      requires forall i, j :: 0 <= i < j < |dbs| ==> dbs[i] != dbs[j]
      requires forall i :: 0 <= i < |dbs| ==> dbs[i] in rows
      modifies this
      ensures rows.Keys == old(rows).Keys
      ensures forall db :: db in rows && db !in dbs ==> rows[db] == old(rows)[db]
      ensures forall i :: 0 <= i < |dbs| ==>
                rows[dbs[i]] == if passes[i] && Due(old(rows)[dbs[i]], fallback, now)
                                then old(rows)[dbs[i]].(lastAttemptAt := clock[i]) else old(rows)[dbs[i]]
      ensures forall i, minutes :: 0 <= i < |dbs| && InForce(old(rows)[dbs[i]], fallback, minutes) ==>
                rows[dbs[i]] == if passes[i] && LongAgo(old(rows)[dbs[i]], minutes, now)
                                then old(rows)[dbs[i]].(lastAttemptAt := clock[i]) else old(rows)[dbs[i]]
    {
      for i := 0 to |dbs|
        invariant rows.Keys == old(rows).Keys
        invariant forall db :: db in rows && db !in dbs[..i] ==> rows[db] == old(rows)[db]
        invariant forall j :: 0 <= j < i ==>
                    rows[dbs[j]] == if passes[j] && Due(old(rows)[dbs[j]], fallback, now)
                                    then old(rows)[dbs[j]].(lastAttemptAt := clock[j]) else old(rows)[dbs[j]]
      {
        var row := rows[dbs[i]];
        assert dbs[i] !in dbs[..i];
        var frequencyMs := NormalizedMinutes(row.frequencyMinutes, fallback) * MINUTE_MS;
        var last := Max(Max(row.lastBackupAt, row.lastAttemptAt), row.scheduleUpdatedAt);
        if (last == 0 || now - last >= frequencyMs) && passes[i] {
          rows := rows[dbs[i] := row.(lastAttemptAt := clock[i])];
        }
        assert dbs[..i + 1] == dbs[..i] + [dbs[i]];
      }
    }
  }

  // ----- passes between other writers, crashes and failing writes -----

  /** A backup run that started at a time, judged due at frequency frequencyMs. */
  datatype Start = Start(at: Time, frequencyMs: int)

  /** rest: the databases the pass has not come to, with the rows it read. */
  datatype Worker =
    | Idle
    | Read(rest: seq<(Db, Row)>)
    | Passing(rest: seq<(Db, Row)>, now: Time)
    | Attempting(rest: seq<(Db, Row)>, now: Time, db: Db, start: Start)
    | BackingUp(rest: seq<(Db, Row)>, now: Time, db: Db)

  datatype State = State(fallback: int, now: Time, rows: map<Db, Row>, worker: Worker, starts: map<Db, seq<Start>>)

  /** Edit stands for every other writer: settings, manual backups and new databases, none of which writes the
      attempt time. */
  datatype Event =
    | Pass(ms: nat)
    | Edit(db: Db, frequencyMinutes: Option<int>, lastBackupAt: Time, scheduleUpdatedAt: Time)
    | ReadRows(dbs: seq<Db>)
    | ReadClock
    | Consider(passes: bool)
    | Persist(ok: bool)
    | Finish(ok: bool)
    | StopPass

  function StartsOf(s: State, db: Db): seq<Start> {
    if db in s.starts then s.starts[db] else []
  }

  predicate Distinct(dbs: seq<Db>) {
    forall i, j :: 0 <= i < j < |dbs| ==> dbs[i] != dbs[j]
  }

  function Snapshot(rows: map<Db, Row>, dbs: seq<Db>): seq<(Db, Row)>
    requires forall i :: 0 <= i < |dbs| ==> dbs[i] in rows
  {
    seq(|dbs|, i requires 0 <= i < |dbs| => (dbs[i], rows[dbs[i]]))
  }

  /** Persist is the write of lastBackupAttemptAt: from it on the backup runs, if it fails it does not.
      StopPass is the HA check that ends a pass as well as a crash of the worker at any point. */
  function Step(s: State, e: Event): State {
    match e
    case Pass(ms) => s.(now := s.now + ms)
    case Edit(db, frequency, lastBackup, updated) =>
      var attempt := if db in s.rows then s.rows[db].lastAttemptAt else 0;
      s.(rows := s.rows[db := Row(frequency, lastBackup, attempt, updated)])
    case ReadRows(dbs) =>
      if s.worker.Idle? && Distinct(dbs) && forall i :: 0 <= i < |dbs| ==> dbs[i] in s.rows
      then s.(worker := Read(Snapshot(s.rows, dbs))) else s
    case ReadClock => if s.worker.Read? then s.(worker := Passing(s.worker.rest, s.now)) else s
    case Consider(passes) =>
      if !s.worker.Passing? then s
      else if s.worker.rest == [] then s.(worker := Idle)
      else
        var (db, row) := s.worker.rest[0];
        var rest := s.worker.rest[1..];
        if passes && Due(row, s.fallback, s.worker.now)
        then s.(worker := Attempting(rest, s.worker.now, db, Start(s.now, FrequencyMs(row, s.fallback))))
        else s.(worker := Passing(rest, s.worker.now))
    case Persist(ok) =>
      if !s.worker.Attempting? || s.worker.db !in s.rows then s
      else if !ok then s.(worker := Passing(s.worker.rest, s.worker.now))
      else
        var db := s.worker.db;
        s.(rows := s.rows[db := s.rows[db].(lastAttemptAt := s.worker.start.at)],
           starts := s.starts[db := StartsOf(s, db) + [s.worker.start]],
           worker := BackingUp(s.worker.rest, s.worker.now, db))
    case Finish(ok) =>
      if !s.worker.BackingUp? || s.worker.db !in s.rows then s
      else
        var db := s.worker.db;
        s.(rows := if ok then s.rows[db := s.rows[db].(lastBackupAt := s.now)] else s.rows,
           worker := Passing(s.worker.rest, s.worker.now))
    case StopPass => s.(worker := Idle)
  }

  // ----- starts are a frequency apart -----

  /** The later of two successive starts comes at least its frequency after the earlier. */
  ghost predicate Spaced(starts: seq<Start>) {
    forall i :: 0 < i < |starts| ==> starts[i].at - starts[i - 1].at >= starts[i].frequencyMs
  }

  /** The row still holds the attempt time of the last start. */
  ghost predicate AttemptCurrent(s: State, db: Db) {
    && Spaced(StartsOf(s, db))
    && (StartsOf(s, db) != [] ==>
          db in s.rows && 0 < StartsOf(s, db)[|StartsOf(s, db)| - 1].at == s.rows[db].lastAttemptAt)
  }

  function Rest(w: Worker): seq<(Db, Row)> {
    if w.Idle? then [] else w.rest
  }

  /** What the pass read of the databases still to come is current in the attempt time. */
  ghost predicate Current(rows: map<Db, Row>, rest: seq<(Db, Row)>) {
    forall i :: 0 <= i < |rest| ==> rest[i].0 in rows && rest[i].1.lastAttemptAt == rows[rest[i].0].lastAttemptAt
  }

  ghost predicate Once(rest: seq<(Db, Row)>) {
    forall i, j :: 0 <= i < j < |rest| ==> rest[i].0 != rest[j].0
  }

  ghost predicate Absent(rest: seq<(Db, Row)>, db: Db) {
    forall i :: 0 <= i < |rest| ==> rest[i].0 != db
  }

  ghost predicate RestCurrent(s: State) {
    && Current(s.rows, Rest(s.worker)) && Once(Rest(s.worker))
    && (s.worker.Attempting? ==> Absent(Rest(s.worker), s.worker.db))
  }

  lemma TailCurrent(rows: map<Db, Row>, rest: seq<(Db, Row)>)
    requires rest != [] && Current(rows, rest) && Once(rest)
    ensures Current(rows, rest[1..]) && Once(rest[1..]) && Absent(rest[1..], rest[0].0)
  {
    var tail := rest[1..];
    forall i | 0 <= i < |tail| ensures tail[i] == rest[i + 1] {}
  }

  ghost predicate Inv(s: State) {
    && s.now > 0 && s.fallback >= 1
    && (forall db :: AttemptCurrent(s, db))
    && RestCurrent(s)
    && (s.worker.Passing? || s.worker.Attempting? || s.worker.BackingUp? ==> s.worker.now <= s.now)
    && (s.worker.Attempting? ==> 0 < s.worker.start.at && Spaced(StartsOf(s, s.worker.db) + [s.worker.start]))
  }

  lemma ConsiderKeeps(s: State, passes: bool)
    requires Inv(s)
    ensures Inv(Step(s, Consider(passes)))
  {
    var t := Step(s, Consider(passes));
    if s.worker.Passing? && s.worker.rest != [] {
      TailCurrent(s.rows, s.worker.rest);
    }
    assert forall db :: AttemptCurrent(s, db) ==> AttemptCurrent(t, db);
    if t.worker.Attempting? && !s.worker.Attempting? {
      var (db, row) := s.worker.rest[0];
      assert AttemptCurrent(s, db);
      var starts := StartsOf(s, db);
      assert Last(row) >= row.lastAttemptAt;
      assert starts != [] ==> s.worker.now - starts[|starts| - 1].at >= FrequencyMs(row, s.fallback);
    }
  }

  lemma PersistKeeps(s: State)
    requires Inv(s)
    ensures Inv(Step(s, Persist(true)))
  {
    var t := Step(s, Persist(true));
    if t != s {
      var db := s.worker.db;
      assert StartsOf(t, db) == StartsOf(s, db) + [s.worker.start];
      forall d ensures AttemptCurrent(t, d) {
        assert AttemptCurrent(s, d);
      }
    }
  }

  lemma OthersKeep(s: State, e: Event)
    requires Inv(s) && !e.Consider? && e != Persist(true)
    ensures Inv(Step(s, e))
  {
    var t := Step(s, e);
    assert t.starts == s.starts;
    if e.ReadRows? && t != s {
      assert Rest(t.worker) == Snapshot(s.rows, e.dbs);
      assert Once(Rest(t.worker));
    } else {
      assert Rest(t.worker) == Rest(s.worker) || Rest(t.worker) == [];
    }
    assert Current(t.rows, Rest(t.worker));
    forall d ensures AttemptCurrent(t, d) {
      assert AttemptCurrent(s, d);
    }
  }

  lemma StepKeeps(s: State, e: Event)
    requires Inv(s)
    ensures Inv(Step(s, e))
  {
    match e
    case Consider(passes) => ConsiderKeeps(s, passes);
    case Persist(ok) => if ok { PersistKeeps(s); } else { OthersKeep(s, e); }
    case _ => OthersKeep(s, e);
  }

  lemma {:induction false} RunKeeps(s: State, evs: seq<Event>)
    requires Inv(s)
    ensures Inv(Exec(Step, s, evs))
    decreases |evs|
  {
    if evs != [] {
      RunKeeps(s, evs[..|evs| - 1]);
      StepKeeps(Exec(Step, s, evs[..|evs| - 1]), evs[|evs| - 1]);
    }
  }

  /** In every run, whatever else is written to the rows and wherever passes break off, two successive backup
      starts of one database are at least the frequency in force for the later one apart. */
  lemma StartsFrequencyApart(fallback: int, now: Time, evs: seq<Event>, db: Db, i: nat)
    requires fallback >= 1 && now > 0
    requires 0 < i < |StartsOf(Exec(Step, State(fallback, now, map[], Idle, map[]), evs), db)|
    ensures var starts := StartsOf(Exec(Step, State(fallback, now, map[], Idle, map[]), evs), db);
      starts[i].at - starts[i - 1].at >= starts[i].frequencyMs
  {
    var s0 := State(fallback, now, map[], Idle, map[]);
    assert forall d :: AttemptCurrent(s0, d);
    RunKeeps(s0, evs);
    assert AttemptCurrent(Exec(Step, s0, evs), db);
  }

  // ----- every due database is started -----

  /** A pass that comes to a database and gets past the guards starts its backup if and only if, by the row it
      read and its one reading of the clock, it was never backed up, tried or scheduled or all that is long
      enough ago: the start and the attempt time are then on record. Otherwise it goes on to the next. */
  lemma PassStartsExactly(s: State, minutes: int)
    requires s.worker.Passing? && s.worker.rest != [] && s.worker.rest[0].0 in s.rows
    requires InForce(s.worker.rest[0].1, s.fallback, minutes)
    ensures var (db, row) := s.worker.rest[0]; var t := Exec(Step, s, [] + [Consider(true)] + [Persist(true)]);
      if LongAgo(row, minutes, s.worker.now) then
        && StartsOf(t, db) == StartsOf(s, db) + [Start(s.now, minutes * 60000)]
        && t.rows == s.rows[db := s.rows[db].(lastAttemptAt := s.now)]
        && t.worker == BackingUp(s.worker.rest[1..], s.worker.now, db)
      else t == s.(worker := Passing(s.worker.rest[1..], s.worker.now))
  {
    ExecSnoc(Step, s, [], Consider(true));
    ExecSnoc(Step, s, [] + [Consider(true)], Persist(true));
    DueExactly(s.worker.rest[0].1, s.fallback, minutes, s.worker.now);
  }

  /** What stops a backup at the guards or fails to be written starts nothing, and the pass goes on. */
  lemma NothingStarts(s: State)
    requires s.worker.Passing? && s.worker.rest != []
    ensures Step(s, Consider(false)) == s.(worker := Passing(s.worker.rest[1..], s.worker.now))
    ensures s.worker.rest[0].0 in s.rows && Step(s, Consider(true)).worker.Attempting? ==>
      Step(Step(s, Consider(true)), Persist(false)) == s.(worker := Passing(s.worker.rest[1..], s.worker.now))
  {
  }

  /** A backup that ends well is on record with the time it ended, and the pass goes on either way. */
  lemma FinishExactly(s: State, ok: bool)
    requires s.worker.BackingUp? && s.worker.db in s.rows
    ensures var t, db := Step(s, Finish(ok)), s.worker.db;
      && t.worker == Passing(s.worker.rest, s.worker.now)
      && t.rows[db].lastBackupAt == (if ok then s.now else s.rows[db].lastBackupAt)
      && t == s.(worker := t.worker, rows := s.rows[db := s.rows[db].(lastBackupAt := t.rows[db].lastBackupAt)])
  {
    assert s.rows[s.worker.db := s.rows[s.worker.db]] == s.rows;
  }

  /** A pass considers every database it read, in order: reading pairs each with its row. */
  lemma PassReadsAll(s: State, dbs: seq<Db>)
    requires s.worker.Idle? && Distinct(dbs) && forall i :: 0 <= i < |dbs| ==> dbs[i] in s.rows
    ensures var t := Exec(Step, s, [] + [ReadRows(dbs)] + [ReadClock]);
      && t.worker.Passing? && t.worker.now == s.now && t.rows == s.rows && t.starts == s.starts
      && |t.worker.rest| == |dbs|
      && forall i :: 0 <= i < |dbs| ==> t.worker.rest[i] == (dbs[i], s.rows[dbs[i]])
  {
    ExecSnoc(Step, s, [], ReadRows(dbs));
    ExecSnoc(Step, s, [] + [ReadRows(dbs)], ReadClock);
  }
}
