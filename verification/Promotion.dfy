/** Promotion of standby databases (server.js, POST /api/ha/standby/promote): for each required database in
    turn, a script moves the production file aside and the standby file into its place while the local
    Firebird service is stopped; the first failure ends the request. */
module Promotion {
  import opened Runs
  import opened FileScripts

  type Db = nat

  datatype Place = Prod(db: Db) | Standby(db: Db) | Kept(db: Db)

  type Disk = map<Place, Image>

  /** The part of the script while the service is stopped. */
  function Body(db: Db): Script<Place> {
    Then(Move(Prod(db), Kept(db), true), Then(Move(Standby(db), Prod(db), false), Then(Chmod(Prod(db)),
    Then(Tool(Prod(db), ReadWrite, false), Then(Check(Prod(db)), End)))))
  }

  datatype Service = Inactive | Stopped | StopFailed

  /** How one database's turn goes: the steps before the service is touched, the service, the outcomes of the
      body, the read-only test after it, the command of the script during or right after which it was killed,
      if it was, and the write of the database's row. */
  datatype Attempt = Attempt(prepared: bool, service: Service, body: seq<Outcome>, writable: bool,
                             killedAt: Option<nat>, rowWritten: bool)

  /** The script from where it touches the service: StopService is the line that asks whether the service is
      active and stops it, Restart the function cleanup. */
  datatype Command = StopService | SetTrap | MoveFiles | TestWritable | Restart | ClearTrap

  const COMMANDS: seq<Command> := [StopService, SetTrap, MoveFiles, TestWritable, Restart, ClearTrap]

  /** wasActive is the script's firebird_was_active; stops and starts count the stops of the service that
      succeeded and the starts that were tried. */
  datatype Shell = Shell(disk: Disk, wasActive: bool, trapped: bool, stops: nat, starts: nat)

  function Restarted(sh: Shell): Shell {
    if sh.wasActive then sh.(starts := sh.starts + 1) else sh
  }

  /** One command, and whether the script goes on. */
  function Did(sh: Shell, command: Command, db: Db, a: Attempt): (Shell, bool) {
    match command
    case StopService =>
      (match a.service
       case Inactive => (sh, true)
       case StopFailed => (sh.(wasActive := true), false)
       case Stopped => (sh.(wasActive := true, stops := sh.stops + 1), true))
    case SetTrap => (sh.(trapped := true), true)
    case MoveFiles =>
      var (disk, finished) := Run(sh.disk, Body(db), a.body);
      (sh.(disk := disk), finished)
    case TestWritable => (sh, a.writable)
    case Restart => (Restarted(sh), true)
    case ClearTrap => (sh.(trapped := false), true)
  }

  datatype Ending = Finished | Failed | Killed

  /** The commands in order up to the first that fails or during which the script is killed. An exit of the
      script, not a kill, runs its trap. */
  function Scripted(sh: Shell, commands: seq<Command>, db: Db, a: Attempt, killedAt: Option<nat>): (Shell, Ending)
    decreases |commands|
  {
    if commands == [] then (if sh.trapped then Restarted(sh) else sh, Finished)
    else
      var (sh', goes) := Did(sh, commands[0], db, a);
      if killedAt == Some(0) then (sh', Killed)
      else if !goes then (if sh'.trapped then Restarted(sh') else sh', Failed)
      else Scripted(sh', commands[1..], db, a, if killedAt.Some? then Some(killedAt.value - 1) else None)
  }

  /** stops and starts as in Shell, over all databases. */
  datatype Progress = Progress(disk: Disk, stops: nat, starts: nat)

  /** One database's turn: the progress after it and whether the request goes on. */
  function Promoted(p: Progress, db: Db, a: Attempt): (Progress, bool) {
    if !a.prepared || Standby(db) !in p.disk then (p, false)
    else
      var (sh, ending) := Scripted(Shell(p.disk, false, false, p.stops, p.starts), COMMANDS, db, a, a.killedAt);
      (Progress(sh.disk, sh.stops, sh.starts), ending == Finished && a.rowWritten)
  }

  /** The loop over the databases: the progress and how many were promoted. */
  function PromotedAll(p: Progress, dbs: seq<Db>, attempts: seq<Attempt>): (Progress, nat)
    requires |dbs| == |attempts|
    decreases |dbs|
  {
    if dbs == [] then (p, 0)
    else
      var (p', ok) := Promoted(p, dbs[0], attempts[0]);
      if !ok then (p', 0)
      else
        var (q, n) := PromotedAll(p', dbs[1..], attempts[1..]);
        (q, n + 1)
  }

  lemma PromotedAllFrom(p: Progress, dbs: seq<Db>, attempts: seq<Attempt>, k: nat)
    requires |dbs| == |attempts| && k < |dbs|
    ensures var one, all := Promoted(p, dbs[k], attempts[k]), PromotedAll(p, dbs[k..], attempts[k..]);
      && (one.1 ==> var rest := PromotedAll(one.0, dbs[k + 1..], attempts[k + 1..]);
                    all.0 == rest.0 && all.1 == rest.1 + 1)
      && (!one.1 ==> all.0 == one.0 && all.1 == 0)
  {
    assert dbs[k..][1..] == dbs[k + 1..] && attempts[k..][1..] == attempts[k + 1..];
  }

  /** all is what is left to do from the k-th database on, plus what was done before it. */
  ghost predicate Ahead(p: Progress, dbs: seq<Db>, attempts: seq<Attempt>, k: nat, all: (Progress, nat))
    requires |dbs| == |attempts| && k <= |dbs|
  {
    var rest := PromotedAll(p, dbs[k..], attempts[k..]);
    all.0 == rest.0 && all.1 == k + rest.1
  }

  lemma AheadNext(p: Progress, dbs: seq<Db>, attempts: seq<Attempt>, k: nat, all: (Progress, nat))
    requires |dbs| == |attempts| && k < |dbs| && Ahead(p, dbs, attempts, k, all)
    ensures var one := Promoted(p, dbs[k], attempts[k]);
      if one.1 then Ahead(one.0, dbs, attempts, k + 1, all) else all == (one.0, k)
  {
    PromotedAllFrom(p, dbs, attempts, k);
  }

  class Host {
    var disk: Disk
    var stops: nat
    var starts: nat

    function View(): Progress
      reads this
    {
      Progress(disk, stops, starts)
    }

    method PromoteOne(db: Db, a: Attempt) returns (ok: bool)
      modifies this
      ensures (View(), ok) == Promoted(old(View()), db, a)
    {
      if !a.prepared || Standby(db) !in disk {
        return false;
      }
      var (sh, ending) := Scripted(Shell(disk, false, false, stops, starts), COMMANDS, db, a, a.killedAt);
      disk, stops, starts := sh.disk, sh.stops, sh.starts;
      ok := ending == Finished && a.rowWritten;
    }

    method PromoteAll(dbs: seq<Db>, attempts: seq<Attempt>) returns (promoted: nat)
      requires |dbs| == |attempts|
      modifies this
      ensures (View(), promoted) == PromotedAll(old(View()), dbs, attempts)
    {
      promoted := 0;
      ghost var all := PromotedAll(View(), dbs, attempts);
      assert dbs[0..] == dbs && attempts[0..] == attempts;
      while promoted < |dbs|
        invariant promoted <= |dbs|
        invariant Ahead(View(), dbs, attempts, promoted, all)
      {
        AheadNext(View(), dbs, attempts, promoted, all);
        var ok := PromoteOne(dbs[promoted], attempts[promoted]);
        if !ok {
          return;
        }
        promoted := promoted + 1;
      }
    }
  }

  // ----- contents are conserved -----

  predicate Same(before: Disk, after: Disk, place: Place) {
    (place in before <==> place in after) && (place in before ==> after[place] == before[place])
  }

  predicate Untouched(before: Disk, after: Disk, db: Db) {
    Same(before, after, Prod(db)) && Same(before, after, Standby(db)) && Same(before, after, Kept(db))
  }

  /** image is the file it was, with nothing but more in-place tool runs and checks. */
  predicate Continues(was: Image, image: Image) {
    image.original == was.original && image.whole == was.whole && was.edits <= image.edits
  }

  /** The old production file and the standby file of db are each somewhere. */
  predicate Conserved(before: Disk, after: Disk, db: Db) {
    && (Prod(db) in before ==>
          (Prod(db) in after && after[Prod(db)] == before[Prod(db)])
          || (Kept(db) in after && after[Kept(db)] == before[Prod(db)]))
    && (Standby(db) in before ==>
          (Standby(db) in after && after[Standby(db)] == before[Standby(db)])
          || (Prod(db) in after && Continues(before[Standby(db)], after[Prod(db)])))
  }

  /** The standby file, now writable and checked, is in production and the old production file is kept. */
  predicate FullyPromoted(before: Disk, after: Disk, db: Db) {
    && Standby(db) in before && Standby(db) !in after
    && Prod(db) in after
    && after[Prod(db)] == before[Standby(db)].(edits := before[Standby(db)].edits + [ReadWrite], checked := true)
    && (if Prod(db) in before then Kept(db) in after && after[Kept(db)] == before[Prod(db)]
        else Same(before, after, Kept(db)))
  }

  function Moved(fs: Disk, from: Place, to: Place): Disk {
    if from in fs then (fs - {from})[to := fs[from]] else fs
  }

  /** The tail of the body: it only edits and checks the file in production. */
  lemma TailRun(fs: Disk, db: Db, outs: seq<Outcome>)
    requires Prod(db) in fs
    ensures var tail := Body(db).rest.rest; var (fs', finished) := Run(fs, tail, outs);
      && Prod(db) in fs' && Continues(fs[Prod(db)], fs'[Prod(db)])
      && (forall p :: p != Prod(db) ==> Same(fs, fs', p))
      && (finished ==> fs'[Prod(db)] == fs[Prod(db)].(edits := fs[Prod(db)].edits + [ReadWrite], checked := true))
  {
    var toolOn := Body(db).rest.rest.rest;
    if outs != [] && outs[0].Done? {
      var outs1 := outs[1..];
      assert Run(fs, Body(db).rest.rest, outs) == Run(fs, toolOn, outs1);
      if outs1 != [] {
        var (fs1, goes) := Ran(fs, toolOn.step, outs1[0]);
        if goes {
          assert Run(fs, toolOn, outs1) == Run(fs1, toolOn.rest, outs1[1..]);
          if outs1[1..] != [] {
            var (fs2, goes2) := Ran(fs1, toolOn.rest.step, outs1[1..][0]);
            assert Run(fs1, toolOn.rest, outs1[1..]) == (fs2, goes2);
          }
        }
      }
    }
  }

  /** One body, failing or stopped anywhere, touches its own database only, loses none of its contents, and
      promotes it if it finishes. */
  lemma BodyRun(fs: Disk, db: Db, outs: seq<Outcome>)
    requires Standby(db) in fs && Kept(db) !in fs
    ensures var (fs', finished) := Run(fs, Body(db), outs);
      && (forall other :: other != db ==> Untouched(fs, fs', other))
      && Conserved(fs, fs', db)
      && (finished ==> FullyPromoted(fs, fs', db))
  {
    if outs != [] && outs[0].Done? {
      var fs1 := Moved(fs, Prod(db), Kept(db));
      assert Ran(fs, Body(db).step, outs[0]) == (fs1, true);
      assert Run(fs, Body(db), outs) == Run(fs1, Body(db).rest, outs[1..]);
      if outs[1..] != [] && outs[1..][0].Done? {
        var fs2 := Moved(fs1, Standby(db), Prod(db));
        assert Ran(fs1, Body(db).rest.step, outs[1..][0]) == (fs2, true);
        assert Run(fs1, Body(db).rest, outs[1..]) == Run(fs2, Body(db).rest.rest, outs[1..][1..]);
        TailRun(fs2, db, outs[1..][1..]);
        var (fs', _) := Run(fs, Body(db), outs);
        assert Same(fs2, fs', Kept(db)) && Same(fs2, fs', Standby(db));
        forall other | other != db ensures Untouched(fs, fs', other) {
          assert Same(fs2, fs', Prod(other)) && Same(fs2, fs', Standby(other)) && Same(fs2, fs', Kept(other));
        }
      }
    }
  }

  ghost predicate Distinct(dbs: seq<Db>) {
    forall i, j :: 0 <= i < j < |dbs| ==> dbs[i] != dbs[j]
  }

  // ----- the service is started again -----

  const AFTER_TRAP: seq<Command> := [MoveFiles, TestWritable, Restart, ClearTrap]

  /** From the moment the trap is set: the service is started once, by the trap or by the script's own call,
      unless the script is killed before that. */
  lemma AfterTrap(sh: Shell, db: Db, a: Attempt, killedAt: Option<nat>)
    requires sh.trapped
    ensures var (t, ending) := Scripted(sh, AFTER_TRAP, db, a, killedAt);
      var (disk, finished) := Run(sh.disk, Body(db), a.body);
      && t.disk == disk && t.stops == sh.stops && (ending == Finished ==> finished)
      && (ending == Killed ==> killedAt.Some?)
      && t.starts == sh.starts + if sh.wasActive && !(ending == Killed && killedAt.value < 2) then 1 else 0
  {
    var (disk, finished) := Run(sh.disk, Body(db), a.body);
    var moved := sh.(disk := disk);
    if killedAt != Some(0) && finished {
      var k1 := if killedAt.Some? then Some(killedAt.value - 1) else None;
      assert Scripted(sh, AFTER_TRAP, db, a, killedAt)
          == Scripted(moved, [TestWritable, Restart, ClearTrap], db, a, k1);
      if k1 != Some(0) && a.writable {
        var k2 := if k1.Some? then Some(k1.value - 1) else None;
        assert Scripted(moved, [TestWritable, Restart, ClearTrap], db, a, k1)
            == Scripted(moved, [Restart, ClearTrap], db, a, k2);
        RestartAndClear(moved, db, a, k2);
      }
    }
  }

  lemma RestartAndClear(sh: Shell, db: Db, a: Attempt, killedAt: Option<nat>)
    requires sh.trapped
    ensures var (t, ending) := Scripted(sh, [Restart, ClearTrap], db, a, killedAt);
      && t == Restarted(sh).(trapped := t.trapped) && ending != Failed && (ending == Killed ==> killedAt.Some?)
  {
    var started := Restarted(sh);
    if killedAt != Some(0) {
      var k := if killedAt.Some? then Some(killedAt.value - 1) else None;
      assert Scripted(sh, [Restart, ClearTrap], db, a, killedAt) == Scripted(started, [ClearTrap], db, a, k);
      if k != Some(0) {
        var k' := if k.Some? then Some(k.value - 1) else None;
        assert Scripted(started, [ClearTrap], db, a, k) == Scripted(started.(trapped := false), [], db, a, k');
      }
    }
  }

  /** However the script ends, the service is started as often as it was stopped, if and only if it was not
      killed between stopping it (command 0) and starting it again (command 4). */
  lemma RestartExactly(disk: Disk, stops: nat, starts: nat, db: Db, a: Attempt)
    ensures var (sh, ending) := Scripted(Shell(disk, false, false, stops, starts), COMMANDS, db, a, a.killedAt);
      && (sh.stops - stops == sh.starts - starts
          <==> !(a.service.Stopped? && ending == Killed && a.killedAt.Some? && a.killedAt.value < 4))
      && sh.stops == stops + (if a.service.Stopped? then 1 else 0)
      && (sh.disk == disk || sh.disk == Run(disk, Body(db), a.body).0)
      && (ending == Finished ==>
          a.service != StopFailed && Run(disk, Body(db), a.body).1 && sh.disk == Run(disk, Body(db), a.body).0)
      && (ending == Killed ==> a.killedAt.Some?)
  {
    var sh0 := Shell(disk, false, false, stops, starts);
    if a.killedAt != Some(0) && a.service != StopFailed {
      var k1 := if a.killedAt.Some? then Some(a.killedAt.value - 1) else None;
      var sh1 := Did(sh0, StopService, db, a).0;
      assert COMMANDS[1..] == [SetTrap] + AFTER_TRAP;
      assert Scripted(sh0, COMMANDS, db, a, a.killedAt) == Scripted(sh1, [SetTrap] + AFTER_TRAP, db, a, k1);
      if k1 != Some(0) {
        var k2 := if k1.Some? then Some(k1.value - 1) else None;
        assert ([SetTrap] + AFTER_TRAP)[1..] == AFTER_TRAP;
        assert Scripted(sh1, [SetTrap] + AFTER_TRAP, db, a, k1)
            == Scripted(sh1.(trapped := true), AFTER_TRAP, db, a, k2);
        AfterTrap(sh1.(trapped := true), db, a, k2);
      }
    }
  }

  lemma TurnEffect(p: Progress, db: Db, a: Attempt)
    requires Kept(db) !in p.disk
    ensures var (p', ok) := Promoted(p, db, a);
      && (forall other :: other != db ==> Untouched(p.disk, p'.disk, other))
      && Conserved(p.disk, p'.disk, db)
      && (ok ==> FullyPromoted(p.disk, p'.disk, db))
      && (ok || a.killedAt.None? ==> p'.stops - p.stops == p'.starts - p.starts)
  {
    if a.prepared && Standby(db) in p.disk {
      BodyRun(p.disk, db, a.body);
      RestartExactly(p.disk, p.stops, p.starts, db, a);
    }
  }

  /** The databases whose turn came among the first n + 1: all but possibly the last promoted. */
  function Turns(dbs: seq<Db>, n: nat): seq<Db>
    requires n <= |dbs|
  {
    if n < |dbs| then dbs[..n + 1] else dbs
  }

  /** The first n databases are fully promoted, the next one has both its files, all others are untouched. */
  ghost predicate TurnsTaken(before: Disk, dbs: seq<Db>, after: Disk, n: nat) {
    && n <= |dbs|
    && (forall i :: 0 <= i < n ==> FullyPromoted(before, after, dbs[i]))
    && (n < |dbs| ==> Conserved(before, after, dbs[n]))
    && (forall db :: db !in Turns(dbs, n) ==> Untouched(before, after, db))
  }

  /** A first turn that promoted its database, and the turns of the others. */
  lemma TurnsJoin(before: Disk, mid: Disk, after: Disk, dbs: seq<Db>, n: nat)
    requires dbs != [] && Distinct(dbs)
    requires forall other :: other != dbs[0] ==> Untouched(before, mid, other)
    requires FullyPromoted(before, mid, dbs[0])
    requires TurnsTaken(mid, dbs[1..], after, n)
    ensures TurnsTaken(before, dbs, after, n + 1)
  {
    var rest := dbs[1..];
    assert Turns(dbs, n + 1) == [dbs[0]] + Turns(rest, n);
    forall k | 0 <= k < |rest| ensures rest[k] == dbs[k + 1] && rest[k] != dbs[0] {}
    assert dbs[0] !in Turns(rest, n);
    assert Untouched(mid, after, dbs[0]);
    forall i | 0 <= i < n + 1 ensures FullyPromoted(before, after, dbs[i]) {
      if i > 0 {
        assert dbs[i] == rest[i - 1] && Untouched(before, mid, rest[i - 1]);
      }
    }
    if n < |rest| {
      assert dbs[n + 1] == rest[n] && Untouched(before, mid, rest[n]);
    }
    forall db | db !in Turns(dbs, n + 1) ensures Untouched(before, after, db) {
      assert db != dbs[0] && db !in Turns(rest, n);
      assert Untouched(before, mid, db) && Untouched(mid, after, db);
    }
  }

  /** Promoting any list of databases with a failure at any step: those before the failing one are fully
      promoted, the failing one has both its files, those after it and all others are untouched, and unless a
      script was killed the service was started as often as it was stopped. */
  lemma {:induction false} PromotionConserves(p: Progress, dbs: seq<Db>, attempts: seq<Attempt>)
    requires |dbs| == |attempts| && Distinct(dbs)
    requires forall i :: 0 <= i < |dbs| ==> Kept(dbs[i]) !in p.disk
    ensures var (q, n) := PromotedAll(p, dbs, attempts);
      && TurnsTaken(p.disk, dbs, q.disk, n)
      && ((n < |dbs| ==> attempts[n].killedAt.None?) ==> q.stops - p.stops == q.starts - p.starts)
    decreases |dbs|
  {
    if dbs != [] {
      TurnEffect(p, dbs[0], attempts[0]);
      var (p', ok) := Promoted(p, dbs[0], attempts[0]);
      if ok {
        var rest := dbs[1..];
        forall i | 0 <= i < |rest| ensures Kept(rest[i]) !in p'.disk {
          assert rest[i] == dbs[i + 1] && Untouched(p.disk, p'.disk, rest[i]);
        }
        PromotionConserves(p', rest, attempts[1..]);
        var (q, n) := PromotedAll(p', rest, attempts[1..]);
        TurnsJoin(p.disk, p'.disk, q.disk, dbs, n);
      } else {
        assert Turns(dbs, 0) == [dbs[0]];
      }
    }
  }

  // ----- what it takes to be promoted -----

  /** Everything that must go right in one database's turn: the service was not active or could be stopped, each
      of the five steps of the body is done, the database is found writable, the script is not killed in any of
      its six commands, and the row is written. */
  predicate GoesRight(a: Attempt) {
    && a.prepared && a.service != StopFailed
    && |a.body| >= 5 && a.body[0].Done? && a.body[1].Done? && a.body[2].Done? && a.body[3].Done? && a.body[4].Done?
    && a.writable && (a.killedAt.Some? ==> a.killedAt.value >= 6) && a.rowWritten
  }

  lemma BodyFinishes(fs: Disk, db: Db, outs: seq<Outcome>)
    requires Standby(db) in fs
    ensures Run(fs, Body(db), outs).1 <==>
      |outs| >= 5 && outs[0].Done? && outs[1].Done? && outs[2].Done? && outs[3].Done? && outs[4].Done?
  {
    if outs != [] && outs[0].Done? {
      var fs1 := Moved(fs, Prod(db), Kept(db));
      assert Ran(fs, Body(db).step, outs[0]) == (fs1, true);
      assert Run(fs, Body(db), outs) == Run(fs1, Body(db).rest, outs[1..]);
      if |outs| > 1 && outs[1].Done? {
        var fs2 := Moved(fs1, Standby(db), Prod(db));
        assert Ran(fs1, Body(db).rest.step, outs[1]) == (fs2, true);
        assert Run(fs1, Body(db).rest, outs[1..]) == Run(fs2, Body(db).rest.rest, outs[1..][1..]);
        assert outs[1..][1..] == outs[2..];
        TailFinishes(fs2, db, outs[2..]);
      }
    }
  }

  lemma TailFinishes(fs: Disk, db: Db, outs: seq<Outcome>)
    requires Prod(db) in fs
    ensures Run(fs, Body(db).rest.rest, outs).1 <==> |outs| >= 3 && outs[0].Done? && outs[1].Done? && outs[2].Done?
  {
    var tool := Body(db).rest.rest.rest;
    if outs != [] && outs[0].Done? {
      assert Run(fs, Body(db).rest.rest, outs) == Run(fs, tool, outs[1..]);
      if |outs| > 1 && outs[1].Done? {
        var fs1 := Ran(fs, tool.step, outs[1]).0;
        assert Run(fs, tool, outs[1..]) == Run(fs1, tool.rest, outs[1..][1..]);
        assert outs[1..][1..] == outs[2..];
        if |outs| > 2 {
          var (fs2, goes) := Ran(fs1, tool.rest.step, outs[2]);
          assert goes ==> Run(fs1, tool.rest, outs[2..]) == Run(fs2, End, outs[2..][1..]);
        }
      }
    }
  }

  function Before(killedAt: Option<nat>): Option<nat>
    requires killedAt != Some(0)
  {
    if killedAt.Some? then Some(killedAt.value - 1) else None
  }

  lemma TailEnds(sh: Shell, db: Db, a: Attempt, killedAt: Option<nat>)
    ensures Scripted(sh, [Restart, ClearTrap], db, a, killedAt).1 == Finished
      <==> (killedAt.Some? ==> killedAt.value >= 2)
  {
    if killedAt != Some(0) {
      var k := Before(killedAt);
      assert Scripted(sh, [Restart, ClearTrap], db, a, killedAt) == Scripted(Restarted(sh), [ClearTrap], db, a, k);
      if k != Some(0) {
        var done := Restarted(sh).(trapped := false);
        assert Scripted(Restarted(sh), [ClearTrap], db, a, k) == Scripted(done, [], db, a, Before(k));
      }
    }
  }

  lemma MiddleEnds(sh: Shell, db: Db, a: Attempt, killedAt: Option<nat>)
    ensures Scripted(sh, AFTER_TRAP, db, a, killedAt).1 == Finished
      <==> Run(sh.disk, Body(db), a.body).1 && a.writable && (killedAt.Some? ==> killedAt.value >= 4)
  {
    var (disk, finished) := Run(sh.disk, Body(db), a.body);
    var moved := sh.(disk := disk);
    if killedAt != Some(0) && finished {
      var k := Before(killedAt);
      assert Scripted(sh, AFTER_TRAP, db, a, killedAt) == Scripted(moved, [TestWritable, Restart, ClearTrap], db, a, k);
      if k != Some(0) && a.writable {
        assert Scripted(moved, [TestWritable, Restart, ClearTrap], db, a, k)
            == Scripted(moved, [Restart, ClearTrap], db, a, Before(k));
        TailEnds(moved, db, a, Before(k));
      }
    }
  }

  lemma ScriptEnds(sh: Shell, db: Db, a: Attempt)
    ensures Scripted(sh, COMMANDS, db, a, a.killedAt).1 == Finished
      <==> a.service != StopFailed && Run(sh.disk, Body(db), a.body).1 && a.writable
           && (a.killedAt.Some? ==> a.killedAt.value >= 6)
  {
    if a.killedAt != Some(0) && a.service != StopFailed {
      var sh1, k := Did(sh, StopService, db, a).0, Before(a.killedAt);
      assert COMMANDS[1..] == [SetTrap] + AFTER_TRAP && ([SetTrap] + AFTER_TRAP)[1..] == AFTER_TRAP;
      assert Scripted(sh, COMMANDS, db, a, a.killedAt) == Scripted(sh1, [SetTrap] + AFTER_TRAP, db, a, k);
      if k != Some(0) {
        var sh2 := sh1.(trapped := true);
        assert Scripted(sh1, [SetTrap] + AFTER_TRAP, db, a, k) == Scripted(sh2, AFTER_TRAP, db, a, Before(k));
        MiddleEnds(sh2, db, a, Before(k));
      }
    }
  }

  /** A database counts as promoted if and only if its standby file was there and everything went right, the test
      that it is no longer read only among it. */
  lemma PromotedExactly(p: Progress, db: Db, a: Attempt)
    ensures Promoted(p, db, a).1 <==> Standby(db) in p.disk && GoesRight(a)
  {
    if Standby(db) in p.disk {
      ScriptEnds(Shell(p.disk, false, false, p.stops, p.starts), db, a);
      BodyFinishes(p.disk, db, a.body);
    }
  }

  /** For any list of databases the loop ends at the first whose standby file is missing or whose turn does not
      go right, and has promoted those before it. */
  lemma {:induction false} PromotedAllExactly(p: Progress, dbs: seq<Db>, attempts: seq<Attempt>)
    requires |dbs| == |attempts| && Distinct(dbs)
    requires forall i :: 0 <= i < |dbs| ==> Kept(dbs[i]) !in p.disk
    ensures var n := PromotedAll(p, dbs, attempts).1;
      && n <= |dbs|
      && (forall i :: 0 <= i < n ==> Standby(dbs[i]) in p.disk && GoesRight(attempts[i]))
      && (n < |dbs| ==> !(Standby(dbs[n]) in p.disk && GoesRight(attempts[n])))
    decreases |dbs|
  {
    if dbs != [] {
      PromotedExactly(p, dbs[0], attempts[0]);
      TurnEffect(p, dbs[0], attempts[0]);
      var (p', ok) := Promoted(p, dbs[0], attempts[0]);
      if ok {
        var rest := dbs[1..];
        forall i | 0 <= i < |rest|
          ensures Kept(rest[i]) !in p'.disk && (Standby(rest[i]) in p'.disk <==> Standby(dbs[i + 1]) in p.disk)
        {
          assert rest[i] == dbs[i + 1] && Untouched(p.disk, p'.disk, rest[i]);
        }
        PromotedAllExactly(p', rest, attempts[1..]);
        var n := PromotedAll(p', rest, attempts[1..]).1;
        forall i | 0 <= i < n + 1 ensures Standby(dbs[i]) in p.disk && GoesRight(attempts[i]) {
          if i > 0 {
            assert Standby(rest[i - 1]) in p'.disk && GoesRight(attempts[1..][i - 1]);
          }
        }
      }
    }
  }
}
