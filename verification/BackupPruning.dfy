/** The two deleters of backups: the worker's retention (worker.js cleanupRetention) and the administrator's
    cleanup (server.js backupCleanupCandidates and its route). Each reads a list first and deletes later, row
    by row; any number of them run between each other and between backups that start and finish. */
module BackupPruning {
  import opened Runs

  type Db = nat
  type JobId = nat
  type Time = int

  const DAY_MS: int := 24 * 60 * 60 * 1000

  /** normalizePositiveMinutes with its default bounds, as retentionDays passes through it; None where it is not
      a number. */
  function RetentionDays(value: Option<int>, fallback: int): int {
    if value.None? then fallback
    else if value.value < 1 then 1
    else if value.value > 10080 then 10080
    else value.value
  }

  /** A number of days as set is taken as the nearest of 1 to 10080, no number as the default. */
  lemma RetentionDaysExactly(value: Option<int>, fallback: int, days: int)
    ensures value.None? ==> RetentionDays(value, fallback) == fallback
    ensures value.Some? ==> 1 <= RetentionDays(value, fallback) <= 10080
    ensures value.Some? && 1 <= days <= 10080 ==>
              Distance(value.value, RetentionDays(value, fallback)) <= Distance(value.value, days)
  {
  }

  function Distance(a: int, b: int): nat {
    if a < b then b - a else a - b
  }

  datatype Status = Running | Success | Failed

  /** managed: the path lies in the backup directory and ends like a backup (isManagedBackupPath). */
  datatype Job = Job(db: Db, status: Status, createdAt: Time, hasPath: bool, managed: bool)

  type Jobs = map<JobId, Job>

  // ----- queries and the cleanup's choice -----

  predicate IsSuccess(jobs: Jobs, id: JobId, db: Db) {
    id in jobs && jobs[id].db == db && jobs[id].status == Success
  }

  /** Another successful backup of the same database is newer. */
  ghost predicate Superseded(jobs: Jobs, id: JobId) {
    id in jobs && exists j :: IsSuccess(jobs, j, jobs[id].db) && jobs[j].createdAt > jobs[id].createdAt
  }

  ghost predicate Newest(jobs: Jobs, db: Db, id: JobId) {
    IsSuccess(jobs, id, db) && !Superseded(jobs, id)
  }

  /** The answer of findFirst, newest first. */
  ghost predicate IsLatest(jobs: Jobs, db: Db, latest: Option<JobId>) {
    if latest.None? then forall id :: id in jobs ==> !IsSuccess(jobs, id, db) else Newest(jobs, db, latest.value)
  }

  predicate IsOld(jobs: Jobs, id: JobId, db: Db, cutoff: Time, latest: Option<JobId>) {
    IsSuccess(jobs, id, db) && jobs[id].createdAt < cutoff && latest != Some(id)
  }

  ghost predicate IsOldList(jobs: Jobs, db: Db, cutoff: Time, latest: Option<JobId>, list: seq<JobId>) {
    && (forall id :: id in list <==> IsOld(jobs, id, db, cutoff, latest))
    && forall i, j :: 0 <= i < j < |list| ==> list[i] != list[j]
  }

  /** The rows the cleanup reads: successful, with a path, older than the cutoff if there is one, of the one
      database if one was named; newest first within a database. */
  predicate Listed(jobs: Jobs, id: JobId, cutoff: Option<Time>, only: Option<Db>) {
    && id in jobs && jobs[id].status == Success && jobs[id].hasPath
    && (cutoff.Some? ==> jobs[id].createdAt < cutoff.value)
    && (only.Some? ==> jobs[id].db == only.value)
  }

  ghost predicate IsListing(jobs: Jobs, cutoff: Option<Time>, only: Option<Db>, listing: seq<JobId>) {
    && (forall id :: id in listing <==> Listed(jobs, id, cutoff, only))
    && (forall i :: 0 <= i < |listing| ==> listing[i] in jobs)
    && forall i, j :: 0 <= i < j < |listing| && jobs[listing[i]].db == jobs[listing[j]].db ==>
         jobs[listing[i]].createdAt > jobs[listing[j]].createdAt
  }

  /** A JavaScript number; NotANumber compares false with everything. */
  datatype Number = NotANumber | Infinite(positive: bool) | Finite(value: real)

  /** keepLastPerDatabase of a request: absent or falsy, or what Number() makes of it. */
  datatype KeepInput = Falsy | Given(number: Number)

  function NormalizedKeep(input: KeepInput): Number {
    match input
    case Falsy => Finite(1.0)
    case Given(NotANumber) => NotANumber
    case Given(Infinite(positive)) => if positive then Infinite(true) else Finite(0.0)
    case Given(Finite(v)) => Finite(if v < 0.0 then 0.0 else v)
  }

  predicate Below(count: nat, keep: Number) {
    match keep
    case NotANumber => false
    case Infinite(positive) => positive
    case Finite(v) => count as real < v
  }

  predicate AboveZero(keep: Number) {
    (keep.Infinite? && keep.positive) || (keep.Finite? && keep.value > 0.0)
  }

  function CountOf(kept: map<Db, nat>, db: Db): nat {
    if db in kept then kept[db] else 0
  }

  function Candidates(jobs: Jobs, listing: seq<JobId>, keep: Number, kept: map<Db, nat>): seq<JobId>
    requires forall id :: id in listing ==> id in jobs
  {
    if listing == [] then []
    else
      var job := jobs[listing[0]];
      var count := CountOf(kept, job.db);
      var rest := Candidates(jobs, listing[1..], keep, kept[job.db := count + 1]);
      if Below(count, keep) || !job.managed then rest else [listing[0]] + rest
  }

  /** The loop of backupCleanupCandidates over the rows of the query. */
  method BackupCleanupCandidates(jobs: Jobs, listing: seq<JobId>, input: KeepInput) returns (candidates: seq<JobId>)
    requires forall id :: id in listing ==> id in jobs
    ensures candidates == Candidates(jobs, listing, NormalizedKeep(input), map[])
  {
    var keep := NormalizedKeep(input);
    var kept: map<Db, nat> := map[];
    candidates := [];
    for i := 0 to |listing|
      invariant candidates + Candidates(jobs, listing[i..], keep, kept) == Candidates(jobs, listing, keep, map[])
    {
      var job := jobs[listing[i]];
      CandidatesNext(jobs, listing, i, keep, kept, candidates);
      var count := if job.db in kept then kept[job.db] else 0;
      kept := kept[job.db := count + 1];
      if !Below(count, keep) && job.managed {
        candidates := candidates + [listing[i]];
      }
    }
  }

  /** What one turn of the loop adds to the candidates found so far. */
  lemma CandidatesNext(jobs: Jobs, listing: seq<JobId>, i: nat, keep: Number, kept: map<Db, nat>, found: seq<JobId>)
    requires i < |listing| && forall id :: id in listing ==> id in jobs
    ensures var job := jobs[listing[i]]; var count := CountOf(kept, job.db);
      found + Candidates(jobs, listing[i..], keep, kept)
      == (if Below(count, keep) || !job.managed then found else found + [listing[i]])
         + Candidates(jobs, listing[i + 1..], keep, kept[job.db := count + 1])
  {
    assert listing[i..][0] == listing[i] && listing[i..][1..] == listing[i + 1..];
    var rest := Candidates(jobs, listing[i + 1..], keep,
                           kept[jobs[listing[i]].db := CountOf(kept, jobs[listing[i]].db) + 1]);
    assert found + ([listing[i]] + rest) == found + [listing[i]] + rest;
  }

  /** A candidate has an earlier row of its database in the listing, or rows counted before it. */
  lemma {:induction false} CandidateHasEarlier(jobs: Jobs, listing: seq<JobId>, keep: Number, kept: map<Db, nat>,
      id: JobId)
    requires forall id :: id in listing ==> id in jobs
    requires AboveZero(keep)
    requires id in Candidates(jobs, listing, keep, kept)
    ensures id in listing
    ensures CountOf(kept, jobs[id].db) > 0
      || exists i, j :: 0 <= i < j < |listing| && listing[j] == id && jobs[listing[i]].db == jobs[id].db
    decreases |listing|
  {
    var job := jobs[listing[0]];
    var count := CountOf(kept, job.db);
    var rest := Candidates(jobs, listing[1..], keep, kept[job.db := count + 1]);
    if id in rest {
      CandidateHasEarlier(jobs, listing[1..], keep, kept[job.db := count + 1], id);
      if i, j :| 0 <= i < j < |listing[1..]| && listing[1..][j] == id && jobs[listing[1..][i]].db == jobs[id].db {
        assert listing[i + 1] == listing[1..][i] && listing[j + 1] == id;
      } else if job.db == jobs[id].db {
        var j :| 0 <= j < |listing[1..]| && listing[1..][j] == id;
        assert listing[0 + j + 1] == id;
      }
    }
  }

  lemma CandidatesSuperseded(jobs: Jobs, cutoff: Option<Time>, only: Option<Db>, listing: seq<JobId>, keep: Number,
      id: JobId)
    requires IsListing(jobs, cutoff, only, listing)
    requires AboveZero(keep)
    requires id in Candidates(jobs, listing, keep, map[])
    ensures Superseded(jobs, id)
  {
    CandidateHasEarlier(jobs, listing, keep, map[], id);
    var i, j :| 0 <= i < j < |listing| && listing[j] == id && jobs[listing[i]].db == jobs[id].db;
    assert IsSuccess(jobs, listing[i], jobs[id].db) by {
      assert listing[i] in listing;
    }
  }

  /** How many of the first n rows of a listing are of a database. */
  function CountBefore(jobs: Jobs, listing: seq<JobId>, n: nat, db: Db): nat
    requires n <= |listing| && forall id :: id in listing ==> id in jobs
  {
    if n == 0 then 0
    else CountBefore(jobs, listing, n - 1, db) + if jobs[listing[n - 1]].db == db then 1 else 0
  }

  lemma {:induction false} CountBeforeTail(jobs: Jobs, listing: seq<JobId>, n: nat, db: Db)
    requires 0 < n <= |listing| && forall id :: id in listing ==> id in jobs
    ensures CountBefore(jobs, listing, n, db)
         == CountBefore(jobs, listing[1..], n - 1, db) + if jobs[listing[0]].db == db then 1 else 0
    decreases n
  {
    if n > 1 {
      CountBeforeTail(jobs, listing, n - 1, db);
      assert listing[1..][n - 2] == listing[n - 1];
    }
  }

  /** The row at a place of a listing without repetitions is a candidate by the rows of its database before it. */
  lemma {:induction false} CandidateByPlace(jobs: Jobs, listing: seq<JobId>, keep: Number, kept: map<Db, nat>, n: nat)
    requires n < |listing| && forall id :: id in listing ==> id in jobs
    requires forall i, j :: 0 <= i < j < |listing| ==> listing[i] != listing[j]
    ensures var job := jobs[listing[n]];
      listing[n] in Candidates(jobs, listing, keep, kept)
      <==> job.managed && !Below(CountOf(kept, job.db) + CountBefore(jobs, listing, n, job.db), keep)
    decreases n
  {
    var first := jobs[listing[0]];
    var kept' := kept[first.db := CountOf(kept, first.db) + 1];
    if n == 0 {
      OnlyListed(jobs, listing[1..], keep, kept', listing[0]);
    } else {
      CandidateByPlace(jobs, listing[1..], keep, kept', n - 1);
      assert listing[1..][n - 1] == listing[n];
      CountBeforeTail(jobs, listing, n, jobs[listing[n]].db);
    }
  }

  lemma {:induction false} OnlyListed(jobs: Jobs, listing: seq<JobId>, keep: Number, kept: map<Db, nat>, id: JobId)
    requires forall x :: x in listing ==> x in jobs
    ensures id in Candidates(jobs, listing, keep, kept) ==> id in listing
    decreases |listing|
  {
    if listing != [] {
      var job := jobs[listing[0]];
      OnlyListed(jobs, listing[1..], keep, kept[job.db := CountOf(kept, job.db) + 1], id);
    }
  }

  /** The rows a request asks for. */
  ghost predicate AskedFor(job: Job, cutoff: Option<Time>, only: Option<Db>) {
    && job.status == Success && job.hasPath
    && (cutoff.Some? ==> job.createdAt < cutoff.value) && (only.Some? ==> job.db == only.value)
  }

  /** The asked-for rows of a row's database that are newer. */
  ghost function Newer(jobs: Jobs, cutoff: Option<Time>, only: Option<Db>, id: JobId): set<JobId>
    requires id in jobs
  {
    set x | x in jobs && AskedFor(jobs[x], cutoff, only)
            && jobs[x].db == jobs[id].db && jobs[x].createdAt > jobs[id].createdAt
  }

  /** As many newer rows as the request says to keep: one where it says nothing, none where it says something
      that is no number, never where it says infinity. */
  predicate EnoughKept(input: KeepInput, newer: nat) {
    match input
    case Falsy => newer >= 1
    case Given(NotANumber) => true
    case Given(Infinite(positive)) => !positive
    case Given(Finite(v)) => newer as real >= v
  }

  lemma {:induction false} CountIsNewer(jobs: Jobs, listing: seq<JobId>, n: nat, m: nat, newer: set<JobId>)
    requires m <= n < |listing| && forall id :: id in listing ==> id in jobs
    requires forall i, j :: 0 <= i < j < |listing| ==> listing[i] != listing[j]
    requires newer == set i | 0 <= i < m && jobs[listing[i]].db == jobs[listing[n]].db :: listing[i]
    ensures CountBefore(jobs, listing, m, jobs[listing[n]].db) == |newer|
    decreases m
  {
    if m > 0 {
      var db := jobs[listing[n]].db;
      var before := set i | 0 <= i < m - 1 && jobs[listing[i]].db == db :: listing[i];
      CountIsNewer(jobs, listing, n, m - 1, before);
      assert listing[m - 1] !in before;
      assert newer == if jobs[listing[m - 1]].db == db then before + {listing[m - 1]} else before;
    }
  }

  lemma EnoughIsNotBelow(input: KeepInput, n: nat)
    ensures !Below(n, NormalizedKeep(input)) <==> EnoughKept(input, n)
  {
  }

  /** In an answer of the query the rows of a database before a row are the newer ones. */
  lemma BeforeIsNewer(jobs: Jobs, cutoff: Option<Time>, only: Option<Db>, listing: seq<JobId>, n: nat,
                      before: set<JobId>)
    requires IsListing(jobs, cutoff, only, listing) && n < |listing|
    requires before == set i | 0 <= i < n && jobs[listing[i]].db == jobs[listing[n]].db :: listing[i]
    ensures before == Newer(jobs, cutoff, only, listing[n])
  {
    forall x | x in before ensures x in Newer(jobs, cutoff, only, listing[n]) {
      var i :| 0 <= i < n && jobs[listing[i]].db == jobs[listing[n]].db && listing[i] == x;
      assert listing[i] in listing && Listed(jobs, x, cutoff, only);
    }
    forall x | x in Newer(jobs, cutoff, only, listing[n]) ensures x in before {
      assert Listed(jobs, x, cutoff, only) && x in listing;
      var i :| 0 <= i < |listing| && listing[i] == x;
      assert i < n;
    }
  }

  /** For every answer of the query: a row is a candidate if and only if it was asked for, its path is managed,
      and as many newer rows of its database were asked for as the request says to keep. */
  lemma CandidatesExactly(jobs: Jobs, cutoff: Option<Time>, only: Option<Db>, listing: seq<JobId>, input: KeepInput,
                          id: JobId)
    requires IsListing(jobs, cutoff, only, listing) && id in jobs
    ensures id in Candidates(jobs, listing, NormalizedKeep(input), map[])
      <==> AskedFor(jobs[id], cutoff, only) && jobs[id].managed && EnoughKept(input, |Newer(jobs, cutoff, only, id)|)
  {
    OnlyListed(jobs, listing, NormalizedKeep(input), map[], id);
    assert id in listing <==> Listed(jobs, id, cutoff, only);
    if id in listing {
      var n :| 0 <= n < |listing| && listing[n] == id;
      ListedByPlace(jobs, cutoff, only, listing, input, n);
    }
  }

  lemma ListedByPlace(jobs: Jobs, cutoff: Option<Time>, only: Option<Db>, listing: seq<JobId>, input: KeepInput, n: nat)
    requires IsListing(jobs, cutoff, only, listing) && n < |listing|
    ensures listing[n] in Candidates(jobs, listing, NormalizedKeep(input), map[])
      <==> jobs[listing[n]].managed && EnoughKept(input, |Newer(jobs, cutoff, only, listing[n])|)
  {
    var before := set i | 0 <= i < n && jobs[listing[i]].db == jobs[listing[n]].db :: listing[i];
    assert forall i, j :: 0 <= i < j < |listing| ==> listing[i] != listing[j];
    CandidateByPlace(jobs, listing, NormalizedKeep(input), map[], n);
    CountIsNewer(jobs, listing, n, n, before);
    BeforeIsNewer(jobs, cutoff, only, listing, n, before);
    EnoughIsNotBelow(input, |before|);
  }

  /** The cleanup puts the newest successful backup of some database on its list. */
  ghost predicate ListsNewest(jobs: Jobs, cutoff: Option<Time>, only: Option<Db>, listing: seq<JobId>, keep: Number,
      id: JobId) {
    && IsListing(jobs, cutoff, only, listing)
    && id in Candidates(jobs, listing, keep, map[])
    && id in jobs && Newest(jobs, jobs[id].db, id)
  }

  /** That can happen for some rows exactly when the number to keep is not a number above zero. The numeric 0
      of a request counts as absent, so it still keeps one; the text "0", a negative number or a text that is
      no number do not. */
  lemma KeepExact(input: KeepInput)
    ensures (exists jobs, cutoff, only, listing, id ::
               ListsNewest(jobs, cutoff, only, listing, NormalizedKeep(input), id))
      <==> !AboveZero(NormalizedKeep(input))
  {
    var keep := NormalizedKeep(input);
    if AboveZero(keep) {
      forall jobs, cutoff, only, listing, id | ListsNewest(jobs, cutoff, only, listing, keep, id) ensures false {
        CandidatesSuperseded(jobs, cutoff, only, listing, keep, id);
      }
    } else {
      var jobs: Jobs := map[0 := Job(0, Success, 0, true, true)];
      assert IsListing(jobs, None, None, [0]);
      assert Newest(jobs, 0, 0);
      assert !Below(0, keep);
      assert Candidates(jobs, [0], keep, map[]) == [0] + Candidates(jobs, [], keep, map[0 := 1]);
      assert ListsNewest(jobs, None, None, [0], keep, 0);
    }
  }

  // ----- retention on its own -----

  /** What retention removes: a success of the database from before the cutoff, other than the latest. */
  ghost predicate GoesWith(job: Job, id: JobId, db: Db, cutoff: Time, latest: Option<JobId>) {
    job.db == db && job.status == Success && job.createdAt < cutoff && latest != Some(id)
  }

  /** The backup rows and their files, as one retention run finds and leaves them. */
  class BackupTable {
    var jobs: Jobs
    var files: set<JobId>

    method FindLatestSuccess(db: Db) returns (latest: Option<JobId>)
      ensures IsLatest(jobs, db, latest)
      ensures latest.Some? ==>
                latest.value in jobs && jobs[latest.value].db == db && jobs[latest.value].status == Success
      ensures forall id :: id in jobs && jobs[id].db == db && jobs[id].status == Success ==>
                latest.Some? && jobs[id].createdAt <= jobs[latest.value].createdAt
    {
      latest := None;
      var todo := jobs.Keys;
      while todo != {}
        invariant todo <= jobs.Keys
        invariant latest.Some? ==> IsSuccess(jobs, latest.value, db)
        invariant forall id :: IsSuccess(jobs, id, db) && id !in todo ==>
                    latest.Some? && jobs[id].createdAt <= jobs[latest.value].createdAt
        decreases todo
      {
        var id :| id in todo;
        todo := todo - {id};
        if jobs[id].db == db && jobs[id].status == Success
           && (latest.None? || jobs[id].createdAt > jobs[latest.value].createdAt) {
          latest := Some(id);
        }
      }
    }

    method FindOldJobs(db: Db, cutoff: Time, latest: Option<JobId>) returns (list: seq<JobId>)
      ensures IsOldList(jobs, db, cutoff, latest, list)
      ensures forall id :: id in list <==>
                && id in jobs && jobs[id].db == db && jobs[id].status == Success
                && jobs[id].createdAt < cutoff && latest != Some(id)
    {
      list := [];
      var todo := jobs.Keys;
      while todo != {}
        invariant todo <= jobs.Keys
        invariant forall id :: id in list <==> id !in todo && IsOld(jobs, id, db, cutoff, latest)
        invariant forall i, j :: 0 <= i < j < |list| ==> list[i] != list[j]
        decreases todo
      {
        var id :| id in todo;
        todo := todo - {id};
        if jobs[id].db == db && jobs[id].status == Success && jobs[id].createdAt < cutoff && latest != Some(id) {
          list := list + [id];
        }
      }
    }

    /** Exactly the successes older than the retention go, with their files, except the latest success. */
    method CleanupRetention(db: Db, retentionDays: Option<int>, fallback: int, now: Time)
      returns (latest: Option<JobId>)
      modifies this
      ensures IsLatest(old(jobs), db, latest)
      ensures forall id :: id in jobs <==>
                && id in old(jobs)
                && !GoesWith(old(jobs)[id], id, db, now - RetentionDays(retentionDays, fallback) * DAY_MS, latest)
      ensures forall id :: id in jobs ==> jobs[id] == old(jobs)[id]
      ensures forall id :: id in files <==>
                && id in old(files)
                && !(id in old(jobs)
                     && GoesWith(old(jobs)[id], id, db, now - RetentionDays(retentionDays, fallback) * DAY_MS, latest))
    {
      var cutoff := now - RetentionDays(retentionDays, fallback) * DAY_MS;
      latest := FindLatestSuccess(db);
      var oldJobs := FindOldJobs(db, cutoff, latest);
      for i := 0 to |oldJobs|
        invariant forall id :: id in jobs <==> id in old(jobs) && id !in oldJobs[..i]
        invariant forall id :: id in jobs ==> jobs[id] == old(jobs)[id]
        invariant forall id :: id in files <==> id in old(files) && id !in oldJobs[..i]
      {
        files := files - {oldJobs[i]};
        jobs := jobs - {oldJobs[i]};
        assert oldJobs[..i + 1] == oldJobs[..i] + [oldJobs[i]];
      }
      assert oldJobs[..|oldJobs|] == oldJobs;
    }
  }

  // ----- the deleters between each other -----

  /** A retention run of one database, or a list of rows still to be deleted; retention stops at the first
      row it cannot delete, the cleanup goes on with the next. */
  datatype Pruner =
    | Started(db: Db, cutoff: Time)
    | Chose(db: Db, cutoff: Time, latest: Option<JobId>)
    | Deleting(pending: seq<JobId>, stopsOnError: bool)

  /** fallback: the default retention in days. */
  datatype State = State(fallback: int, now: Time, jobs: Jobs, files: set<JobId>, nextId: JobId, pruners: seq<Pruner>)

  datatype Event =
    | Pass(ms: nat)
    | Create(db: Db, hasPath: bool, managed: bool)
    | Complete(id: JobId, ok: bool)
    | Demote(id: JobId)
    | StartRetention(db: Db, retentionDays: Option<int>)
    | ChooseLatest(pruner: nat, latest: Option<JobId>)
    | ListOld(pruner: nat, list: seq<JobId>)
    | ReadCleanup(cutoff: Option<Time>, only: Option<Db>, listing: seq<JobId>, input: KeepInput)
    | RemoveFile(pruner: nat)
    | DeleteRow(pruner: nat)
    | SkipRow(pruner: nat)

  function Init(fallback: int, now: Time): State {
    State(fallback, now, map[], {}, 0, [])
  }

  predicate HasPending(s: State, p: nat) {
    p < |s.pruners| && s.pruners[p].Deleting? && s.pruners[p].pending != []
  }

  function Popped(s: State, p: nat): seq<Pruner>
    requires HasPending(s, p)
  {
    s.pruners[p := s.pruners[p].(pending := s.pruners[p].pending[1..])]
  }

  /** The guards of the reading events say that the query answered right; the one of Create that no two rows
      of a database share a creation time. A backup's last write is by id alone, so a row that was marked
      FAILED as stale meanwhile still becomes a SUCCESS. Demote: something that follows that write throws, so the
      file goes to quarantine and the row becomes FAILED. */
  ghost function Step(s: State, e: Event): State {
    match e
    case Pass(ms) => s.(now := s.now + ms)
    case Create(db, hasPath, managed) =>
      if exists id :: id in s.jobs && s.jobs[id].db == db && s.jobs[id].createdAt == s.now then s
      else s.(jobs := s.jobs[s.nextId := Job(db, Running, s.now, hasPath, managed)], nextId := s.nextId + 1)
    case Complete(id, ok) =>
      if id !in s.jobs || s.jobs[id].status == Success then s
      else if ok then s.(jobs := s.jobs[id := s.jobs[id].(status := Success)], files := s.files + {id})
      else s.(jobs := s.jobs[id := s.jobs[id].(status := Failed)])
    case Demote(id) =>
      if id !in s.jobs || s.jobs[id].status != Success then s
      else s.(jobs := s.jobs[id := s.jobs[id].(status := Failed)], files := s.files - {id})
    case StartRetention(db, days) =>
      s.(pruners := s.pruners + [Started(db, s.now - RetentionDays(days, s.fallback) * DAY_MS)])
    case ChooseLatest(p, latest) =>
      if p < |s.pruners| && s.pruners[p].Started? && IsLatest(s.jobs, s.pruners[p].db, latest)
      then s.(pruners := s.pruners[p := Chose(s.pruners[p].db, s.pruners[p].cutoff, latest)]) else s
    case ListOld(p, list) =>
      if p < |s.pruners| && s.pruners[p].Chose?
         && IsOldList(s.jobs, s.pruners[p].db, s.pruners[p].cutoff, s.pruners[p].latest, list)
      then s.(pruners := s.pruners[p := Deleting(list, true)]) else s
    case ReadCleanup(cutoff, only, listing, input) =>
      if IsListing(s.jobs, cutoff, only, listing)
      then s.(pruners := s.pruners + [Deleting(Candidates(s.jobs, listing, NormalizedKeep(input), map[]), false)])
      else s
    case RemoveFile(p) =>
      if HasPending(s, p) then s.(files := s.files - {s.pruners[p].pending[0]}) else s
    case DeleteRow(p) =>
      if !HasPending(s, p) then s
      else if s.pruners[p].pending[0] in s.jobs
      then s.(jobs := s.jobs - {s.pruners[p].pending[0]}, pruners := Popped(s, p))
      else s.(pruners := if s.pruners[p].stopsOnError then s.pruners[p := Deleting([], true)] else Popped(s, p))
    case SkipRow(p) =>
      if !HasPending(s, p) then s
      else s.(pruners := if s.pruners[p].stopsOnError then s.pruners[p := Deleting([], true)] else Popped(s, p))
  }

  /** A retention run of the row's database stands between its two reads and will count the row as old. */
  ghost predicate Caught(s: State, id: JobId) {
    id in s.jobs && exists p :: 0 <= p < |s.pruners| && Catches(s.pruners[p], s.jobs[id], id)
  }

  predicate Catches(p: Pruner, job: Job, id: JobId) {
    p.Chose? && p.db == job.db && job.createdAt < p.cutoff && p.latest != Some(id)
  }

  /** Row x is lost or on its way: a deleter has it on its list, its file is gone, or a retention run between its
      two reads will list it. */
  ghost predicate Endangered(s: State, x: JobId) {
    && x in s.jobs
    && ((s.jobs[x].status == Success && x !in s.files)
        || exists p :: 0 <= p < |s.pruners| && Threatens(s.pruners[p], s.jobs, x))
  }

  ghost predicate Threatens(p: Pruner, jobs: Jobs, x: JobId) {
    match p
    case Started(_, _) => false
    case Chose(db, cutoff, latest) => IsOld(jobs, x, db, cutoff, latest)
    case Deleting(pending, _) => x in pending
  }

  /** Row id is the only newer success that lets go of such a row. */
  ghost predicate ReliedOn(s: State, id: JobId) {
    exists x :: x != id && Endangered(s, x) && OnlySuperseder(s.jobs, x, id)
  }

  ghost predicate OnlySuperseder(jobs: Jobs, x: JobId, id: JobId) {
    x in jobs && forall j :: IsSuccess(jobs, j, jobs[x].db) && jobs[j].createdAt > jobs[x].createdAt ==> j == id
  }

  /** A demoted backup is not the only one of its database, and no deleter relied on it. */
  ghost predicate DemotesSafely(s: State, e: Event) {
    e.Demote? && e.id in s.jobs && s.jobs[e.id].status == Success ==>
      !ReliedOn(s, e.id) && exists j :: j != e.id && IsSuccess(s.jobs, j, s.jobs[e.id].db)
  }

  /** What the deleters assume of the world: cleanups keep at least one, no backup that retention already counts
      as old succeeds between that run's two reads and becomes the newest, and demotions are safe. */
  ghost predicate Allowed(s: State, e: Event) {
    && (e.ReadCleanup? ==> AboveZero(NormalizedKeep(e.input)))
    && (e.Complete? && e.ok && e.id in s.jobs && s.jobs[e.id].status != Success && Caught(s, e.id) ==>
          Superseded(s.jobs, e.id))
    && DemotesSafely(s, e)
  }

  ghost predicate AllAllowed(s: State, evs: seq<Event>) {
    forall k :: 0 <= k < |evs| ==> Allowed(Exec(Step, s, evs[..k]), evs[k])
  }

  // ----- the newest successful backup stays -----

  /** Everything waiting to be deleted, every row whose file is gone, and every row a retention run may still
      list, has a newer successful backup. */
  ghost predicate PrunerSafe(s: State, p: Pruner) {
    match p
    case Started(_, _) => true
    case Chose(db, cutoff, latest) => forall id :: IsOld(s.jobs, id, db, cutoff, latest) ==> Superseded(s.jobs, id)
    case Deleting(pending, _) =>
      forall id :: id in pending ==> id < s.nextId && (id in s.jobs ==> Superseded(s.jobs, id))
  }

  ghost predicate FilesSafe(s: State) {
    forall id :: id in s.jobs && s.jobs[id].status == Success && id !in s.files ==> Superseded(s.jobs, id)
  }

  ghost predicate Distinct(s: State) {
    && (forall id :: id in s.jobs ==> id < s.nextId && s.jobs[id].createdAt <= s.now)
    && forall a, b :: a in s.jobs && b in s.jobs && a != b && s.jobs[a].db == s.jobs[b].db ==>
         s.jobs[a].createdAt != s.jobs[b].createdAt
  }

  ghost predicate Inv(s: State) {
    && Distinct(s) && FilesSafe(s)
    && forall p :: 0 <= p < |s.pruners| ==> PrunerSafe(s, s.pruners[p])
  }

  /** How one step changes the rows: at most one superseded row goes, a row keeps its database and creation
      time, new rows have new ids, and a new success has its file and is superseded unless no retention run
      would count it as old. */
  ghost predicate Moves(s: State, t: State, gone: Option<JobId>) {
    && s.now <= t.now && s.nextId <= t.nextId
    && (gone.Some? ==> Superseded(s.jobs, gone.value) && gone.value !in t.jobs)
    && (forall id :: id in s.jobs && Some(id) != gone ==>
          id in t.jobs && t.jobs[id].db == s.jobs[id].db && t.jobs[id].createdAt == s.jobs[id].createdAt
          && (s.jobs[id].status == Success ==> t.jobs[id] == s.jobs[id]))
    && (forall id :: id in t.jobs && id !in s.jobs ==> id >= s.nextId)
    && (forall id :: id in t.jobs && t.jobs[id].status == Success ==>
          id in s.jobs && (t.jobs[id] == s.jobs[id] || (id in t.files && (Caught(s, id) ==> Superseded(s.jobs, id)))))
  }

  lemma SupersededStays(s: State, t: State, gone: Option<JobId>, id: JobId)
    requires Moves(s, t, gone) && Superseded(s.jobs, id) && id in t.jobs
    ensures Superseded(t.jobs, id)
  {
    var j :| IsSuccess(s.jobs, j, s.jobs[id].db) && s.jobs[j].createdAt > s.jobs[id].createdAt;
    if gone == Some(j) {
      var k :| IsSuccess(s.jobs, k, s.jobs[j].db) && s.jobs[k].createdAt > s.jobs[j].createdAt;
      assert IsSuccess(t.jobs, k, s.jobs[id].db);
    } else {
      assert IsSuccess(t.jobs, j, s.jobs[id].db);
    }
  }

  lemma PrunerStays(s: State, t: State, gone: Option<JobId>, p: Pruner)
    requires Moves(s, t, gone) && PrunerSafe(s, p) && (p.Chose? ==> p in s.pruners)
    ensures PrunerSafe(t, p)
  {
    match p
    case Started(_, _) =>
    case Chose(db, cutoff, latest) =>
      forall id | IsOld(t.jobs, id, db, cutoff, latest) ensures Superseded(t.jobs, id) {
        assert IsOld(s.jobs, id, db, cutoff, latest) || Catches(p, s.jobs[id], id);
        SupersededStays(s, t, gone, id);
      }
    case Deleting(pending, _) =>
      forall id | id in pending ensures id < t.nextId && (id in t.jobs ==> Superseded(t.jobs, id)) {
        if id in t.jobs {
          SupersededStays(s, t, gone, id);
        }
      }
  }

  /** If the rows move so, files go only of superseded rows, and new or changed deleters are safe, the
      invariant stays. */
  lemma MovesKeepInv(s: State, t: State, gone: Option<JobId>)
    requires Inv(s) && Moves(s, t, gone) && Distinct(t)
    requires forall id :: id in s.files && id !in t.files ==> (id in t.jobs ==> Superseded(s.jobs, id))
    requires forall p :: 0 <= p < |t.pruners| ==>
        (p < |s.pruners| && t.pruners[p] == s.pruners[p]) || PrunerSafe(t, t.pruners[p])
    ensures Inv(t)
  {
    forall id | id in t.jobs && t.jobs[id].status == Success && id !in t.files ensures Superseded(t.jobs, id) {
      assert id in s.jobs && t.jobs[id] == s.jobs[id];
      SupersededStays(s, t, gone, id);
    }
    forall p | 0 <= p < |t.pruners| ensures PrunerSafe(t, t.pruners[p]) {
      if p < |s.pruners| && t.pruners[p] == s.pruners[p] {
        PrunerStays(s, t, gone, s.pruners[p]);
      }
    }
  }

  lemma CompleteKeeps(s: State, id: JobId, ok: bool)
    requires Inv(s) && Allowed(s, Complete(id, ok))
    ensures Inv(Step(s, Complete(id, ok)))
  {
    var t := Step(s, Complete(id, ok));
    MovesKeepInv(s, t, None);
  }

  /** Of what is superseded, exactly the rows that relied on the demoted one are no longer. */
  lemma SupersededWithout(s: State, id: JobId, x: JobId)
    requires id in s.jobs && s.jobs[id].status == Success && Superseded(s.jobs, x) && x != id
    ensures Superseded(Step(s, Demote(id)).jobs, x) <==> !OnlySuperseder(s.jobs, x, id)
  {
    var t := Step(s, Demote(id));
    if j :| IsSuccess(s.jobs, j, s.jobs[x].db) && s.jobs[j].createdAt > s.jobs[x].createdAt && j != id {
      assert IsSuccess(t.jobs, j, t.jobs[x].db);
    }
  }

  /** A demotion keeps the invariant if and only if no deleter relied on the row. */
  lemma DemotionExactly(s: State, id: JobId)
    requires Inv(s) && id in s.jobs && s.jobs[id].status == Success
    ensures Inv(Step(s, Demote(id))) <==> !ReliedOn(s, id)
  {
    var t := Step(s, Demote(id));
    if x :| x != id && Endangered(s, x) && OnlySuperseder(s.jobs, x, id) {
      EndangeredSuperseded(s, x);
      SupersededWithout(s, id, x);
      if s.jobs[x].status == Success && x !in s.files {
        assert !FilesSafe(t);
      } else {
        var p :| 0 <= p < |s.pruners| && Threatens(s.pruners[p], s.jobs, x);
        assert !PrunerSafe(t, t.pruners[p]);
      }
    } else {
      DemotionKeeps(s, id);
    }
  }

  lemma EndangeredSuperseded(s: State, x: JobId)
    requires Inv(s) && Endangered(s, x)
    ensures Superseded(s.jobs, x)
  {
    if !(s.jobs[x].status == Success && x !in s.files) {
      var p :| 0 <= p < |s.pruners| && Threatens(s.pruners[p], s.jobs, x);
      assert PrunerSafe(s, s.pruners[p]);
    }
  }

  lemma StillSuperseded(s: State, id: JobId, x: JobId)
    requires id in s.jobs && s.jobs[id].status == Success && Superseded(s.jobs, x)
    requires x == id || !OnlySuperseder(s.jobs, x, id)
    ensures Superseded(Step(s, Demote(id)).jobs, x)
  {
    if x != id {
      SupersededWithout(s, id, x);
    } else {
      var j :| IsSuccess(s.jobs, j, s.jobs[x].db) && s.jobs[j].createdAt > s.jobs[x].createdAt;
      assert IsSuccess(Step(s, Demote(id)).jobs, j, s.jobs[x].db);
    }
  }

  lemma DemotedPruner(s: State, id: JobId, p: nat)
    requires Inv(s) && !ReliedOn(s, id) && p < |s.pruners| && id in s.jobs && s.jobs[id].status == Success
    ensures PrunerSafe(Step(s, Demote(id)), s.pruners[p])
  {
    var t := Step(s, Demote(id));
    assert PrunerSafe(s, s.pruners[p]);
    match s.pruners[p]
    case Started(_, _) =>
    case Chose(db, cutoff, latest) =>
      forall x | IsOld(t.jobs, x, db, cutoff, latest) ensures Superseded(t.jobs, x) {
        assert IsOld(s.jobs, x, db, cutoff, latest) && Threatens(s.pruners[p], s.jobs, x) && Endangered(s, x);
        StillSuperseded(s, id, x);
      }
    case Deleting(pending, _) =>
      forall x | x in pending ensures x < t.nextId && (x in t.jobs ==> Superseded(t.jobs, x)) {
        if x in t.jobs {
          assert Threatens(s.pruners[p], s.jobs, x) && Endangered(s, x);
          StillSuperseded(s, id, x);
        }
      }
  }

  lemma DemotionKeeps(s: State, id: JobId)
    requires Inv(s) && !ReliedOn(s, id)
    ensures Inv(Step(s, Demote(id)))
  {
    var t := Step(s, Demote(id));
    if t != s {
      forall x | x in t.jobs && t.jobs[x].status == Success && x !in t.files ensures Superseded(t.jobs, x) {
        assert Endangered(s, x);
        StillSuperseded(s, id, x);
      }
      forall p | 0 <= p < |t.pruners| ensures PrunerSafe(t, t.pruners[p]) {
        DemotedPruner(s, id, p);
      }
    }
  }

  lemma CreateKeeps(s: State, db: Db, hasPath: bool, managed: bool)
    requires Inv(s)
    ensures Inv(Step(s, Create(db, hasPath, managed)))
  {
    MovesKeepInv(s, Step(s, Create(db, hasPath, managed)), None);
  }

  lemma ChooseKeeps(s: State, p: nat, latest: Option<JobId>)
    requires Inv(s)
    ensures Inv(Step(s, ChooseLatest(p, latest)))
  {
    var t := Step(s, ChooseLatest(p, latest));
    if t != s {
      var db, cutoff := s.pruners[p].db, s.pruners[p].cutoff;
      assert PrunerSafe(s, s.pruners[p]);
      forall id | IsOld(s.jobs, id, db, cutoff, latest) ensures Superseded(s.jobs, id) {
        NewestIsNewest(s, db, latest, id);
      }
      MovesKeepInv(s, t, None);
    }
  }

  /** Creation times differ, so the latest success is newer than every other. */
  lemma NewestIsNewest(s: State, db: Db, latest: Option<JobId>, id: JobId)
    requires Distinct(s) && IsLatest(s.jobs, db, latest) && IsSuccess(s.jobs, id, db) && latest != Some(id)
    ensures Superseded(s.jobs, id)
  {
    assert IsSuccess(s.jobs, latest.value, s.jobs[id].db);
    assert IsSuccess(s.jobs, id, s.jobs[latest.value].db);
  }

  lemma ListKeeps(s: State, p: nat, list: seq<JobId>)
    requires Inv(s)
    ensures Inv(Step(s, ListOld(p, list)))
  {
    var t := Step(s, ListOld(p, list));
    if t != s {
      assert PrunerSafe(s, s.pruners[p]);
      MovesKeepInv(s, t, None);
    }
  }

  lemma CleanupKeeps(s: State, cutoff: Option<Time>, only: Option<Db>, listing: seq<JobId>, input: KeepInput)
    requires Inv(s) && Allowed(s, ReadCleanup(cutoff, only, listing, input))
    ensures Inv(Step(s, ReadCleanup(cutoff, only, listing, input)))
  {
    var t := Step(s, ReadCleanup(cutoff, only, listing, input));
    if t != s {
      var keep := NormalizedKeep(input);
      forall id | id in Candidates(s.jobs, listing, keep, map[]) ensures id < s.nextId && Superseded(s.jobs, id) {
        CandidatesSuperseded(s.jobs, cutoff, only, listing, keep, id);
      }
      MovesKeepInv(s, t, None);
    }
  }

  lemma RemoveKeeps(s: State, p: nat)
    requires Inv(s)
    ensures Inv(Step(s, RemoveFile(p)))
  {
    if HasPending(s, p) {
      assert PrunerSafe(s, s.pruners[p]) && s.pruners[p].pending[0] in s.pruners[p].pending;
      MovesKeepInv(s, Step(s, RemoveFile(p)), None);
    }
  }

  /** What is left of a deleter's list after its first row is dealt with. */
  lemma RestSafe(s: State, p: nat)
    requires HasPending(s, p) && PrunerSafe(s, s.pruners[p])
    ensures PrunerSafe(s, Popped(s, p)[p]) && PrunerSafe(s, Deleting([], true))
    ensures s.pruners[p].pending[0] in s.jobs ==> Superseded(s.jobs, s.pruners[p].pending[0])
  {
    var pending := s.pruners[p].pending;
    assert pending[0] in pending;
    assert forall id :: id in pending[1..] ==> id in pending;
  }

  lemma SkipKeeps(s: State, p: nat)
    requires Inv(s)
    ensures Inv(Step(s, SkipRow(p)))
  {
    if HasPending(s, p) {
      RestSafe(s, p);
      MovesKeepInv(s, Step(s, SkipRow(p)), None);
    }
  }

  lemma DeleteKeeps(s: State, p: nat)
    requires Inv(s)
    ensures Inv(Step(s, DeleteRow(p)))
  {
    if HasPending(s, p) {
      RestSafe(s, p);
      var id := s.pruners[p].pending[0];
      if id in s.jobs {
        var t := Step(s, DeleteRow(p));
        assert Moves(s, t, Some(id));
        PrunerStays(s, t, Some(id), Popped(s, p)[p]);
        MovesKeepInv(s, t, Some(id));
      } else {
        MovesKeepInv(s, Step(s, DeleteRow(p)), None);
      }
    }
  }

  lemma StepKeeps(s: State, e: Event)
    requires Inv(s) && Allowed(s, e)
    ensures Inv(Step(s, e))
  {
    match e
    case Pass(ms) => MovesKeepInv(s, Step(s, e), None);
    case Create(db, hasPath, managed) => CreateKeeps(s, db, hasPath, managed);
    case Complete(id, ok) => CompleteKeeps(s, id, ok);
    case Demote(id) =>
      if Step(s, e) != s {
        DemotionKeeps(s, id);
      }
    case StartRetention(db, days) => MovesKeepInv(s, Step(s, e), None);
    case ChooseLatest(p, latest) => ChooseKeeps(s, p, latest);
    case ListOld(p, list) => ListKeeps(s, p, list);
    case ReadCleanup(cutoff, only, listing, input) => CleanupKeeps(s, cutoff, only, listing, input);
    case RemoveFile(p) => RemoveKeeps(s, p);
    case DeleteRow(p) => DeleteKeeps(s, p);
    case SkipRow(p) => SkipKeeps(s, p);
  }

  /** The invariant holds after every prefix of a run. */
  lemma {:induction false} RunKeeps(s: State, evs: seq<Event>, k: nat)
    requires Inv(s) && AllAllowed(s, evs) && k <= |evs|
    ensures Inv(Exec(Step, s, evs[..k]))
    decreases k
  {
    if k > 0 {
      RunKeeps(s, evs, k - 1);
      assert evs[..k] == evs[..k - 1] + [evs[k - 1]];
      ExecSnoc(Step, s, evs[..k - 1], evs[k - 1]);
      StepKeeps(Exec(Step, s, evs[..k - 1]), evs[k - 1]);
    }
  }

  /** One step never removes the newest successful backup of a database, neither its row nor its file, unless it
      demotes that very row. */
  lemma NewestSurvives(s: State, e: Event, db: Db, id: JobId)
    requires Inv(s) && Newest(s.jobs, db, id)
    ensures id in s.files && id in Step(s, e).jobs
    ensures e != Demote(id) ==> IsSuccess(Step(s, e).jobs, id, db) && id in Step(s, e).files
  {
    if (e.DeleteRow? || e.RemoveFile?) && HasPending(s, e.pruner) {
      RestSafe(s, e.pruner);
    }
  }

  ghost predicate HasBackup(s: State, db: Db) {
    exists id :: Newest(s.jobs, db, id) && id in s.files
  }

  /** Among finitely many successes there is a newest one. */
  lemma {:induction false} SomeNewest(jobs: Jobs, db: Db, id: JobId, ids: set<JobId>)
    requires IsSuccess(jobs, id, db) && ids <= jobs.Keys
    requires forall j :: IsSuccess(jobs, j, db) && jobs[j].createdAt > jobs[id].createdAt ==> j in ids
    ensures exists n :: Newest(jobs, db, n)
    decreases |ids|
  {
    if j :| IsSuccess(jobs, j, db) && jobs[j].createdAt > jobs[id].createdAt {
      SomeNewest(jobs, db, j, ids - {j});
    } else {
      assert Newest(jobs, db, id);
    }
  }

  lemma SuccessMeansBackup(s: State, db: Db, id: JobId)
    requires Inv(s) && IsSuccess(s.jobs, id, db)
    ensures HasBackup(s, db)
  {
    SomeNewest(s.jobs, db, id, s.jobs.Keys);
    var n :| Newest(s.jobs, db, n);
    NewestSurvives(s, Pass(0), db, n);
  }

  lemma SomeSurvives(s: State, e: Event, db: Db, id: JobId) returns (other: JobId)
    requires Inv(s) && Allowed(s, e) && Newest(s.jobs, db, id)
    ensures IsSuccess(Step(s, e).jobs, other, db)
  {
    NewestSurvives(s, e, db, id);
    if e == Demote(id) {
      other :| other != id && IsSuccess(s.jobs, other, db);
    } else {
      other := id;
    }
  }

  /** In every run under these assumptions, a database that has a successful backup after i events has one,
      with its file, after any later j events. */
  lemma {:induction false} BackupNeverLost(fallback: int, now: Time, evs: seq<Event>, i: nat, j: nat, db: Db, id: JobId)
    requires AllAllowed(Init(fallback, now), evs) && i <= j <= |evs|
    requires IsSuccess(Exec(Step, Init(fallback, now), evs[..i]).jobs, id, db)
    ensures HasBackup(Exec(Step, Init(fallback, now), evs[..j]), db)
    decreases j - i
  {
    var s0 := Init(fallback, now);
    RunKeeps(s0, evs, i);
    var s := Exec(Step, s0, evs[..i]);
    SuccessMeansBackup(s, db, id);
    if i < j {
      var n :| Newest(s.jobs, db, n) && n in s.files;
      var m := SomeSurvives(s, evs[i], db, n);
      assert evs[..i + 1] == evs[..i] + [evs[i]];
      ExecSnoc(Step, s0, evs[..i], evs[i]);
      BackupNeverLost(fallback, now, evs, i + 1, j, db, m);
    }
  }

  /** A demotion that is not: the second backup succeeds, a cleanup lists the first, the second is demoted, the
      cleanup deletes the first, and the database is left with none. */
  lemma DemotionLosesAll(fallback: int)
    ensures var evs := [Create(0, true, true), Complete(0, true), Pass(1)] + [Create(0, true, true), Complete(1, true)]
                       + [ReadCleanup(None, None, [1, 0], Falsy), Demote(1), DeleteRow(0)];
      forall id :: !IsSuccess(Exec(Step, Init(fallback, 0), evs).jobs, id, 0)
  {
    var s0 := Init(fallback, 0);
    var first := [Create(0, true, true), Complete(0, true), Pass(1)];
    var second := [Create(0, true, true), Complete(1, true)];
    var third := [ReadCleanup(None, None, [1, 0], Falsy), Demote(1), DeleteRow(0)];
    ExecThree(Step, s0, first[0], first[1], first[2]);
    FirstBackup(fallback);
    var s1 := FirstDone(fallback);
    ExecSnoc(Step, s1, [], second[0]);
    ExecSnoc(Step, s1, [second[0]], second[1]);
    assert [] + [second[0]] == [second[0]] && [second[0]] + [second[1]] == second;
    ExecConcat(Step, s0, first, second);
    var s2 := Step(Step(s1, second[0]), second[1]);
    ExecThree(Step, s2, third[0], third[1], third[2]);
    ExecConcat(Step, s0, first + second, third);
    SecondDemoted(s2);
  }

  function FirstDone(fallback: int): State {
    State(fallback, 1, map[0 := Job(0, Success, 0, true, true)], {0}, 1, [])
  }

  lemma FirstBackup(fallback: int)
    ensures Step(Step(Step(Init(fallback, 0), Create(0, true, true)), Complete(0, true)), Pass(1))
        == FirstDone(fallback)
  {
    var s1 := Step(Init(fallback, 0), Create(0, true, true));
    assert s1.jobs == map[0 := Job(0, Running, 0, true, true)];
  }

  lemma SecondDemoted(s: State)
    requires s == Step(Step(FirstDone(s.fallback), Create(0, true, true)), Complete(1, true))
    ensures var t := Step(Step(Step(s, ReadCleanup(None, None, [1, 0], Falsy)), Demote(1)), DeleteRow(0));
      forall id :: !IsSuccess(t.jobs, id, 0)
  {
    assert s.jobs == map[0 := Job(0, Success, 0, true, true), 1 := Job(0, Success, 1, true, true)] && s.pruners == [];
    FirstListed(s);
    FirstDeleted(Step(s, ReadCleanup(None, None, [1, 0], Falsy)));
  }

  lemma FirstListed(s: State)
    requires s.jobs == map[0 := Job(0, Success, 0, true, true), 1 := Job(0, Success, 1, true, true)] && s.pruners == []
    ensures Step(s, ReadCleanup(None, None, [1, 0], Falsy)) == s.(pruners := [Deleting([0], false)])
  {
    assert IsListing(s.jobs, None, None, [1, 0]);
    KeepOneOfTwo(s.jobs);
  }

  lemma FirstDeleted(s: State)
    requires s.jobs.Keys == {0, 1} && s.pruners == [Deleting([0], false)]
    ensures forall id :: !IsSuccess(Step(Step(s, Demote(1)), DeleteRow(0)).jobs, id, 0)
  {
    var t := Step(s, Demote(1));
    assert t.pruners == s.pruners && HasPending(t, 0) && t.jobs.Keys == {0, 1} && t.jobs[1].status != Success;
  }

  // ----- backups that finish within a day -----

  /** A backup that succeeds does so within a day of its creation, the shortest retention there is. */
  predicate Prompt(s: State, e: Event) {
    e.Complete? && e.ok && e.id in s.jobs && s.jobs[e.id].status != Success ==> s.now - s.jobs[e.id].createdAt <= DAY_MS
  }

  predicate KeepsOne(e: Event) {
    e.ReadCleanup? ==> AboveZero(NormalizedKeep(e.input))
  }

  ghost predicate AllPrompt(s: State, evs: seq<Event>) {
    forall k :: 0 <= k < |evs| ==>
      var t := Exec(Step, s, evs[..k]); KeepsOne(evs[k]) && Prompt(t, evs[k]) && DemotesSafely(t, evs[k])
  }

  /** Every retention run looks back at least a day from now. */
  predicate CutoffsOld(s: State) {
    && s.fallback >= 1
    && forall p :: 0 <= p < |s.pruners| && !s.pruners[p].Deleting? ==> s.pruners[p].cutoff <= s.now - DAY_MS
  }

  lemma StepCutoffs(s: State, e: Event)
    requires CutoffsOld(s)
    ensures CutoffsOld(Step(s, e))
  {
    if e.StartRetention? {
      var days := RetentionDays(e.retentionDays, s.fallback);
      assert days * DAY_MS >= DAY_MS;
    }
  }

  lemma {:induction false} RunCutoffs(fallback: int, now: Time, evs: seq<Event>)
    requires fallback >= 1
    ensures CutoffsOld(Exec(Step, Init(fallback, now), evs))
    decreases |evs|
  {
    if evs != [] {
      RunCutoffs(fallback, now, evs[..|evs| - 1]);
      StepCutoffs(Exec(Step, Init(fallback, now), evs[..|evs| - 1]), evs[|evs| - 1]);
    }
  }

  /** No retention run counts a backup as old that finishes within a day. */
  lemma PromptMeansAllowed(fallback: int, now: Time, evs: seq<Event>)
    requires fallback >= 1 && AllPrompt(Init(fallback, now), evs)
    ensures AllAllowed(Init(fallback, now), evs)
  {
    var s0 := Init(fallback, now);
    forall k | 0 <= k < |evs| ensures Allowed(Exec(Step, s0, evs[..k]), evs[k]) {
      var s := Exec(Step, s0, evs[..k]);
      RunCutoffs(fallback, now, evs[..k]);
      assert KeepsOne(evs[k]) && Prompt(s, evs[k]) && DemotesSafely(s, evs[k]);
    }
  }

  /** In every run in which cleanups keep at least one, backups finish within a day and demotions are safe, a
      database that has a
      successful backup after i events has one, with its file, after any later j events. */
  lemma PromptBackupsNeverLost(fallback: int, now: Time, evs: seq<Event>, i: nat, j: nat, db: Db, id: JobId)
    requires fallback >= 1 && AllPrompt(Init(fallback, now), evs) && i <= j <= |evs|
    requires IsSuccess(Exec(Step, Init(fallback, now), evs[..i]).jobs, id, db)
    ensures HasBackup(Exec(Step, Init(fallback, now), evs[..j]), db)
  {
    PromptMeansAllowed(fallback, now, evs);
    BackupNeverLost(fallback, now, evs, i, j, db, id);
  }

  // ----- a backup slower than the retention -----

  /** The kth of the events more, in a run that meets the assumptions, deletes a newest successful backup. */
  ghost predicate DeletesNewest(s: State, more: seq<Event>, k: nat, db: Db, id: JobId) {
    && k < |more| && AllAllowed(s, more)
    && Newest(Exec(Step, s, more[..k]).jobs, db, id) && id !in Exec(Step, s, more[..k + 1]).jobs
  }

  function DeleteRows(p: nat, n: nat): seq<Event> {
    seq(n, _ => DeleteRow(p))
  }

  function AfterRows(s: State, p: nat, pending: seq<JobId>, m: nat): State
    requires p < |s.pruners| && m <= |pending|
  {
    s.(jobs := s.jobs - (set i | 0 <= i < m :: pending[i]), pruners := s.pruners[p := Deleting(pending[m..], true)])
  }

  lemma RowAfterRows(s: State, p: nat, pending: seq<JobId>, m: nat)
    requires p < |s.pruners| && m < |pending| && pending[m] in s.jobs
    requires forall i :: 0 <= i < m ==> pending[i] != pending[m]
    ensures Step(AfterRows(s, p, pending, m), DeleteRow(p)) == AfterRows(s, p, pending, m + 1)
  {
    var t := AfterRows(s, p, pending, m);
    assert pending[m..][1..] == pending[m + 1..] && HasPending(t, p) && t.pruners[p].pending[0] == pending[m];
    assert (set i | 0 <= i < m + 1 :: pending[i]) == (set i | 0 <= i < m :: pending[i]) + {pending[m]};
  }

  lemma NoRows(s: State, p: nat, pending: seq<JobId>)
    requires p < |s.pruners| && s.pruners[p] == Deleting(pending, true)
    ensures AfterRows(s, p, pending, 0) == s
  {
    assert pending[0..] == pending && s.pruners[p := s.pruners[p]] == s.pruners;
  }

  /** Deleting row by row: after m rows, exactly the first m of the list are gone. */
  lemma {:induction false} Drained(s: State, p: nat, pending: seq<JobId>, m: nat)
    requires p < |s.pruners| && s.pruners[p] == Deleting(pending, true) && m <= |pending|
    requires forall i :: 0 <= i < |pending| ==> pending[i] in s.jobs
    requires forall i, j :: 0 <= i < j < |pending| ==> pending[i] != pending[j]
    ensures Exec(Step, s, DeleteRows(p, m)) == AfterRows(s, p, pending, m)
    decreases m
  {
    if m == 0 {
      NoRows(s, p, pending);
    } else {
      Drained(s, p, pending, m - 1);
      RowAfterRows(s, p, pending, m - 1);
      assert DeleteRows(p, m) == DeleteRows(p, m - 1) + [DeleteRow(p)];
      ExecSnoc(Step, s, DeleteRows(p, m - 1), DeleteRow(p));
    }
  }

  /** A retention run that reads its list and deletes the first m rows of it. */
  lemma ListedAndDrained(s: State, p: nat, list: seq<JobId>, m: nat)
    requires p < |s.pruners| && s.pruners[p].Chose? && m <= |list|
    requires IsOldList(s.jobs, s.pruners[p].db, s.pruners[p].cutoff, s.pruners[p].latest, list)
    ensures Exec(Step, s, [ListOld(p, list)] + DeleteRows(p, m)).jobs == s.jobs - (set i | 0 <= i < m :: list[i])
  {
    var s1 := Step(s, ListOld(p, list));
    assert forall i :: 0 <= i < |list| ==> list[i] in list;
    Drained(s1, p, list, m);
    ExecSnoc(Step, s, [], ListOld(p, list));
    assert [] + [ListOld(p, list)] == [ListOld(p, list)];
    ExecConcat(Step, s, [ListOld(p, list)], DeleteRows(p, m));
  }

  lemma DeletionsAllowed(s: State, evs: seq<Event>)
    requires forall k :: 0 <= k < |evs| ==> !evs[k].ReadCleanup? && !evs[k].Complete? && !evs[k].Demote?
    ensures AllAllowed(s, evs)
  {
  }

  lemma NewestOfRest(jobs: Jobs, gone: set<JobId>, db: Db, id: JobId)
    requires Newest(jobs, db, id) && id !in gone
    ensures Newest(jobs - gone, db, id)
  {
    assert forall j :: IsSuccess(jobs - gone, j, db) ==> IsSuccess(jobs, j, db) && (jobs - gone)[j] == jobs[j];
  }

  /** A retention run with nothing in between, over any answers of its two queries: exactly the successes of the
      database from before the cutoff go, other than the latest. */
  lemma RetentionAlone(s: State, db: Db, days: Option<int>, latest: Option<JobId>, list: seq<JobId>, id: JobId)
    requires IsLatest(s.jobs, db, latest)
    requires IsOldList(s.jobs, db, s.now - RetentionDays(days, s.fallback) * DAY_MS, latest, list)
    ensures var p := |s.pruners|;
      var evs := [] + [StartRetention(db, days)] + [ChooseLatest(p, latest)]
                 + ([ListOld(p, list)] + DeleteRows(p, |list|));
      var cutoff := s.now - RetentionDays(days, s.fallback) * DAY_MS;
      id in Exec(Step, s, evs).jobs <==> id in s.jobs && !GoesWith(s.jobs[id], id, db, cutoff, latest)
  {
    var p, cutoff := |s.pruners|, s.now - RetentionDays(days, s.fallback) * DAY_MS;
    ExecSnoc(Step, s, [], StartRetention(db, days));
    ExecSnoc(Step, s, [] + [StartRetention(db, days)], ChooseLatest(p, latest));
    var s2 := Exec(Step, s, [] + [StartRetention(db, days)] + [ChooseLatest(p, latest)]);
    assert s2 == s.(pruners := s.pruners + [Chose(db, cutoff, latest)]);
    ListedAndDrained(s2, p, list, |list|);
    ExecConcat(Step, s, [] + [StartRetention(db, days)] + [ChooseLatest(p, latest)],
               [ListOld(p, list)] + DeleteRows(p, |list|));
    assert id in (set i | 0 <= i < |list| :: list[i]) <==> id in list;
  }

  /** Whatever the order of its list, a retention run that catches a new newest backup deletes it. */
  lemma CaughtIsDeleted(s: State, id: JobId, p: nat, list: seq<JobId>, m: nat)
    requires p < |s.pruners| && id in s.jobs && Catches(s.pruners[p], s.jobs[id], id)
    requires Newest(s.jobs, s.jobs[id].db, id)
    requires IsOldList(s.jobs, s.pruners[p].db, s.pruners[p].cutoff, s.pruners[p].latest, list)
    requires m < |list| && list[m] == id
    ensures DeletesNewest(s, [ListOld(p, list)] + DeleteRows(p, m + 1), m + 1, s.jobs[id].db, id)
  {
    var first := [ListOld(p, list)] + DeleteRows(p, m);
    var gone := set i | 0 <= i < m :: list[i];
    assert [ListOld(p, list)] + DeleteRows(p, m + 1) == first + [DeleteRow(p)];
    ListedAndDrained(s, p, list, m);
    ListedAndDrained(s, p, list, m + 1);
    DeletionsAllowed(s, first + [DeleteRow(p)]);
    NewestOfRest(s.jobs, gone, s.jobs[id].db, id);
    LastDeletesNewest(s, first, DeleteRow(p), s.jobs[id].db, id);
  }

  lemma LastDeletesNewest(s: State, first: seq<Event>, last: Event, db: Db, id: JobId)
    requires AllAllowed(s, first + [last])
    requires Newest(Exec(Step, s, first).jobs, db, id) && id !in Exec(Step, s, first + [last]).jobs
    ensures DeletesNewest(s, first + [last], |first|, db, id)
  {
    assert (first + [last])[..|first|] == first && (first + [last])[..|first| + 1] == first + [last];
  }

  /** The query always has an answer. */
  lemma {:induction false} OldListExists(jobs: Jobs, db: Db, cutoff: Time, latest: Option<JobId>, ids: set<JobId>)
    returns (list: seq<JobId>)
    requires ids <= jobs.Keys
    ensures forall id :: id in list <==> id in ids && IsOld(jobs, id, db, cutoff, latest)
    ensures forall i, j :: 0 <= i < j < |list| ==> list[i] != list[j]
    decreases |ids|
  {
    list := [];
    if id :| id in ids {
      list := OldListExists(jobs, db, cutoff, latest, ids - {id});
      if IsOld(jobs, id, db, cutoff, latest) {
        list := list + [id];
      }
    }
  }

  lemma NoneDeleted(s: State, more: seq<Event>, k: nat, db: Db, id: JobId)
    requires Inv(s)
    ensures !DeletesNewest(s, more, k, db, id)
  {
    if k < |more| && AllAllowed(s, more) && Newest(Exec(Step, s, more[..k]).jobs, db, id) {
      RunKeeps(s, more, k);
      NewestSurvives(Exec(Step, s, more[..k]), more[k], db, id);
      assert more[..k + 1] == more[..k] + [more[k]];
      ExecSnoc(Step, s, more[..k], more[k]);
    }
  }

  /** The assumption on slow backups is exact: from any state the assumptions have led to, a backup that
      succeeds now opens the way to a newest backup being deleted precisely when it is newer than every
      success and a retention run between its reads already counts it as old. */
  lemma SlowSuccessExact(s: State, id: JobId)
    requires Inv(s) && id in s.jobs && s.jobs[id].status != Success
    ensures (exists more: seq<Event>, k: nat, db: Db, n: JobId ::
               DeletesNewest(Step(s, Complete(id, true)), more, k, db, n))
      <==> Caught(s, id) && !Superseded(s.jobs, id)
  {
    var t := Step(s, Complete(id, true));
    if Caught(s, id) && !Superseded(s.jobs, id) {
      var p :| 0 <= p < |s.pruners| && Catches(s.pruners[p], s.jobs[id], id);
      var db := s.jobs[id].db;
      assert Newest(t.jobs, db, id) by {
        assert forall j :: IsSuccess(t.jobs, j, db) && j != id ==> IsSuccess(s.jobs, j, db);
      }
      var list := OldListExists(t.jobs, db, s.pruners[p].cutoff, s.pruners[p].latest, t.jobs.Keys);
      assert IsOld(t.jobs, id, db, s.pruners[p].cutoff, s.pruners[p].latest);
      var m :| 0 <= m < |list| && list[m] == id;
      CaughtIsDeleted(t, id, p, list, m);
    } else {
      StepKeeps(s, Complete(id, true));
      forall more: seq<Event>, k: nat, db: Db, n: JobId ensures !DeletesNewest(t, more, k, db, n) {
        NoneDeleted(t, more, k, db, n);
      }
    }
  }

  /** A first backup, and two days later a second one, begun right after the first, that is still running. */
  const TWO_BACKUPS: seq<Event> :=
    [Create(0, true, true), Complete(0, true), Pass(1), Create(0, true, true), Pass(2 * DAY_MS)]

  const BOTH_DELETE: seq<Event> :=
    [StartRetention(0, Some(1)), ChooseLatest(0, Some(0)), Complete(1, true), ListOld(0, [1]),
     ReadCleanup(None, None, [1, 0], Falsy), DeleteRow(1), DeleteRow(0)]

  /** Between both deleters a backup that outlasts its retention can cost every one. It succeeds between the
      two reads of a retention run, the cleanup deletes the backup that run meant to spare, the run deletes the
      slow one, and the database is left with none. */
  lemma SlowBackupLosesAll(fallback: int)
    ensures IsSuccess(Exec(Step, Init(fallback, 0), TWO_BACKUPS).jobs, 0, 0)
    ensures Exec(Step, Init(fallback, 0), TWO_BACKUPS + BOTH_DELETE).jobs == map[]
  {
    ReachTwoBackups(fallback);
    BothDelete(Exec(Step, Init(fallback, 0), TWO_BACKUPS));
    ExecConcat(Step, Init(fallback, 0), TWO_BACKUPS, BOTH_DELETE);
  }

  function OneSlow(fallback: int): State {
    State(fallback, 1 + 2 * DAY_MS, map[0 := Job(0, Success, 0, true, true), 1 := Job(0, Running, 1, true, true)],
        {0}, 2, [])
  }

  lemma ReachTwoBackups(fallback: int)
    ensures Exec(Step, Init(fallback, 0), TWO_BACKUPS) == OneSlow(fallback)
  {
    var s0, e := Init(fallback, 0), TWO_BACKUPS;
    var s1 := s0.(jobs := map[0 := Job(0, Running, 0, true, true)], nextId := 1);
    var s2 := s1.(jobs := map[0 := Job(0, Success, 0, true, true)], files := {0});
    var s3 := s2.(now := 1);
    var s4 := s3.(jobs := s3.jobs[1 := Job(0, Running, 1, true, true)], nextId := 2);
    assert Step(s0, e[0]) == s1 && Step(s1, e[1]) == s2 && Step(s2, e[2]) == s3;
    assert Step(s3, e[3]) == s4 && Step(s4, e[4]) == OneSlow(fallback);
    ExecThree(Step, s0, e[0], e[1], e[2]);
    ExecSnoc(Step, s0, [e[0], e[1], e[2]], e[3]);
    ExecSnoc(Step, s0, [e[0], e[1], e[2]] + [e[3]], e[4]);
    assert e == [e[0], e[1], e[2]] + [e[3]] + [e[4]];
  }

  /** The retention run has its list, and the slow backup is on it. */
  function SlowListed(fallback: int): State {
    OneSlow(fallback).(jobs := map[0 := Job(0, Success, 0, true, true), 1 := Job(0, Success, 1, true, true)],
                       files := {0, 1}, pruners := [Deleting([1], true)])
  }

  lemma RetentionLists(s: State)
    requires s == OneSlow(s.fallback)
    ensures Step(Step(Step(Step(s, BOTH_DELETE[0]), BOTH_DELETE[1]), BOTH_DELETE[2]), BOTH_DELETE[3])
        == SlowListed(s.fallback)
  {
    var cutoff := 1 + 2 * DAY_MS - 1 * DAY_MS;
    var s1 := s.(pruners := [Started(0, cutoff)]);
    var s2 := s1.(pruners := [Chose(0, cutoff, Some(0))]);
    var s3 := s2.(jobs := SlowListed(s.fallback).jobs, files := {0, 1});
    assert Step(s, BOTH_DELETE[0]) == s1;
    assert Newest(s1.jobs, 0, 0);
    assert Step(s1, BOTH_DELETE[1]) == s2;
    assert Step(s2, BOTH_DELETE[2]) == s3;
    assert IsOldList(s3.jobs, 0, cutoff, Some(0), [1]);
  }

  lemma BothDelete(s: State)
    requires s == OneSlow(s.fallback)
    ensures Exec(Step, s, BOTH_DELETE).jobs == map[]
  {
    RetentionLists(s);
    var s4 := SlowListed(s.fallback);
    CleanupLists(s4);
    DeletesLast(s4.(pruners := [Deleting([1], true), Deleting([0], false)]));
    ExecSeven(s, BOTH_DELETE);
  }

  lemma CleanupLists(s: State)
    requires s == SlowListed(s.fallback)
    ensures Step(s, ReadCleanup(None, None, [1, 0], Falsy))
        == s.(pruners := [Deleting([1], true), Deleting([0], false)])
  {
    assert IsListing(s.jobs, None, None, [1, 0]);
    KeepOneOfTwo(s.jobs);
  }

  lemma DeletesLast(s: State)
    requires s.jobs.Keys == {0, 1} && s.pruners == [Deleting([1], true), Deleting([0], false)]
    ensures Step(Step(s, DeleteRow(1)), DeleteRow(0)).jobs == map[]
  {
    var t := Step(s, DeleteRow(1));
    assert [0][1..] == [];
    assert t.jobs.Keys == {1} && t.pruners == [Deleting([1], true), Deleting([], false)];
  }

  lemma KeepOneOfTwo(jobs: Jobs)
    requires 0 in jobs && 1 in jobs && jobs[0].db == jobs[1].db == 0 && jobs[0].managed
    ensures Candidates(jobs, [1, 0], Finite(1.0), map[]) == [0]
  {
    assert [1, 0][1..] == [0] && [0][1..] == [];
    assert Candidates(jobs, [0], Finite(1.0), map[0 := 1]) == [0] + Candidates(jobs, [], Finite(1.0), map[0 := 2]);
  }

  lemma ExecSeven(s: State, evs: seq<Event>)
    requires |evs| == 7
    ensures Exec(Step, s, evs)
         == Step(Step(Step(Step(Step(Step(Step(s, evs[0]), evs[1]), evs[2]), evs[3]), evs[4]), evs[5]), evs[6])
  {
    assert evs[..6][..5] == evs[..5] && evs[..5][..4] == evs[..4] && evs[..4][..3] == evs[..3]
        && evs[..3][..2] == evs[..2] && evs[..2][..1] == evs[..1] && evs[..1][..0] == [];
    assert Exec(Step, s, evs[..1]) == Step(s, evs[0]);
    assert Exec(Step, s, evs[..2]) == Step(Exec(Step, s, evs[..1]), evs[1]);
    assert Exec(Step, s, evs[..3]) == Step(Exec(Step, s, evs[..2]), evs[2]);
    assert Exec(Step, s, evs[..4]) == Step(Exec(Step, s, evs[..3]), evs[3]);
    assert Exec(Step, s, evs[..5]) == Step(Exec(Step, s, evs[..4]), evs[4]);
    assert Exec(Step, s, evs[..6]) == Step(Exec(Step, s, evs[..5]), evs[5]);
  }
}
