/** Reservations of a database: the conditional updates of restore-upload-policy.js, and acquiring, expiring and
    releasing in server.js, which read a row and later write it by id. */
module Reservation {
  import opened Runs

  type Db = nat
  type Token = nat
  type Time = int

  const PREPARATION := "Restore/migracao manual aguardando upload/execucao"
  const TTL_MS: int := 1000 * 60 * 60 * 6

  /** The operation columns of a database; running: operationStatus is RUNNING. */
  datatype Row = Row(running: bool, kind: Option<string>, token: Option<Token>, startedAt: Option<Time>,
                     expiresAt: Option<Time>, message: Option<string>)

  type Rows = map<Db, Row>

  const IDLE := Row(false, None, None, None, None, None)

  /** preparationWhere(token). */
  predicate Prepared(row: Row, token: Token) {
    row.token == Some(token) && row.running && row.kind == Some("RESTORE") && row.message == Some(PREPARATION)
  }

  /** The data of a claim; an undefined message leaves the column as it is. */
  function Claimed(row: Row, message: Option<string>, expiresAt: Time): Row {
    row.(message := if message.Some? then message else row.message, expiresAt := Some(expiresAt))
  }

  /** The row waits for the upload that was prepared under the token. */
  predicate AwaitsUpload(row: Row, token: Token) {
    && row.running && row.token == Some(token) && row.kind == Some("RESTORE")
    && row.message == Some("Restore/migracao manual aguardando upload/execucao")
  }

  // ----- restore-upload-policy.js -----

  class ManagedDatabases {
    var rows: Rows

    method FindFirst(token: Token) returns (found: Option<Db>)
      ensures found.Some? ==> found.value in rows && Prepared(rows[found.value], token)
      ensures found.None? ==> forall db :: db in rows ==> !Prepared(rows[db], token)
      ensures found.Some? ==> found.value in rows && AwaitsUpload(rows[found.value], token)
      ensures found.None? ==> forall db :: db in rows ==> !AwaitsUpload(rows[db], token)
    {
      var todo := rows.Keys;
      while todo != {}
        invariant todo <= rows.Keys
        invariant forall db :: db in rows && db !in todo ==> !Prepared(rows[db], token)
        decreases todo
      {
        var db :| db in todo;
        todo := todo - {db};
        if Prepared(rows[db], token) {
          return Some(db);
        }
      }
      found := None;
    }

    /** Without a token there is nothing to release. */
    method ReleasePreparedRestore(token: Option<Token>) returns (released: Option<Db>)
      modifies this
      ensures token.None? ==> released.None?
      ensures released.Some? ==> released.value in old(rows) && Prepared(old(rows)[released.value], token.value)
                                 && rows == old(rows)[released.value := IDLE]
      ensures released.Some? ==> AwaitsUpload(old(rows)[released.value], token.value)
                                 && rows == old(rows)[released.value := Row(false, None, None, None, None, None)]
      ensures token.Some? ==>
        (released.Some? <==> exists db :: db in old(rows) && AwaitsUpload(old(rows)[db], token.value))
      ensures released.None? ==> rows == old(rows)
                                 && (token.Some? ==> forall db :: db in rows ==> !Prepared(rows[db], token.value))
    {
      if token.None? {
        return None;
      }
      var found := FindFirst(token.value);
      if found.None? {
        return None;
      }
      var db := found.value;
      if db in rows && Prepared(rows[db], token.value) {
        rows := rows[db := IDLE];
        return Some(db);
      }
      released := None;
    }

    method ClaimPreparedRestore(db: Db, token: Token, message: Option<string>, expiresAt: Time) returns (claimed: bool)
      modifies this
      ensures claimed <==> db in old(rows) && Prepared(old(rows)[db], token)
      ensures claimed <==> db in old(rows) && AwaitsUpload(old(rows)[db], token)
      ensures claimed ==>
        rows == old(rows)[db := Row(true, Some("RESTORE"), Some(token), old(rows)[db].startedAt, Some(expiresAt),
                                    if message.Some? then message else old(rows)[db].message)]
      ensures rows == if claimed then old(rows)[db := Claimed(old(rows)[db], message, expiresAt)] else old(rows)
    {
      claimed := db in rows && Prepared(rows[db], token);
      if claimed {
        rows := rows[db := Claimed(rows[db], message, expiresAt)];
      }
    }
  }

  // ----- any number of claims and releases of one token -----

  /** found: the releases between their read and their conditional update; wins: the calls that succeeded. */
  datatype Race = Race(token: Token, rows: Rows, found: seq<Db>, wins: nat)

  /** Foreign is any other write to a row; tokens are random, so none prepares this token anew. */
  datatype Move =
    | Claim(db: Db, message: Option<string>, expiresAt: Time)
    | Find(db: Db)
    | Release(call: nat)
    | Foreign(db: Db, row: Row)

  function Raced(r: Race, m: Move): Race {
    match m
    case Claim(db, message, expiresAt) =>
      if db in r.rows && Prepared(r.rows[db], r.token)
      then r.(rows := r.rows[db := Claimed(r.rows[db], message, expiresAt)], wins := r.wins + 1) else r
    case Find(db) => if db in r.rows && Prepared(r.rows[db], r.token) then r.(found := r.found + [db]) else r
    case Release(call) =>
      if call < |r.found| && r.found[call] in r.rows && Prepared(r.rows[r.found[call]], r.token)
      then r.(rows := r.rows[r.found[call] := IDLE], wins := r.wins + 1) else r
    case Foreign(db, row) => if Prepared(row, r.token) then r else r.(rows := r.rows[db := row])
  }

  /** A claim writes a message of its own, not the one of the preparation. */
  predicate ClaimsMark(moves: seq<Move>) {
    forall m :: m in moves && m.Claim? ==> m.message.Some? && m.message.value != PREPARATION
  }

  ghost predicate RaceInv(r: Race) {
    && (forall a, b | a in r.rows && b in r.rows ::
          Prepared(r.rows[a], r.token) && Prepared(r.rows[b], r.token) ==> a == b)
    && r.wins <= 1
    && (r.wins == 1 ==> forall a :: a in r.rows ==> !Prepared(r.rows[a], r.token))
  }

  /** For any interleaving of any number of claims and prepared-releases of one token with each other and with
      foreign writes, every read and every update a step of its own: at most one call succeeds. */
  lemma {:induction false} OneWinner(r: Race, moves: seq<Move>)
    requires RaceInv(r) && ClaimsMark(moves)
    ensures RaceInv(Exec(Raced, r, moves)) && Exec(Raced, r, moves).token == r.token
    decreases |moves|
  {
    if moves != [] {
      var front, last := moves[..|moves| - 1], moves[|moves| - 1];
      assert last in moves && forall m :: m in front ==> m in moves;
      OneWinner(r, front);
    }
  }

  /** Once one has succeeded, no claim and no release of that token alters any row or succeeds again. */
  lemma WinnerStays(r: Race, moves: seq<Move>, m: Move)
    requires RaceInv(r) && ClaimsMark(moves) && Exec(Raced, r, moves).wins == 1 && !m.Foreign?
    ensures Raced(Exec(Raced, r, moves), m) == Exec(Raced, r, moves)
  {
    OneWinner(r, moves);
  }

  /** A call that runs alone succeeds if and only if the row waits for its upload under the token; a claim then
      takes it over until the time given, a release makes it idle, and no other row changes. Other writes put
      what they like in a row, but for a preparation under the token. */
  lemma AloneExactly(r: Race, db: Db, message: Option<string>, expiresAt: Time)
    ensures var t := Raced(r, Claim(db, message, expiresAt));
      if db in r.rows && AwaitsUpload(r.rows[db], r.token) then
        && t.wins == r.wins + 1
        && t.rows == r.rows[db := Row(true, Some("RESTORE"), Some(r.token), r.rows[db].startedAt, Some(expiresAt),
                                      if message.Some? then message else r.rows[db].message)]
      else t == r
    ensures var t := Exec(Raced, r, [] + [Find(db)] + [Release(|r.found|)]);
      if db in r.rows && AwaitsUpload(r.rows[db], r.token) then
        t.wins == r.wins + 1 && t.rows == r.rows[db := Row(false, None, None, None, None, None)]
      else t == r
    ensures forall row :: !AwaitsUpload(row, r.token) ==> Raced(r, Foreign(db, row)) == r.(rows := r.rows[db := row])
  {
    ExecSnoc(Raced, r, [], Find(db));
    ExecSnoc(Raced, r, [] + [Find(db)], Release(|r.found|));
  }

  /** As long as only claims and prepared-releases of the token write, either one has succeeded or the row still
      waits and no row has changed. */
  lemma {:induction false} WonExactly(r: Race, moves: seq<Move>, db: Db)
    requires RaceInv(r) && ClaimsMark(moves) && r.wins == 0 && (forall m :: m in moves ==> !m.Foreign?)
    requires db in r.rows && AwaitsUpload(r.rows[db], r.token)
    ensures var t := Exec(Raced, r, moves);
      && db in t.rows && (t.wins == 1 <==> !AwaitsUpload(t.rows[db], r.token))
      && (t.wins == 0 ==> t.rows == r.rows)
      && (forall other :: other in r.rows && other != db ==> other in t.rows && t.rows[other] == r.rows[other])
    decreases |moves|
  {
    OneWinner(r, moves);
    if moves != [] {
      var front, last := moves[..|moves| - 1], moves[|moves| - 1];
      assert last in moves && forall m :: m in front ==> m in moves;
      WonExactly(r, front, db);
      OneWinner(r, front);
      assert Prepared(r.rows[db], r.token);
    }
  }

  /** The message is what makes a claim exclusive: a second claim of the same preparation succeeds exactly when
      the first one's data left the message of the preparation in place. */
  lemma SecondClaimExactly(r: Race, db: Db, message: Option<string>, expiresAt: Time)
    requires db in r.rows && Prepared(r.rows[db], r.token)
    ensures Exec(Raced, r, [Claim(db, message, expiresAt)] + [Claim(db, message, expiresAt)]).wins == r.wins + 2
      <==> message == None || message == Some(PREPARATION)
  {
    var m := Claim(db, message, expiresAt);
    ExecSnoc(Raced, r, [], m);
    ExecSnoc(Raced, r, [m], m);
    assert [] + [m] == [m];
  }

  // ----- acquiring, expiring and releasing one row -----

  predicate Active(row: Row, now: Time) {
    row.running && (row.expiresAt.None? || row.expiresAt.value > now)
  }

  predicate Expired(row: Row, now: Time) {
    row.running && row.expiresAt.Some? && row.expiresAt.value <= now
  }

  /** A caller between the read of the row and the write by id that rests on it. Judging holds a row read
      earlier, such as one of the worker's snapshot, whose expiry it has still to judge. */
  datatype Pending =
    | Judging(seen: Row)
    | ToClear(seen: Row, thenAcquire: Option<Request>)
    | ToAcquire(seen: Row, request: Request)
    | ToRelease(seen: Row, handle: nat)
    | Over

  datatype Request = Request(kind: string, token: Token, message: string)

  /** What a successful acquire or claim returns; prepared: the reservation waits for its upload. closed: it
      was released, claimed or given up. */
  datatype Handle = Handle(token: Token, expiresAt: Time, prepared: bool, closed: bool)

  datatype State = State(now: Time, row: Row, pending: seq<Pending>, handles: seq<Handle>, used: set<Token>)

  datatype Event =
    | Pass(ms: nat)
    | ReadToAcquire(request: Request)
    | ReadToClear
    | Judge(caller: nat)
    | ReadToRelease(handle: nat)
    | Write(caller: nat)
    | GiveUp(caller: nat)
    | ClaimPrepared(token: Token, message: string)
    | ReleasePrepared(token: Token)

  function Init(now: Time): State {
    State(now, IDLE, [], [], {})
  }

  function Locked(r: Request, now: Time): Row {
    Row(true, Some(r.kind), Some(r.token), Some(now), Some(now + TTL_MS), Some(r.message))
  }

  predicate IsPreparation(r: Request) {
    r.kind == "RESTORE" && r.message == PREPARATION
  }

  /** Claiming or releasing a preparation ends the handle that prepared it. */
  function PreparationsClosed(handles: seq<Handle>, token: Token): seq<Handle> {
    seq(|handles|, i requires 0 <= i < |handles| =>
      if handles[i].prepared && handles[i].token == token then handles[i].(closed := true) else handles[i])
  }

  function Written(s: State, i: nat): State
    requires i < |s.pending|
  {
    match s.pending[i]
    case ToClear(_, thenAcquire) =>
      s.(row := IDLE, pending := s.pending[i := if thenAcquire.Some? then ToAcquire(IDLE, thenAcquire.value) else Over])
    case ToAcquire(_, r) =>
      s.(row := Locked(r, s.now), pending := s.pending[i := Over],
         handles := s.handles + [Handle(r.token, s.now + TTL_MS, IsPreparation(r), false)])
    case ToRelease(_, h) =>
      s.(row := IDLE, pending := s.pending[i := Over],
         handles := if h < |s.handles| then s.handles[h := s.handles[h].(closed := true)] else s.handles)
    case Judging(_) => s
    case Over => s
  }

  /** GiveUp: a running backup refuses the acquire, or the caller dies. Tokens are drawn afresh. */
  function Step(s: State, e: Event): State {
    match e
    case Pass(ms) => s.(now := s.now + ms)
    case ReadToAcquire(r) =>
      if r.token in s.used || Active(s.row, s.now) then s
      else s.(used := s.used + {r.token},
              pending := s.pending + [if Expired(s.row, s.now) then ToClear(s.row, Some(r)) else ToAcquire(s.row, r)])
    case ReadToClear => s.(pending := s.pending + [Judging(s.row)])
    case Judge(i) =>
      if i < |s.pending| && s.pending[i].Judging?
      then
        var seen := s.pending[i].seen;
        s.(pending := s.pending[i := if Expired(seen, s.now) then ToClear(seen, None) else Over])
      else s
    case ReadToRelease(h) =>
      if h < |s.handles| && !s.handles[h].closed && s.row.token == Some(s.handles[h].token)
      then s.(pending := s.pending + [ToRelease(s.row, h)])
      else if h < |s.handles| then s.(handles := s.handles[h := s.handles[h].(closed := true)])
      else s
    case Write(i) => if i < |s.pending| then Written(s, i) else s
    case GiveUp(i) => if i < |s.pending| then s.(pending := s.pending[i := Over]) else s
    case ClaimPrepared(token, message) =>
      if Prepared(s.row, token) && message != PREPARATION
      then s.(row := Claimed(s.row, Some(message), s.now + TTL_MS),
              handles := PreparationsClosed(s.handles, token) + [Handle(token, s.now + TTL_MS, false, false)])
      else s
    case ReleasePrepared(token) =>
      if Prepared(s.row, token) then s.(row := IDLE, handles := PreparationsClosed(s.handles, token)) else s
  }

  // ----- the same with nothing in between -----

  predicate Carries(row: Row, kind: string, token: Token) {
    row.token == Some(token) && row.kind == Some(kind)
  }

  class DatabaseRow {
    var row: Row

    method ClearExpiredDatabaseOperation(now: Time)
      modifies this
      ensures row == if Expired(old(row), now) then IDLE else old(row)
      ensures row == if old(row).running && old(row).expiresAt.Some? && old(row).expiresAt.value <= now
                     then Row(false, None, None, None, None, None) else old(row)
    {
      if row.expiresAt.None? || !row.running {
        return;
      }
      if row.expiresAt.value > now {
        return;
      }
      row := IDLE;
    }

    /** existing is the token of a reservation to be taken over: a preparation is claimed, one of another kind
        refreshed. backupRunning: a backup of the database runs. */
    method AcquireDatabaseOperationLock(r: Request, existing: Option<Token>, backupRunning: bool, now: Time)
      returns (handle: Option<Handle>)
      modifies this
      ensures handle.Some? <==>
        if Active(old(row), now) then
          existing.Some?
          && if r.kind == "RESTORE" then Prepared(old(row), existing.value)
             else Carries(old(row), r.kind, existing.value)
        else !backupRunning
      ensures handle.Some? ==> Active(row, now) && row.token == Some(handle.value.token)
                               && row.expiresAt == Some(handle.value.expiresAt) == Some(now + TTL_MS)
      ensures handle.Some? && Active(old(row), now) ==>
        row == Claimed(old(row), Some(r.message), now + TTL_MS) && !handle.value.prepared
      ensures handle.Some? && !Active(old(row), now) ==> row == Locked(r, now) && handle.value.token == r.token
      ensures handle.None? ==> row == if Expired(old(row), now) then IDLE else old(row)
      ensures handle.Some? <==>
        if old(row).running && (old(row).expiresAt.None? || old(row).expiresAt.value > now) then
          existing.Some?
          && if r.kind == "RESTORE" then AwaitsUpload(old(row), existing.value)
             else old(row).token == existing && old(row).kind == Some(r.kind)
        else !backupRunning
      ensures handle.Some? ==>
        var kept := old(row).running && (old(row).expiresAt.None? || old(row).expiresAt.value > now);
        row == Row(true, Some(r.kind), if kept then existing else Some(r.token),
                   if kept then old(row).startedAt else Some(now), Some(now + 6 * 60 * 60 * 1000), Some(r.message))
    {
      ClearExpiredDatabaseOperation(now);
      if Active(row, now) {
        if existing.Some? && row.token == existing && row.kind == Some(r.kind) {
          if r.kind == "RESTORE" {
            if !Prepared(row, existing.value) {
              return None;
            }
            row := Claimed(row, Some(r.message), now + TTL_MS);
            return Some(Handle(existing.value, now + TTL_MS, false, false));
          }
          row := row.(message := Some(r.message), expiresAt := Some(now + TTL_MS));
          return Some(Handle(existing.value, now + TTL_MS, false, false));
        }
        return None;
      }
      if backupRunning {
        return None;
      }
      row := Locked(r, now);
      handle := Some(Handle(r.token, now + TTL_MS, IsPreparation(r), false));
    }

    method Release(token: Token)
      modifies this
      ensures row == if old(row).token == Some(token) then IDLE else old(row)
      ensures old(row).token == Some(token) ==> row == Row(false, None, None, None, None, None)
    {
      if row.token == Some(token) {
        row := IDLE;
      }
    }
  }

  /** The events of an acquire that runs alone: its read, and one write or, if it clears first, two. */
  function AcquireEvents(s: State, r: Request): seq<Event> {
    var write := Write(|s.pending|);
    if Expired(s.row, s.now) then [ReadToAcquire(r), write, write] else [ReadToAcquire(r), write]
  }

  function Acquired(s: State, r: Request): State {
    s.(row := Locked(r, s.now), pending := s.pending + [Over], used := s.used + {r.token},
       handles := s.handles + [Handle(r.token, s.now + TTL_MS, IsPreparation(r), false)])
  }

  /** An acquire taken as one step is a run of the machine, each of whose writes finds the row as it was read. */
  lemma AcquireAtOnce(s: State, r: Request)
    requires r.token !in s.used && !Active(s.row, s.now)
    ensures Exec(Step, s, AcquireEvents(s, r)) == Acquired(s, r)
    ensures Undisturbed(s, AcquireEvents(s, r))
  {
    var read, write, i := ReadToAcquire(r), Write(|s.pending|), |s.pending|;
    var s1 := Step(s, read);
    ExecSnoc(Step, s, [], read);
    ExecSnoc(Step, s, [read], write);
    assert [] + [read] == [read] && [read] + [write] == [read, write] && Exec(Step, s, [read]) == s1;
    assert Steady(s1, i);
    if Expired(s.row, s.now) {
      var s2 := s.(row := IDLE, used := s.used + {r.token}, pending := s.pending + [ToAcquire(IDLE, r)]);
      assert Step(s1, write) == s2;
      assert Step(s2, write) == Acquired(s, r);
      ExecSnoc(Step, s, [read, write], write);
      assert [read, write] + [write] == [read, write, write];
      UndisturbedByTwo(s, read, write, [read, write, write]);
    } else {
      assert Step(s1, write) == Acquired(s, r);
      UndisturbedByTwo(s, read, write, [read, write]);
    }
  }

  lemma UndisturbedByTwo(s: State, read: Event, write: Event, evs: seq<Event>)
    requires !read.Write? && write.Write? && (evs == [read, write] || evs == [read, write, write])
    requires Steady(Exec(Step, s, [read]), write.caller)
    requires |evs| == 3 ==> Steady(Exec(Step, s, [read, write]), write.caller)
    ensures Undisturbed(s, evs)
  {
    assert evs[..1] == [read] && evs[..2] == [read, write];
  }

  /** An acquire gets past its read if and only if the row is not running or past its expiry; it then writes the
      row at once or, past the expiry, after clearing it. */
  lemma AdmittedExactly(s: State, r: Request)
    requires r.token !in s.used
    ensures var t := Step(s, ReadToAcquire(r));
      if s.row.running && (s.row.expiresAt.None? || s.row.expiresAt.value > s.now) then t == s
      else t == s.(used := s.used + {r.token},
                   pending := s.pending + [if s.row.running then ToClear(s.row, Some(r)) else ToAcquire(s.row, r)])
  {
  }

  /** A release that runs alone makes the row idle if it still carries the handle's token, and ends the handle. */
  lemma ReleaseAtOnce(s: State, h: nat)
    requires h < |s.handles| && !s.handles[h].closed
    ensures var evs := [] + [ReadToRelease(h)] + [Write(|s.pending|)]; var t := Exec(Step, s, evs);
      && t.handles == s.handles[h := s.handles[h].(closed := true)]
      && t.row == if s.row.token == Some(s.handles[h].token) then Row(false, None, None, None, None, None) else s.row
  {
    ExecSnoc(Step, s, [], ReadToRelease(h));
    ExecSnoc(Step, s, [] + [ReadToRelease(h)], Write(|s.pending|));
  }

  /** A caller that gives up, refused by a running backup or dead, writes nothing later. */
  lemma GivenUpExactly(s: State, i: nat)
    requires i < |s.pending|
    ensures Step(Step(s, GiveUp(i)), Write(i)) == s.(pending := s.pending[i := Over])
  {
    assert Step(s, GiveUp(i)).pending[i] == Over;
  }

  /** A row that was read is cleared later if and only if it was running and its expiry has come by then. */
  lemma JudgedExactly(s: State, i: nat)
    requires i < |s.pending| && s.pending[i].Judging?
    ensures var seen := s.pending[i].seen;
      Step(s, Judge(i)).pending
      == s.pending[i := if seen.running && seen.expiresAt.Some? && seen.expiresAt.value <= s.now
                        then ToClear(seen, None) else Over]
  {
  }

  /** The conditional updates of the other module: a claim takes a preparation over for six hours, and either way
      the handle that prepared it ends. */
  lemma ConditionalExactly(s: State, token: Token, message: string)
    ensures var t := Step(s, ClaimPrepared(token, message));
      if AwaitsUpload(s.row, token) && message != "Restore/migracao manual aguardando upload/execucao" then
        && t.row == Row(true, Some("RESTORE"), Some(token), s.row.startedAt, Some(s.now + 6 * 60 * 60 * 1000),
                        Some(message))
        && |t.handles| == |s.handles| + 1
        && t.handles[|s.handles|] == Handle(token, s.now + 6 * 60 * 60 * 1000, false, false)
        && forall h :: 0 <= h < |s.handles| ==> t.handles[h] == s.handles[h].(closed :=
             s.handles[h].closed || (s.handles[h].prepared && s.handles[h].token == token))
      else t == s
    ensures var t := Step(s, ReleasePrepared(token));
      if AwaitsUpload(s.row, token) then
        && t.row == Row(false, None, None, None, None, None) && |t.handles| == |s.handles|
        && forall h :: 0 <= h < |s.handles| ==> t.handles[h] == s.handles[h].(closed :=
             s.handles[h].closed || (s.handles[h].prepared && s.handles[h].token == token))
      else t == s
  {
  }

  /** A handle whose holder may still act on the database. */
  predicate Live(s: State, h: int) {
    0 <= h < |s.handles| && !s.handles[h].closed && s.now < s.handles[h].expiresAt
  }

  /** The row carries this handle's reservation. */
  predicate Holds(s: State, h: Handle) {
    && s.row.running && s.row.token == Some(h.token)
    && s.row.expiresAt.Some? && s.row.expiresAt.value >= h.expiresAt
    && (h.prepared <==> Prepared(s.row, h.token))
  }

  /** At most one handle is live, and the row is its reservation. */
  ghost predicate Exclusive(s: State) {
    && (forall a, b :: Live(s, a) && Live(s, b) ==> a == b)
    && (forall h :: Live(s, h) ==> Holds(s, s.handles[h]))
  }

  function RequestOf(p: Pending): Option<Request> {
    match p
    case ToClear(_, thenAcquire) => thenAcquire
    case ToAcquire(_, r) => Some(r)
    case _ => None
  }

  predicate Requests(s: State, i: int, token: Token) {
    0 <= i < |s.pending| && RequestOf(s.pending[i]).Some? && RequestOf(s.pending[i]).value.token == token
  }

  /** The token a pending acquire will write is used nowhere else yet. */
  ghost predicate RequestsFresh(s: State) {
    && (forall i, token :: Requests(s, i, token) ==> token in s.used && s.row.token != Some(token))
    && (forall i, h :: 0 <= h < |s.handles| ==> !Requests(s, i, s.handles[h].token))
    && (forall i, j, token :: Requests(s, i, token) && Requests(s, j, token) ==> i == j)
  }

  /** A token has at most one handle that prepared it and one that works under it, and the row is a preparation
      only while the first is open and the second does not exist. */
  ghost predicate HandlesTidy(s: State) {
    && (s.row.token.Some? ==> s.row.token.value in s.used)
    && (forall h :: 0 <= h < |s.handles| ==> s.handles[h].token in s.used)
    && (forall a, b :: 0 <= a < b < |s.handles| && s.handles[a].token == s.handles[b].token ==>
          s.handles[a].prepared != s.handles[b].prepared)
    && (forall h :: 0 <= h < |s.handles| && !s.handles[h].prepared ==> !Prepared(s.row, s.handles[h].token))
    && (forall h | 0 <= h < |s.handles| && !s.handles[h].closed && s.handles[h].prepared ::
          s.row.token == Some(s.handles[h].token) ==> Prepared(s.row, s.handles[h].token))
  }

  predicate PendingTidy(s: State, p: Pending) {
    match p
    case ToClear(seen, _) => Expired(seen, s.now)
    case ToAcquire(seen, _) => !Active(seen, s.now)
    case ToRelease(seen, h) =>
      h < |s.handles| && seen.token == Some(s.handles[h].token)
      && (s.handles[h].prepared <==> Prepared(seen, s.handles[h].token))
    case Judging(_) => true
    case Over => true
  }

  ghost predicate Tidy(s: State) {
    && RequestsFresh(s) && HandlesTidy(s)
    && forall i :: 0 <= i < |s.pending| ==> PendingTidy(s, s.pending[i])
  }

  /** A write by id finds the row as its read left it. Taking each read and write as one step is a special case. */
  ghost predicate Undisturbed(s: State, evs: seq<Event>) {
    forall k :: 0 <= k < |evs| && evs[k].Write? ==> Steady(Exec(Step, s, evs[..k]), evs[k].caller)
  }

  /** The caller is about to write. */
  predicate IsWriter(p: Pending) {
    !p.Judging? && !p.Over?
  }

  predicate Steady(s: State, caller: nat) {
    caller < |s.pending| && IsWriter(s.pending[caller]) ==> s.pending[caller].seen == s.row
  }

  lemma WriteTidy(s: State, i: nat)
    requires Tidy(s) && i < |s.pending|
    ensures Tidy(Written(s, i))
  {
    var t := Written(s, i);
    assert PendingTidy(s, s.pending[i]);
    forall j, token | Requests(t, j, token) ensures Requests(s, j, token) {}
    if s.pending[i].ToAcquire? {
      assert Requests(s, i, s.pending[i].request.token);
      assert !Requests(t, i, s.pending[i].request.token);
    }
    forall j | 0 <= j < |t.pending| ensures PendingTidy(t, t.pending[j]) {
      if j != i {
        assert PendingTidy(s, s.pending[j]);
      }
    }
  }

  lemma ClaimTidy(s: State, token: Token, message: string)
    requires Tidy(s)
    ensures Tidy(Step(s, ClaimPrepared(token, message)))
  {
    var t := Step(s, ClaimPrepared(token, message));
    forall j, tok | Requests(t, j, tok) ensures Requests(s, j, tok) {}
    forall j | 0 <= j < |t.pending| ensures PendingTidy(t, t.pending[j]) {
      assert PendingTidy(s, s.pending[j]);
    }
  }

  lemma ReleasePreparedTidy(s: State, token: Token)
    requires Tidy(s)
    ensures Tidy(Step(s, ReleasePrepared(token)))
  {
    var t := Step(s, ReleasePrepared(token));
    forall j, tok | Requests(t, j, tok) ensures Requests(s, j, tok) {}
    forall j | 0 <= j < |t.pending| ensures PendingTidy(t, t.pending[j]) {
      assert PendingTidy(s, s.pending[j]);
    }
  }

  lemma ReadTidy(s: State, e: Event)
    requires Tidy(s) && (e.ReadToAcquire? || e.ReadToClear? || e.ReadToRelease?)
    ensures Tidy(Step(s, e))
  {
    var t := Step(s, e);
    forall j, tok | Requests(t, j, tok)
      ensures Requests(s, j, tok) || (e.ReadToAcquire? && j == |s.pending| && tok == e.request.token)
    {}
    forall j | 0 <= j < |t.pending| ensures PendingTidy(t, t.pending[j]) {
      if j < |s.pending| {
        assert PendingTidy(s, s.pending[j]);
      }
    }
  }

  lemma JudgeTidy(s: State, i: nat)
    requires Tidy(s)
    ensures Tidy(Step(s, Judge(i)))
  {
    var t := Step(s, Judge(i));
    forall j, tok | Requests(t, j, tok) ensures Requests(s, j, tok) {}
    forall j | 0 <= j < |t.pending| ensures PendingTidy(t, t.pending[j]) {
      assert PendingTidy(s, s.pending[j]);
    }
  }

  lemma StepTidy(s: State, e: Event)
    requires Tidy(s)
    ensures Tidy(Step(s, e))
  {
    var t := Step(s, e);
    match e
    case Write(i) => if i < |s.pending| { WriteTidy(s, i); }
    case ClaimPrepared(token, message) => ClaimTidy(s, token, message);
    case ReleasePrepared(token) => ReleasePreparedTidy(s, token);
    case Pass(_) =>
      forall j, tok | Requests(t, j, tok) ensures Requests(s, j, tok) {}
      forall j | 0 <= j < |t.pending| ensures PendingTidy(t, t.pending[j]) {
        assert PendingTidy(s, s.pending[j]);
      }
    case GiveUp(i) =>
      forall j, tok | Requests(t, j, tok) ensures Requests(s, j, tok) {}
    case Judge(i) => JudgeTidy(s, i);
    case _ => ReadTidy(s, e);
  }

  /** A write by id keeps exclusiveness exactly when no other live handle stands on the row: one of its own
      for a release, none at all for a clear or an acquire. */
  lemma WriteExact(s: State, i: nat)
    requires Exclusive(s) && Tidy(s) && i < |s.pending| && IsWriter(s.pending[i])
    ensures Exclusive(Step(s, Write(i))) <==>
      forall h :: Live(s, h) ==> s.pending[i].ToRelease? && h == s.pending[i].handle
  {
    var t := Step(s, Write(i));
    if h :| Live(s, h) && !(s.pending[i].ToRelease? && h == s.pending[i].handle) {
      assert Live(t, h) && t.handles[h] == s.handles[h];
      if s.pending[i].ToAcquire? {
        assert Live(t, |s.handles|) && h != |s.handles|;
      } else {
        assert !Holds(t, t.handles[h]);
      }
    } else {
      forall a | Live(t, a) ensures s.pending[i].ToAcquire? && a == |s.handles| {
        if a < |s.handles| {
          assert Live(s, a);
        }
      }
    }
  }

  /** Where the row is still as it was read, it stands on no live handle but the writer's own. */
  lemma SteadyWriteKeeps(s: State, i: nat)
    requires Exclusive(s) && Tidy(s) && Steady(s, i)
    ensures Exclusive(Step(s, Write(i)))
  {
    if i < |s.pending| && IsWriter(s.pending[i]) {
      forall h | Live(s, h) ensures s.pending[i].ToRelease? && h == s.pending[i].handle {
        assert Holds(s, s.handles[h]);
        assert Active(s.row, s.now);
      }
      WriteExact(s, i);
    }
  }

  /** The only handle that can be live on a preparation is the one that prepared it, and it is then closed. */
  lemma PreparationsEnd(s: State, token: Token, h: int)
    requires Exclusive(s) && Tidy(s) && Prepared(s.row, token) && 0 <= h < |s.handles|
    ensures Live(s, h) ==> PreparationsClosed(s.handles, token)[h].closed
    ensures !Live(s, h) ==> PreparationsClosed(s.handles, token)[h].closed || s.now >= s.handles[h].expiresAt
  {
    if Live(s, h) {
      assert Holds(s, s.handles[h]);
    }
  }

  lemma OtherExclusive(s: State, e: Event)
    requires Exclusive(s) && Tidy(s) && !e.Write?
    ensures Exclusive(Step(s, e))
  {
    var t := Step(s, e);
    if (e.ClaimPrepared? || e.ReleasePrepared?) && t != s {
      var n := |s.handles|;
      forall h | 0 <= h < n ensures !Live(t, h) {
        PreparationsEnd(s, e.token, h);
      }
      if e.ClaimPrepared? {
        assert Holds(t, t.handles[n]);
      }
    } else {
      forall h | Live(t, h) ensures Live(s, h) && t.handles[h] == s.handles[h] {}
    }
  }

  lemma {:induction false} RunExclusive(s: State, evs: seq<Event>)
    requires Exclusive(s) && Tidy(s) && Undisturbed(s, evs)
    ensures Exclusive(Exec(Step, s, evs)) && Tidy(Exec(Step, s, evs))
    decreases |evs|
  {
    if evs != [] {
      var front, e := evs[..|evs| - 1], evs[|evs| - 1];
      forall k | 0 <= k < |front| && front[k].Write? ensures Steady(Exec(Step, s, front[..k]), front[k].caller) {
        assert front[..k] == evs[..k] && evs[k].Write?;
      }
      RunExclusive(s, front);
      var t := Exec(Step, s, front);
      StepTidy(t, e);
      if e.Write? {
        SteadyWriteKeeps(t, e.caller);
        assert Step(t, e) == if e.caller < |t.pending| then Written(t, e.caller) else t;
      } else {
        OtherExclusive(t, e);
      }
    }
  }

  /** In every run in which writes by id find the row as it was read, at most one handle is live and the row is
      its reservation, unexpired: no two tokens own the database at a time. */
  lemma OneOwner(now: Time, evs: seq<Event>)
    requires Undisturbed(Init(now), evs)
    ensures var s := Exec(Step, Init(now), evs);
      && (forall a, b :: Live(s, a) && Live(s, b) ==> a == b)
      && (forall h :: Live(s, h) ==> s.row.token == Some(s.handles[h].token) && Active(s.row, s.now))
  {
    RunExclusive(Init(now), evs);
    var s := Exec(Step, Init(now), evs);
    forall h | Live(s, h) ensures s.row.token == Some(s.handles[h].token) && Active(s.row, s.now) {
      assert Holds(s, s.handles[h]);
    }
  }

  /** A handle that lost its row to a new owner leaves the row and the new owner alone when it releases. */
  lemma LostHandleHarmless(now: Time, evs: seq<Event>, lost: nat, owner: nat)
    requires Undisturbed(Init(now), evs)
    requires lost < |Exec(Step, Init(now), evs).handles| && Live(Exec(Step, Init(now), evs), owner)
    requires Exec(Step, Init(now), evs).handles[lost].token != Exec(Step, Init(now), evs).handles[owner].token
    ensures var s := Exec(Step, Init(now), evs); var t := Step(s, ReadToRelease(lost));
      t.row == s.row && t.pending == s.pending && Live(t, owner)
  {
    RunExclusive(Init(now), evs);
    var s := Exec(Step, Init(now), evs);
    assert Holds(s, s.handles[owner]);
  }

  /** Without that, the worker's clearing of expired reservations breaks it: it judges a row it read at the start
      of its pass, when the reservation in it was unexpired. Hours later that one is released, a new owner has
      taken the row, the worker clears it by id, and a third caller is let in beside the owner. */
  lemma StaleClearAdmitsTwo(now: Time, a: Request, b: Request, c: Request)
    requires a.token != b.token && b.token != c.token && a.token != c.token
    ensures var evs := [ReadToAcquire(a), Write(0), ReadToClear, ReadToRelease(0), Write(2)]
                       + [Pass(TTL_MS), ReadToAcquire(b), Write(3)]
                       + ([Judge(1), Write(1), ReadToAcquire(c)] + [Write(4)]);
      var s := Exec(Step, Init(now), evs);
      Live(s, 1) && Live(s, 2) && s.handles[1].token == b.token && s.handles[2].token == c.token
  {
    var s0 := Init(now);
    var e1 := [ReadToAcquire(a), Write(0), ReadToClear, ReadToRelease(0), Write(2)];
    var e2 := [Pass(TTL_MS), ReadToAcquire(b), Write(3)];
    var e3 := [Judge(1), Write(1), ReadToAcquire(c)];
    ExecFive(s0, e1);
    FirstReleased(now, a);
    var s1 := Released(now, a);
    ExecThree(Step, s1, e2[0], e2[1], e2[2]);
    SecondLocked(now, a, b);
    var s2 := Replaced(now, a, b);
    ExecThree(Step, s2, e3[0], e3[1], e3[2]);
    ExecSnoc(Step, s2, e3, Write(4));
    ThirdAdmitted(now, a, b, c);
    ExecConcat(Step, s0, e1, e2);
    ExecConcat(Step, s0, e1 + e2, e3 + [Write(4)]);
  }

  /** The first reservation was read by the worker and then released. */
  function Released(now: Time, a: Request): State {
    State(now, IDLE, [Over, Judging(Locked(a, now)), Over],
          [Handle(a.token, now + TTL_MS, IsPreparation(a), true)], {a.token})
  }

  lemma FirstReleased(now: Time, a: Request)
    ensures Step(Step(Step(Step(Step(Init(now), ReadToAcquire(a)), Write(0)), ReadToClear), ReadToRelease(0)), Write(2))
         == Released(now, a)
  {
    var s0 := Init(now);
    var handle := Handle(a.token, now + TTL_MS, IsPreparation(a), false);
    var s2 := State(now, Locked(a, now), [Over], [handle], {a.token});
    assert Step(s0, ReadToAcquire(a)).pending == [ToAcquire(IDLE, a)];
    assert Step(Step(s0, ReadToAcquire(a)), Write(0)) == s2;
    var s4 := s2.(pending := [Over, Judging(s2.row), ToRelease(s2.row, 0)]);
    assert Step(Step(s2, ReadToClear), ReadToRelease(0)) == s4;
    assert Step(s4, Write(2)) == Released(now, a);
  }

  /** A new owner has the row when the worker comes to judge the old one. */
  function Replaced(now: Time, a: Request, b: Request): State {
    var later := now + TTL_MS;
    var before := Released(now, a);
    State(later, Locked(b, later), before.pending + [Over],
          before.handles + [Handle(b.token, later + TTL_MS, IsPreparation(b), false)], {a.token, b.token})
  }

  lemma SecondLocked(now: Time, a: Request, b: Request)
    requires a.token != b.token
    ensures Step(Step(Step(Released(now, a), Pass(TTL_MS)), ReadToAcquire(b)), Write(3)) == Replaced(now, a, b)
  {
    var s := Step(Released(now, a), Pass(TTL_MS));
    assert Step(s, ReadToAcquire(b)) == s.(pending := s.pending + [ToAcquire(IDLE, b)], used := {a.token, b.token});
  }

  lemma ThirdAdmitted(now: Time, a: Request, b: Request, c: Request)
    requires a.token != b.token && b.token != c.token && a.token != c.token
    ensures var s := Step(Step(Step(Step(Replaced(now, a, b), Judge(1)), Write(1)), ReadToAcquire(c)), Write(4));
      Live(s, 1) && Live(s, 2) && s.handles[1].token == b.token && s.handles[2].token == c.token
  {
    var s := Replaced(now, a, b);
    var s2 := s.(row := IDLE, pending := [Over, Over, Over, Over]);
    assert Step(s, Judge(1)).pending == [Over, ToClear(Locked(a, now), None), Over, Over];
    assert Step(Step(s, Judge(1)), Write(1)) == s2;
    assert Step(s2, ReadToAcquire(c)).pending == [Over, Over, Over, Over, ToAcquire(IDLE, c)];
  }

  lemma ExecFive(s: State, evs: seq<Event>)
    requires |evs| == 5
    ensures Exec(Step, s, evs) == Step(Step(Step(Step(Step(s, evs[0]), evs[1]), evs[2]), evs[3]), evs[4])
  {
    ExecThree(Step, s, evs[0], evs[1], evs[2]);
    ExecSnoc(Step, s, [evs[0], evs[1], evs[2]], evs[3]);
    ExecSnoc(Step, s, [evs[0], evs[1], evs[2]] + [evs[3]], evs[4]);
    assert evs == [evs[0], evs[1], evs[2]] + [evs[3]] + [evs[4]];
  }
}
