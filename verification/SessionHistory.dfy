/** The worker's session history (worker.js collectFirebirdSessionHistory): observed Firebird sessions are
    upserted one by one, the others of that database are closed, and rows not seen for 30 days are removed. */
module SessionHistory {
  import opened Runs

  type Db = nat
  type Time = int

  const RETENTION_MS: int := 30 * 24 * 60 * 60 * 1000

  /** What the session key is a hash of; the hash is taken to be injective. */
  datatype SessionKey = SessionKey(db: Db, node: string, attachment: string, connectedAt: string,
                                     address: string, pid: string)

  /** details stands for the columns an upsert rewrites as they are (user, process, state and so on). */
  datatype Row = Row(db: Db, details: string, firstSeenAt: Time, lastSeenAt: Time, disconnectedAt: Option<Time>)

  datatype Session = Session(attachment: string, connectedAt: string, address: string, pid: string, details: string)

  type Rows = map<SessionKey, Row>

  // ----- the writes -----

  function KeyOf(db: Db, node: string, s: Session): SessionKey {
    SessionKey(db, node, s.attachment, s.connectedAt, s.address, s.pid)
  }

  function Upserted(rows: Rows, db: Db, node: string, s: Session, now: Time): Rows {
    var key := KeyOf(db, node, s);
    if key in rows then rows[key := rows[key].(details := s.details, lastSeenAt := now, disconnectedAt := None)]
    else rows[key := Row(db, s.details, now, now, None)]
  }

  function UpsertedAll(rows: Rows, db: Db, node: string, sessions: seq<Session>, now: Time): Rows
    decreases |sessions|
  {
    if sessions == [] then rows
    else
      Upserted(UpsertedAll(rows, db, node, sessions[..|sessions| - 1], now), db, node, sessions[|sessions| - 1], now)
  }

  function Keys(db: Db, node: string, sessions: seq<Session>): set<SessionKey> {
    set s | s in sessions :: KeyOf(db, node, s)
  }

  predicate IsOpen(rows: Rows, key: SessionKey, db: Db) {
    key in rows && rows[key].db == db && rows[key].disconnectedAt.None?
  }

  function OthersClosed(rows: Rows, db: Db, seen: set<SessionKey>, now: Time): Rows {
    map key | key in rows ::
      if IsOpen(rows, key, db) && key !in seen then rows[key].(disconnectedAt := Some(now)) else rows[key]
  }

  function Retained(rows: Rows, now: Time): Rows {
    map key | key in rows && rows[key].lastSeenAt >= now - RETENTION_MS :: rows[key]
  }

  /** A collection whose first writes succeed and whose next one throws; it completes with two writes more
      than there are sessions. */
  function Written(rows: Rows, db: Db, node: string, sessions: seq<Session>, now: Time, writes: nat): Rows {
    if writes <= |sessions| then UpsertedAll(rows, db, node, sessions[..writes], now)
    else
      var closed := OthersClosed(UpsertedAll(rows, db, node, sessions, now), db, Keys(db, node, sessions), now);
      if writes == |sessions| + 1 then closed else Retained(closed, now)
  }

  // ----- the collector -----

  /** How far a collection gets before it writes: no database, an operation, a routine or an open breaker stops
      it ahead of the probe, the probe is deferred by the host or fails, or it answers. */
  datatype Probe = Skipped | Deferred | Failed | Observed(sessions: seq<Session>)

  class SessionCollector {
    const intervalMs: nat
    const node: string
    var lastSessionCollectionAt: Time
    var sessionCollectionRunning: bool
    var rows: Rows

    constructor (intervalMs: nat, node: string)
      ensures this.intervalMs == intervalMs && this.node == node && rows == map[] && lastSessionCollectionAt == 0
      ensures !sessionCollectionRunning
    {
      this.intervalMs, this.node := intervalMs, node;
      lastSessionCollectionAt, sessionCollectionRunning, rows := 0, false, map[];
    }

    /** The guards ahead of a collection, and its flag and time taken if it may begin. */
    method BeginCollection(serving: bool, startedAt: Time) returns (begun: bool)
      modifies this
      ensures begun <==>
        serving && !old(sessionCollectionRunning) && startedAt - old(lastSessionCollectionAt) >= intervalMs
      ensures sessionCollectionRunning == (old(sessionCollectionRunning) || begun)
      ensures lastSessionCollectionAt == if begun then startedAt else old(lastSessionCollectionAt)
      ensures rows == old(rows)
    {
      if !serving || sessionCollectionRunning {
        return false;
      }
      if startedAt - lastSessionCollectionAt < intervalMs {
        return false;
      }
      lastSessionCollectionAt := startedAt;
      sessionCollectionRunning := true;
      begun := true;
    }

    /** The rest of it, however it ends; now is the time read once the probe has answered. */
    method Collect(db: Db, probe: Probe, now: Time, writes: nat)
      modifies this
      ensures !sessionCollectionRunning && lastSessionCollectionAt == old(lastSessionCollectionAt)
      ensures rows == if probe.Observed? then Written(old(rows), db, node, probe.sessions, now, writes) else old(rows)
    {
      Reconcile(db, probe, now, writes);
      sessionCollectionRunning := false;
    }

    method Reconcile(db: Db, probe: Probe, now: Time, writes: nat)
      modifies this`rows
      ensures rows == if probe.Observed? then Written(old(rows), db, node, probe.sessions, now, writes) else old(rows)
    {
      if !probe.Observed? {
        return;
      }
      var sessions := probe.sessions;
      var sessionKeys := {};
      var i := 0;
      while i < |sessions|
        invariant 0 <= i <= |sessions| && i <= writes && sessions == probe.sessions
        invariant rows == UpsertedAll(old(rows), db, node, sessions[..i], now)
        invariant sessionKeys == Keys(db, node, sessions[..i])
      {
        if i == writes {
          return;
        }
        var key := KeyOf(db, node, sessions[i]);
        sessionKeys := sessionKeys + {key};
        if key in rows {
          rows := rows[key := rows[key].(details := sessions[i].details, lastSeenAt := now, disconnectedAt := None)];
        } else {
          rows := rows[key := Row(db, sessions[i].details, now, now, None)];
        }
        assert sessions[..i + 1][..i] == sessions[..i] && sessions[..i + 1] == sessions[..i] + [sessions[i]];
        i := i + 1;
      }
      assert sessions[..i] == sessions;
      if writes == |sessions| {
        return;
      }
      rows := OthersClosed(rows, db, sessionKeys, now);
      if writes > |sessions| + 1 {
        rows := Retained(rows, now);
      }
    }
  }

  // ----- every run of collections -----

  datatype State = State(node: string, now: Time, rows: Rows)

  datatype Event = Pass(ms: nat) | Collect(db: Db, probe: Probe, writes: nat)

  function Step(s: State, e: Event): State {
    match e
    case Pass(ms) => s.(now := s.now + ms)
    case Collect(db, probe, writes) =>
      if probe.Observed? then s.(rows := Written(s.rows, db, s.node, probe.sessions, s.now, writes)) else s
  }

  ghost predicate RowOk(key: SessionKey, row: Row, now: Time) {
    && row.db == key.db
    && row.firstSeenAt <= row.lastSeenAt <= now
    && (row.disconnectedAt.Some? ==> row.lastSeenAt <= row.disconnectedAt.value <= now)
  }

  ghost predicate RowsOk(rows: Rows, now: Time) {
    forall key :: key in rows ==> RowOk(key, rows[key], now)
  }

  lemma {:induction false} UpsertKeeps(rows: Rows, db: Db, node: string, sessions: seq<Session>, now: Time)
    requires RowsOk(rows, now)
    ensures RowsOk(UpsertedAll(rows, db, node, sessions, now), now)
    decreases |sessions|
  {
    if sessions != [] {
      UpsertKeeps(rows, db, node, sessions[..|sessions| - 1], now);
    }
  }

  /** An observed key ends up open and seen now; every other row is as it was. */
  lemma {:induction false} UpsertOpens(rows: Rows, db: Db, node: string, sessions: seq<Session>, now: Time,
      key: SessionKey)
    ensures var rows' := UpsertedAll(rows, db, node, sessions, now);
      if key in Keys(db, node, sessions)
      then key in rows' && rows'[key].disconnectedAt.None? && rows'[key].lastSeenAt == now
           && rows'[key].db == (if key in rows then rows[key].db else db)
           && rows'[key].firstSeenAt == (if key in rows then rows[key].firstSeenAt else now)
      else (key in rows' <==> key in rows) && (key in rows ==> rows'[key] == rows[key])
    decreases |sessions|
  {
    if sessions != [] {
      var front, last := sessions[..|sessions| - 1], sessions[|sessions| - 1];
      UpsertOpens(rows, db, node, front, now, key);
      assert sessions == front + [last];
      assert Keys(db, node, sessions) == Keys(db, node, front) + {KeyOf(db, node, last)};
    }
  }

  lemma WrittenKeeps(rows: Rows, db: Db, node: string, sessions: seq<Session>, now: Time, writes: nat)
    requires RowsOk(rows, now)
    ensures RowsOk(Written(rows, db, node, sessions, now, writes), now)
  {
    UpsertKeeps(rows, db, node, sessions, now);
    if writes <= |sessions| {
      UpsertKeeps(rows, db, node, sessions[..writes], now);
    }
  }

  /** Session i is the last observed under key. */
  ghost predicate LastUnder(sessions: seq<Session>, db: Db, node: string, key: SessionKey, i: int) {
    && 0 <= i < |sessions| && HasKey(sessions[i], db, node, key)
    && forall j :: i < j < |sessions| ==> !HasKey(sessions[j], db, node, key)
  }

  /** The key is made of the database, the node and four columns of the session. */
  predicate HasKey(s: Session, db: Db, node: string, key: SessionKey) {
    && key.db == db && key.node == node && key.attachment == s.attachment && key.connectedAt == s.connectedAt
    && key.address == s.address && key.pid == s.pid
  }

  lemma {:induction false} UpsertedRow(rows: Rows, db: Db, node: string, sessions: seq<Session>, now: Time,
                                      key: SessionKey)
    ensures var rows' := UpsertedAll(rows, db, node, sessions, now);
      && (forall i :: LastUnder(sessions, db, node, key, i) ==>
            && key in rows'
            && rows'[key] == Row(if key in rows then rows[key].db else db, sessions[i].details,
                                 if key in rows then rows[key].firstSeenAt else now, now, None))
      && ((forall i :: !LastUnder(sessions, db, node, key, i)) ==>
            (key in rows' <==> key in rows) && (key in rows ==> rows'[key] == rows[key]))
    decreases |sessions|
  {
    if sessions != [] {
      var front, n := sessions[..|sessions| - 1], |sessions| - 1;
      UpsertedRow(rows, db, node, front, now, key);
      assert HasKey(sessions[n], db, node, key) <==> KeyOf(db, node, sessions[n]) == key;
      if HasKey(sessions[n], db, node, key) {
        if i :| LastUnder(front, db, node, key, i) {
          assert front[i] == sessions[i];
        }
        assert LastUnder(sessions, db, node, key, n);
      } else {
        assert forall i :: LastUnder(sessions, db, node, key, i) <==> LastUnder(front, db, node, key, i);
      }
    }
  }

  lemma {:induction false} SomeLastUnder(sessions: seq<Session>, db: Db, node: string, key: SessionKey)
    ensures key in Keys(db, node, sessions) <==> exists i :: LastUnder(sessions, db, node, key, i)
    decreases |sessions|
  {
    if sessions != [] {
      var front, n := sessions[..|sessions| - 1], |sessions| - 1;
      assert sessions == front + [sessions[n]];
      assert Keys(db, node, sessions) == Keys(db, node, front) + {KeyOf(db, node, sessions[n])};
      SomeLastUnder(front, db, node, key);
      assert HasKey(sessions[n], db, node, key) <==> KeyOf(db, node, sessions[n]) == key;
      if HasKey(sessions[n], db, node, key) {
        assert LastUnder(sessions, db, node, key, n);
      } else {
        assert forall i :: LastUnder(sessions, db, node, key, i) <==> LastUnder(front, db, node, key, i);
      }
    }
  }

  /** What a collection that breaks off before or among its upserts leaves: the sessions written are open, with
      their last details, and every other row is as it was. */
  lemma PartExactly(rows: Rows, db: Db, node: string, sessions: seq<Session>, now: Time, writes: nat, key: SessionKey)
    requires writes <= |sessions|
    ensures var rows' := Written(rows, db, node, sessions, now, writes);
      && (forall i :: LastUnder(sessions[..writes], db, node, key, i) ==>
            && key in rows'
            && rows'[key] == Row(if key in rows then rows[key].db else db, sessions[i].details,
                                 if key in rows then rows[key].firstSeenAt else now, now, None))
      && ((forall i :: !LastUnder(sessions[..writes], db, node, key, i)) ==>
            (key in rows' <==> key in rows) && (key in rows ==> rows'[key] == rows[key]))
  {
    UpsertedRow(rows, db, node, sessions[..writes], now, key);
  }

  /** What one that comes to the closing of the others leaves, or, with the last write, a completed one: the open
      rows of the database that were not observed are closed now, and with the last write exactly the rows not
      seen for 30 days go. */
  lemma CollectionExactly(rows: Rows, db: Db, node: string, sessions: seq<Session>, now: Time, completed: bool,
                          key: SessionKey)
    requires forall k :: k in rows ==> rows[k].db == k.db
    ensures var rows' := Written(rows, db, node, sessions, now, |sessions| + if completed then 2 else 1);
      && (forall i :: LastUnder(sessions, db, node, key, i) ==>
            && key in rows'
            && rows'[key] == Row(db, sessions[i].details, if key in rows then rows[key].firstSeenAt else now, now,
                                 None))
      && ((forall i :: !LastUnder(sessions, db, node, key, i)) ==>
            && (key in rows' <==>
                  key in rows && (completed ==> rows[key].lastSeenAt >= now - 30 * 24 * 60 * 60 * 1000))
            && (key in rows' ==>
                  rows'[key] == if rows[key].db == db && rows[key].disconnectedAt.None?
                                then rows[key].(disconnectedAt := Some(now)) else rows[key]))
  {
    UpsertedRow(rows, db, node, sessions, now, key);
    SomeLastUnder(sessions, db, node, key);
  }

  /** In every run, with probes deferred or failing and collections breaking off after any write: a row is
      first seen no later than last seen, and disconnected, if it is, no earlier than last seen. */
  lemma {:induction false} RunKeepsRows(node: string, now: Time, evs: seq<Event>)
    ensures var s := Exec(Step, State(node, now, map[]), evs); RowsOk(s.rows, s.now)
    decreases |evs|
  {
    if evs != [] {
      RunKeepsRows(node, now, evs[..|evs| - 1]);
      var s, e := Exec(Step, State(node, now, map[]), evs[..|evs| - 1]), evs[|evs| - 1];
      if e.Collect? && e.probe.Observed? {
        WrittenKeeps(s.rows, e.db, s.node, e.probe.sessions, s.now, e.writes);
      }
    }
  }

  lemma ClosedOpenAre(rows: Rows, db: Db, node: string, sessions: seq<Session>, now: Time, key: SessionKey)
    requires RowsOk(rows, now)
    ensures var seen := Keys(db, node, sessions);
      var closed := OthersClosed(UpsertedAll(rows, db, node, sessions, now), db, seen, now);
      && (IsOpen(closed, key, db) <==> key in seen)
      && (key in seen ==> closed[key].lastSeenAt == now)
  {
    UpsertOpens(rows, db, node, sessions, now, key);
    if key in Keys(db, node, sessions) {
      assert key.db == db;
    }
  }

  /** After a completed collection the open rows of that database are exactly the observed sessions. */
  lemma OpenAreObserved(rows: Rows, db: Db, node: string, sessions: seq<Session>, now: Time, writes: nat,
      key: SessionKey)
    requires RowsOk(rows, now) && writes >= |sessions| + 2
    ensures IsOpen(Written(rows, db, node, sessions, now, writes), key, db) <==> key in Keys(db, node, sessions)
  {
    ClosedOpenAre(rows, db, node, sessions, now, key);
  }

  /** The retention of a completed collection removes a row that is still open exactly when the row belongs to
      another database and was last seen before the retention: never a row of the database just collected. */
  lemma OpenRowRemovedExactly(rows: Rows, db: Db, node: string, sessions: seq<Session>, now: Time, key: SessionKey)
    requires RowsOk(rows, now)
    ensures var closed := OthersClosed(UpsertedAll(rows, db, node, sessions, now), db, Keys(db, node, sessions), now);
      (key in closed && closed[key].disconnectedAt.None?
          && key !in Written(rows, db, node, sessions, now, |sessions| + 2))
      <==> (key in rows && rows[key].db != db && rows[key].disconnectedAt.None?
            && rows[key].lastSeenAt < now - RETENTION_MS)
  {
    ClosedOpenAre(rows, db, node, sessions, now, key);
    UpsertOpens(rows, db, node, sessions, now, key);
  }

  /** So an open session is lost once another database has been the collected one for over 30 days. */
  lemma OtherDatabaseLosesOpenRow(node: string, session: Session)
    ensures var key := KeyOf(1, node, session);
      var evs := [Collect(1, Observed([session]), 3)] + [Pass(RETENTION_MS + 1)] + [Collect(2, Observed([]), 2)];
      && IsOpen(Exec(Step, State(node, 0, map[]), evs[..2]).rows, key, 1)
      && key !in Exec(Step, State(node, 0, map[]), evs).rows
  {
    var s0, key := State(node, 0, map[]), KeyOf(1, node, session);
    var e1, e2, e3 := Collect(1, Observed([session]), 3), Pass(RETENTION_MS + 1), Collect(2, Observed([]), 2);
    ExecSnoc(Step, s0, [], e1);
    ExecSnoc(Step, s0, [e1], e2);
    ExecSnoc(Step, s0, [e1] + [e2], e3);
    assert ([e1] + [e2] + [e3])[..2] == [e1] + [e2] && [] + [e1] == [e1];
    OpenAreObserved(map[], 1, node, [session], 0, 3, key);
    assert session in [session];
    var s2 := Exec(Step, s0, [e1] + [e2]);
    RunKeepsRows(node, 0, [e1] + [e2]);
    UpsertOpens(map[], 1, node, [session], 0, key);
    assert s2.rows[key].lastSeenAt == 0;
    OpenRowRemovedExactly(s2.rows, 2, node, [], s2.now, key);
  }
}
