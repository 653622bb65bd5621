/** AsyncProbeCache (backend async-probe-cache.js): a single-flight cache with a time to live, a stale
    fallback, forced reads and invalidation.

    A load goes through three stages that other code can run between: its loader works (Running), the
    fulfilled callback has stored the value but the finally callback has not run (Settled), both have run
    and the promise the callers wait on is settled (Closed). */
module ProbeCache {
  import opened Runs

  type Key = string
  type Value = string
  type Time = int

  datatype Entry = Entry(value: Value, loadedAt: Time)

  // ----- the cache itself -----

  /** What the synchronous part of get decides. */
  datatype Lookup = Hit(value: Value) | Join(load: nat) | Begin(load: nat)

  function LookedUp(entries: map<Key, Entry>, inFlight: map<Key, nat>, ttlMs: nat, key: Key, force: bool,
                    now: Time, next: nat): Lookup {
    if !force && key in entries && now - entries[key].loadedAt < ttlMs then Hit(entries[key].value)
    else if key in inFlight then Join(inFlight[key])
    else Begin(next)
  }

  function Fallback(entries: map<Key, Entry>, staleMs: nat, key: Key, allowStale: bool, now: Time): Option<Value> {
    if allowStale && key in entries && now - entries[key].loadedAt < staleMs then Some(entries[key].value) else None
  }

  function Invalidated(entries: map<Key, Entry>, key: Option<Key>): map<Key, Entry> {
    if key.None? then map[] else entries - {key.value}
  }

  function Cleared(inFlight: map<Key, nat>, key: Key, load: nat): map<Key, nat> {
    if key in inFlight && inFlight[key] == load then inFlight - {key} else inFlight
  }

  class AsyncProbeCache {
    const ttlMs: nat
    const staleMs: nat
    var entries: map<Key, Entry>
    var inFlight: map<Key, nat>

    /** None stands for an option that is missing or not a number. */
    constructor (ttl: Option<int>, stale: Option<int>)
      ensures entries == map[] && inFlight == map[]
      ensures ttlMs <= staleMs
      ensures ttl.Some? && ttl.value > 0 ==> ttlMs == ttl.value
      ensures ttl.None? || ttl.value <= 0 ==> ttlMs == 0
      ensures stale.Some? && stale.value > ttlMs ==> staleMs == stale.value
      ensures stale.None? || stale.value <= ttlMs ==> staleMs == ttlMs
    {
      var t := if ttl.Some? && ttl.value > 0 then ttl.value else 0;
      ttlMs := t;
      staleMs := if stale.Some? && stale.value > t then stale.value else t;
      entries, inFlight := map[], map[];
    }

    /** The part of get up to its first await; next names the load it would begin. */
    method Get(key: Key, force: bool, now: Time, next: nat) returns (lookup: Lookup)
      modifies this
      ensures lookup == LookedUp(old(entries), old(inFlight), ttlMs, key, force, now, next)
      ensures lookup.Hit? <==> !force && key in old(entries) && now - old(entries)[key].loadedAt < ttlMs
      ensures lookup.Hit? ==> lookup.value == old(entries)[key].value
      ensures !lookup.Hit? ==> lookup == if key in old(inFlight) then Join(old(inFlight)[key]) else Begin(next)
      ensures entries == old(entries)
      ensures inFlight == if lookup.Begin? then old(inFlight)[key := next] else old(inFlight)
    {
      if !force && key in entries && now - entries[key].loadedAt < ttlMs {
        return Hit(entries[key].value);
      }
      if key in inFlight {
        return Join(inFlight[key]);
      }
      inFlight := inFlight[key := next];
      lookup := Begin(next);
    }

    method OnFulfilled(key: Key, value: Value, now: Time)
      modifies this
      ensures entries == old(entries)[key := Entry(value, now)] && inFlight == old(inFlight)
    {
      entries := entries[key := Entry(value, now)];
    }

    method OnFinally(key: Key, load: nat)
      modifies this
      ensures entries == old(entries) && inFlight == Cleared(old(inFlight), key, load)
      ensures forall k :: k in inFlight <==> k in old(inFlight) && !(k == key && old(inFlight)[k] == load)
      ensures forall k :: k in inFlight ==> inFlight[k] == old(inFlight)[k]
    {
      if key in inFlight && inFlight[key] == load {
        inFlight := inFlight - {key};
      }
    }

    /** The catch of resolve: a fallback value, or None where the error is thrown on. */
    method OnRejected(key: Key, allowStale: bool, now: Time) returns (value: Option<Value>)
      ensures value == Fallback(entries, staleMs, key, allowStale, now)
      ensures value.Some? <==> allowStale && key in entries && now - entries[key].loadedAt < staleMs
      ensures value.Some? ==> value.value == entries[key].value
    {
      if key in entries {
        var fallback := entries[key];
        if allowStale && now - fallback.loadedAt < staleMs {
          return Some(fallback.value);
        }
      }
      value := None;
    }

    method Invalidate(key: Option<Key>)
      modifies this
      ensures entries == Invalidated(old(entries), key) && inFlight == old(inFlight)
      ensures forall k :: k in entries <==> k in old(entries) && key.Some? && k != key.value
      ensures forall k :: k in entries ==> entries[k] == old(entries)[k]
    {
      if key.None? {
        entries := map[];
      } else {
        entries := entries - {key.value};
      }
    }
  }

  // ----- the cache with its callers and loads -----

  datatype Stage = Running | Settled | Closed

  /** result None: rejected. settledAt and settledStep are when the result came; closedStep when the promise
      the callers wait on settled. */
  datatype Load = Load(key: Key, stage: Stage, result: Option<Value>, settledAt: Time,
                       settledStep: nat, closedStep: nat)

  datatype Answer = FromEntry(value: Value) | FromLoad(value: Value) | FromStale(value: Value) | Thrown

  /** origin is the load the answer came from. */
  datatype Reply = Reply(answer: Answer, at: Time, step: nat, origin: nat)

  /** A caller of get; load is what it waits on, None for a hit. */
  datatype Call = Call(key: Key, force: bool, allowStale: bool, calledAt: Time, calledStep: nat,
                       load: Option<nat>, reply: Option<Reply>)

  /** The two maps of the cache, and history: source names the load that stored each entry, loads and calls are
      all loads and callers so far, dropped the invalidations with their step. */
  datatype State = State(ttlMs: nat, staleMs: nat, now: Time, step: nat,
                         entries: map<Key, Entry>, inFlight: map<Key, nat>, source: map<Key, nat>,
                         loads: seq<Load>, calls: seq<Call>, dropped: seq<(Option<Key>, nat)>)

  datatype Event =
    | Pass(ms: nat)
    | Get(key: Key, force: bool, allowStale: bool)
    | Settle(load: nat, result: Option<Value>)
    | Finish(load: nat)
    | Wake(call: nat)
    | Invalidate(target: Option<Key>)

  function Init(ttlMs: nat, staleMs: nat, now: Time): State {
    State(ttlMs, staleMs, now, 0, map[], map[], map[], [], [], [])
  }

  function GetCalled(s: State, key: Key, force: bool, allowStale: bool): State {
    match LookedUp(s.entries, s.inFlight, s.ttlMs, key, force, s.now, |s.loads|)
    case Hit(v) =>
      var origin := if key in s.source then s.source[key] else 0;
      s.(calls := s.calls + [Call(key, force, allowStale, s.now, s.step, None,
          Some(Reply(FromEntry(v), s.now, s.step, origin)))])
    case Join(l) =>
      s.(calls := s.calls + [Call(key, force, allowStale, s.now, s.step, Some(l), None)])
    case Begin(l) =>
      s.(inFlight := s.inFlight[key := l],
         loads := s.loads + [Load(key, Running, None, s.now, s.step, s.step)],
         calls := s.calls + [Call(key, force, allowStale, s.now, s.step, Some(l), None)])
  }

  function LoadSettled(s: State, l: nat, result: Option<Value>): State
    requires l < |s.loads|
  {
    var load := s.loads[l];
    s.(loads := s.loads[l := load.(stage := Settled, result := result, settledAt := s.now, settledStep := s.step)],
       entries := if result.Some? then s.entries[load.key := Entry(result.value, s.now)] else s.entries,
       source := if result.Some? then s.source[load.key := l] else s.source)
  }

  function LoadFinished(s: State, l: nat): State
    requires l < |s.loads|
  {
    var load := s.loads[l];
    s.(loads := s.loads[l := load.(stage := Closed, closedStep := s.step)],
       inFlight := Cleared(s.inFlight, load.key, l))
  }

  function CallWoken(s: State, c: nat): State
    requires c < |s.calls| && s.calls[c].load.Some? && s.calls[c].load.value < |s.loads|
  {
    var call := s.calls[c];
    var load := s.loads[call.load.value];
    var stale := Fallback(s.entries, s.staleMs, call.key, call.allowStale, s.now);
    var answer := if load.result.Some? then FromLoad(load.result.value)
                  else if stale.Some? then FromStale(stale.value)
                  else Thrown;
    var origin := if answer.FromStale? && call.key in s.source then s.source[call.key] else call.load.value;
    s.(calls := s.calls[c := call.(reply := Some(Reply(answer, s.now, s.step, origin)))])
  }

  /** The event itself; one that is not possible changes nothing. */
  function Effect(s: State, e: Event): State {
    match e
    case Pass(ms) => s.(now := s.now + ms)
    case Get(key, force, allowStale) => GetCalled(s, key, force, allowStale)
    case Settle(l, result) => if l < |s.loads| && s.loads[l].stage == Running then LoadSettled(s, l, result) else s
    case Finish(l) => if l < |s.loads| && s.loads[l].stage == Settled then LoadFinished(s, l) else s
    case Wake(c) =>
      if c < |s.calls| && s.calls[c].reply.None? && s.calls[c].load.Some? && s.calls[c].load.value < |s.loads|
         && s.loads[s.calls[c].load.value].stage == Closed
      then CallWoken(s, c) else s
    case Invalidate(target) =>
      s.(entries := Invalidated(s.entries, target), dropped := s.dropped + [(target, s.step)])
  }

  function Step(s: State, e: Event): State {
    var t := Effect(s, e);
    t.(step := s.step + 1)
  }

  // ----- one load at a time -----

  /** inFlight names a load of its key that is not closed. */
  ghost predicate FlightsOpen(s: State) {
    forall k :: k in s.inFlight ==>
      s.inFlight[k] < |s.loads| && s.loads[s.inFlight[k]].key == k && s.loads[s.inFlight[k]].stage != Closed
  }

  /** A load that is not closed is the one inFlight names for its key. */
  ghost predicate OpenInFlight(s: State) {
    forall l :: 0 <= l < |s.loads| && s.loads[l].stage != Closed ==>
      s.loads[l].key in s.inFlight && s.inFlight[s.loads[l].key] == l
  }

  /** Every caller was answered from an entry or waits on a load of its key, answered only once that closed. */
  ghost predicate CallsAttached(s: State) {
    forall c :: 0 <= c < |s.calls| ==>
      if s.calls[c].load.None? then s.calls[c].reply.Some?
      else
        && s.calls[c].load.value < |s.loads| && s.loads[s.calls[c].load.value].key == s.calls[c].key
        && (s.calls[c].reply.Some? ==> s.loads[s.calls[c].load.value].stage == Closed)
  }

  ghost predicate SingleFlight(s: State) {
    FlightsOpen(s) && OpenInFlight(s) && CallsAttached(s)
  }

  lemma GetFlights(s: State, key: Key, force: bool, allowStale: bool)
    requires FlightsOpen(s) && OpenInFlight(s)
    ensures FlightsOpen(GetCalled(s, key, force, allowStale)) && OpenInFlight(GetCalled(s, key, force, allowStale))
  {
  }

  lemma GetCalls(s: State, key: Key, force: bool, allowStale: bool)
    requires FlightsOpen(s) && CallsAttached(s)
    ensures CallsAttached(GetCalled(s, key, force, allowStale))
  {
    match LookedUp(s.entries, s.inFlight, s.ttlMs, key, force, s.now, |s.loads|)
    case Hit(_) =>
    case Join(_) =>
    case Begin(_) =>
  }

  lemma SettleSingleFlight(s: State, l: nat, result: Option<Value>)
    requires SingleFlight(s) && l < |s.loads| && s.loads[l].stage == Running
    ensures SingleFlight(LoadSettled(s, l, result))
  {
  }

  lemma FinishSingleFlight(s: State, l: nat)
    requires SingleFlight(s) && l < |s.loads| && s.loads[l].stage == Settled
    ensures SingleFlight(LoadFinished(s, l))
  {
    assert s.inFlight[s.loads[l].key] == l;
  }

  lemma StepSingleFlight(s: State, e: Event)
    requires SingleFlight(s)
    ensures SingleFlight(Step(s, e))
  {
    match e
    case Get(key, force, allowStale) =>
      GetFlights(s, key, force, allowStale);
      GetCalls(s, key, force, allowStale);
    case Settle(l, result) => if Effect(s, e) != s { SettleSingleFlight(s, l, result); }
    case Finish(l) => if Effect(s, e) != s { FinishSingleFlight(s, l); }
    case _ =>
  }

  lemma {:induction false} RunSingleFlight(ttlMs: nat, staleMs: nat, now: Time, evs: seq<Event>)
    ensures SingleFlight(Exec(Step, Init(ttlMs, staleMs, now), evs))
    decreases |evs|
  {
    if evs != [] {
      RunSingleFlight(ttlMs, staleMs, now, evs[..|evs| - 1]);
      StepSingleFlight(Exec(Step, Init(ttlMs, staleMs, now), evs[..|evs| - 1]), evs[|evs| - 1]);
    }
  }

  /** In every run: two loads of one key are never both unsettled, every caller not yet answered waits on a
      load of its key, and the identity test in finally never fails. */
  lemma OneLoadPerKey(ttlMs: nat, staleMs: nat, now: Time, evs: seq<Event>)
    ensures var s := Exec(Step, Init(ttlMs, staleMs, now), evs);
      && (forall a, b | 0 <= a < b < |s.loads| :: s.loads[a].stage == Closed || s.loads[b].stage == Closed
                                                  || s.loads[a].key != s.loads[b].key)
      && (forall c :: 0 <= c < |s.calls| && s.calls[c].reply.None? ==>
            s.calls[c].load.Some? && s.calls[c].load.value < |s.loads|
            && s.loads[s.calls[c].load.value].key == s.calls[c].key)
      && (forall l :: 0 <= l < |s.loads| && s.loads[l].stage == Settled ==>
            s.loads[l].key in s.inFlight && s.inFlight[s.loads[l].key] == l)
  {
    RunSingleFlight(ttlMs, staleMs, now, evs);
  }

  /** Callers only come, and only a wake-up changes one. */
  lemma CallsFrame(s: State, e: Event)
    ensures |s.calls| <= |Step(s, e).calls| <= |s.calls| + if e.Get? then 1 else 0
    ensures forall c :: 0 <= c < |s.calls| && e != Wake(c) ==> Step(s, e).calls[c] == s.calls[c]
  {
  }

  lemma WakeExactly(s: State, c: nat)
    requires SingleFlight(s) && c < |s.calls|
    ensures c < |Step(s, Wake(c)).calls|
    ensures if s.calls[c].reply.None? && s.loads[s.calls[c].load.value].stage == Closed
            then Step(s, Wake(c)).calls[c].reply.Some? else Step(s, Wake(c)).calls == s.calls
  {
  }

  /** A reply, once given, never changes, and one more step gives a waiter of a closed load its reply. */
  lemma AnsweredOnce(s: State, e: Event, c: nat)
    requires SingleFlight(s) && c < |s.calls|
    ensures c < |Step(s, e).calls|
    ensures s.calls[c].reply.Some? ==> Step(s, e).calls[c] == s.calls[c]
    ensures s.calls[c].reply.None? && Step(s, e).calls[c].reply.Some? ==>
      e == Wake(c) && s.loads[s.calls[c].load.value].stage == Closed
    ensures s.calls[c].reply.None? && s.loads[s.calls[c].load.value].stage == Closed ==>
      Step(s, Wake(c)).calls[c].reply.Some?
  {
    CallsFrame(s, e);
    WakeExactly(s, c);
  }

  // ----- where answers come from -----

  /** Load l produced v for key and stored it at settledStep. */
  predicate Produced(s: State, l: nat, key: Key, v: Value) {
    l < |s.loads| && s.loads[l].key == key && s.loads[l].stage != Running && s.loads[l].result == Some(v)
  }

  /** No invalidation of key lies between step from (on) and step to (before). */
  predicate Undropped(s: State, key: Key, from: nat, to: nat) {
    forall i :: 0 <= i < |s.dropped| && (s.dropped[i].0.None? || s.dropped[i].0 == Some(key)) && s.dropped[i].1 < to ==>
      s.dropped[i].1 < from
  }

  /** What makes a reply legitimate, in terms of the history of loads. */
  predicate Justified(s: State, c: Call)
    requires c.reply.Some?
  {
    var r := c.reply.value;
    match r.answer
    case FromEntry(v) =>
      && Produced(s, r.origin, c.key, v) && c.calledAt - s.loads[r.origin].settledAt < s.ttlMs
      && s.loads[r.origin].settledStep < c.calledStep
      && Undropped(s, c.key, s.loads[r.origin].settledStep, c.calledStep)
    case FromLoad(v) =>
      && c.load == Some(r.origin) && Produced(s, r.origin, c.key, v) && s.loads[r.origin].stage == Closed
      && c.calledStep < s.loads[r.origin].closedStep < r.step
    case FromStale(v) =>
      && c.allowStale && c.load.Some? && c.load.value < |s.loads| && s.loads[c.load.value].stage == Closed
      && s.loads[c.load.value].result.None?
      && Produced(s, r.origin, c.key, v) && r.at - s.loads[r.origin].settledAt < s.staleMs
      && s.loads[r.origin].settledStep < r.step && Undropped(s, c.key, s.loads[r.origin].settledStep, r.step)
    case Thrown =>
      c.load == Some(r.origin) && r.origin < |s.loads| && s.loads[r.origin].stage == Closed
      && s.loads[r.origin].result.None?
  }

  /** Every entry is the stored result of a load of its key, not invalidated since. */
  ghost predicate EntriesJustified(s: State) {
    forall k :: k in s.entries ==>
      && k in s.source && Produced(s, s.source[k], k, s.entries[k].value)
      && s.loads[s.source[k]].settledAt == s.entries[k].loadedAt
      && Undropped(s, k, s.loads[s.source[k]].settledStep, s.step)
  }

  ghost predicate DropsClocked(s: State) {
    forall i :: 0 <= i < |s.dropped| ==> s.dropped[i].1 < s.step
  }

  ghost predicate LoadsClocked(s: State) {
    forall l :: 0 <= l < |s.loads| ==>
      && (s.loads[l].stage != Running ==> s.loads[l].settledStep < s.step)
      && (s.loads[l].stage == Closed ==> s.loads[l].settledStep < s.loads[l].closedStep < s.step)
  }

  ghost predicate CallClocked(s: State, call: Call) {
    && call.calledStep < s.step
    && (call.reply.Some? ==> call.calledStep <= call.reply.value.step < s.step)
    && (call.load.Some? && call.load.value < |s.loads| && s.loads[call.load.value].stage == Closed ==>
          call.calledStep < s.loads[call.load.value].closedStep)
  }

  ghost predicate CallsClocked(s: State) {
    forall c :: 0 <= c < |s.calls| ==> CallClocked(s, s.calls[c])
  }

  ghost predicate Clocked(s: State) {
    DropsClocked(s) && LoadsClocked(s) && CallsClocked(s)
  }

  ghost predicate RepliesJustified(s: State) {
    forall c :: 0 <= c < |s.calls| && s.calls[c].reply.Some? ==> Justified(s, s.calls[c])
  }

  ghost predicate Inv(s: State) {
    SingleFlight(s) && Clocked(s) && EntriesJustified(s) && RepliesJustified(s)
  }

  // ----- history only grows -----

  ghost predicate LoadsExtend(s: State, t: State) {
    && |s.loads| <= |t.loads|
    && (forall l :: 0 <= l < |s.loads| ==> s.loads[l].key == t.loads[l].key)
    && (forall l :: 0 <= l < |s.loads| && s.loads[l].stage == Closed ==> t.loads[l] == s.loads[l])
    && (forall l :: 0 <= l < |s.loads| && s.loads[l].stage == Settled ==>
          t.loads[l].stage != Running && t.loads[l].result == s.loads[l].result
          && t.loads[l].settledAt == s.loads[l].settledAt && t.loads[l].settledStep == s.loads[l].settledStep)
    && (forall l :: 0 <= l < |t.loads| && t.loads[l].stage != Running ==>
          (l < |s.loads| && s.loads[l].stage != Running) || t.loads[l].settledStep >= s.step)
  }

  ghost predicate Extends(s: State, t: State) {
    && s.ttlMs == t.ttlMs && s.staleMs == t.staleMs && s.step <= t.step
    && LoadsExtend(s, t)
    && |s.dropped| <= |t.dropped|
    && (forall i :: 0 <= i < |s.dropped| ==> t.dropped[i] == s.dropped[i])
    && (forall i :: |s.dropped| <= i < |t.dropped| ==> t.dropped[i].1 >= s.step)
  }

  lemma StepLoads(s: State, e: Event)
    ensures LoadsExtend(s, Step(s, e))
  {
  }

  lemma StepExtends(s: State, e: Event)
    ensures Extends(s, Step(s, e))
  {
    StepLoads(s, e);
  }

  lemma JustifiedStays(s: State, t: State, c: Call)
    requires Extends(s, t) && c.reply.Some? && c.calledStep < s.step && c.reply.value.step < s.step
    requires Justified(s, c)
    ensures Justified(t, c)
  {
  }

  lemma NewCallIsGet(s: State, e: Event, c: nat)
    requires |s.calls| <= c < |Step(s, e).calls|
    ensures e.Get? && c == |s.calls|
    ensures Step(s, e) == GetCalled(s, e.key, e.force, e.allowStale).(step := s.step + 1)
  {
    CallsFrame(s, e);
  }

  lemma StepCallsClocked(s: State, e: Event)
    requires CallsAttached(s) && FlightsOpen(s) && CallsClocked(s)
    ensures CallsClocked(Step(s, e))
  {
    var t := Step(s, e);
    forall c | 0 <= c < |t.calls| ensures CallClocked(t, t.calls[c]) {
      if c < |s.calls| {
        OldCallClocked(s, e, c);
      } else {
        NewCallIsGet(s, e, c);
        NewCallClocked(s, e.key, e.force, e.allowStale);
      }
    }
  }

  /** A load is closed after a step if it was before, unchanged, or was closed by it. */
  lemma ClosedLoads(s: State, e: Event, l: nat)
    requires l < |s.loads|
    ensures l < |Step(s, e).loads|
    ensures Step(s, e).loads[l].stage == Closed ==>
        Step(s, e).loads[l] == s.loads[l] || Step(s, e).loads[l].closedStep == s.step
  {
  }

  lemma WokenClocked(s: State, c: nat)
    requires CallsAttached(s) && c < |s.calls| && CallClocked(s, s.calls[c])
    ensures c < |Step(s, Wake(c)).calls| && CallClocked(Step(s, Wake(c)), Step(s, Wake(c)).calls[c])
  {
  }

  lemma OldCallClocked(s: State, e: Event, c: nat)
    requires CallsAttached(s) && c < |s.calls| && CallClocked(s, s.calls[c])
    ensures c < |Step(s, e).calls| && CallClocked(Step(s, e), Step(s, e).calls[c])
  {
    if e == Wake(c) {
      WokenClocked(s, c);
    } else {
      CallsFrame(s, e);
      if s.calls[c].load.Some? {
        ClosedLoads(s, e, s.calls[c].load.value);
      }
    }
  }

  lemma NewCallClocked(s: State, key: Key, force: bool, allowStale: bool)
    requires FlightsOpen(s)
    ensures var t := GetCalled(s, key, force, allowStale).(step := s.step + 1);
      |t.calls| == |s.calls| + 1 && CallClocked(t, t.calls[|s.calls|])
  {
  }

  lemma StepLoadsClocked(s: State, e: Event)
    requires LoadsClocked(s)
    ensures LoadsClocked(Step(s, e))
  {
  }

  lemma StepClocked(s: State, e: Event)
    requires SingleFlight(s) && Clocked(s)
    ensures Clocked(Step(s, e))
  {
    StepCallsClocked(s, e);
    StepLoadsClocked(s, e);
  }

  lemma SettleEntries(s: State, l: nat, result: Option<Value>)
    requires SingleFlight(s) && Clocked(s) && EntriesJustified(s)
    requires l < |s.loads| && s.loads[l].stage == Running
    ensures EntriesJustified(Step(s, Settle(l, result)))
  {
    var t := Step(s, Settle(l, result));
    forall k | k in t.entries
      ensures k in t.source && Produced(t, t.source[k], k, t.entries[k].value)
      ensures t.loads[t.source[k]].settledAt == t.entries[k].loadedAt
      ensures Undropped(t, k, t.loads[t.source[k]].settledStep, t.step)
    {
      if result.None? || k != s.loads[l].key {
        assert k in s.entries && s.source[k] != l;
      }
    }
  }

  /** Apart from a load being stored, entries only disappear. */
  lemma EntriesFrame(s: State, e: Event)
    requires !e.Settle?
    ensures var t := Step(s, e);
      && t.source == s.source
      && forall k | k in t.entries ::
           && k in s.entries && t.entries[k] == s.entries[k]
           && (e.Invalidate? ==> e.target.Some? && e.target.value != k)
  {
  }

  lemma KeepEntry(s: State, e: Event, k: Key)
    requires Clocked(s) && EntriesJustified(s) && !e.Settle?
    requires k in s.entries && (e.Invalidate? ==> e.target.Some? && e.target.value != k)
    ensures var t := Step(s, e);
      && Produced(t, s.source[k], k, s.entries[k].value)
      && t.loads[s.source[k]].settledAt == s.entries[k].loadedAt
      && Undropped(t, k, t.loads[s.source[k]].settledStep, t.step)
  {
    StepExtends(s, e);
  }

  lemma StepEntries(s: State, e: Event)
    requires SingleFlight(s) && Clocked(s) && EntriesJustified(s)
    ensures EntriesJustified(Step(s, e))
  {
    var t := Step(s, e);
    if e.Settle? {
      if e.load < |s.loads| && s.loads[e.load].stage == Running {
        SettleEntries(s, e.load, e.result);
      }
    } else {
      EntriesFrame(s, e);
      forall k | k in t.entries
        ensures k in t.source && Produced(t, t.source[k], k, t.entries[k].value)
        ensures t.loads[t.source[k]].settledAt == t.entries[k].loadedAt
        ensures Undropped(t, k, t.loads[t.source[k]].settledStep, t.step)
      {
        KeepEntry(s, e, k);
      }
    }
  }

  lemma GetReplies(s: State, key: Key, force: bool, allowStale: bool)
    requires EntriesJustified(s) && LoadsClocked(s)
    ensures var t := GetCalled(s, key, force, allowStale).(step := s.step + 1); var c := |s.calls|;
      |t.calls| == c + 1 && (t.calls[c].reply.Some? ==> Justified(t, t.calls[c]))
  {
    var t := GetCalled(s, key, force, allowStale).(step := s.step + 1);
    if t.calls[|s.calls|].reply.Some? {
      assert t.loads == s.loads && t.dropped == s.dropped;
    }
  }

  lemma WakeReplies(s: State, c: nat)
    requires Inv(s)
    requires c < |s.calls| && s.calls[c].reply.None? && s.calls[c].load.Some?
    requires s.calls[c].load.value < |s.loads| && s.loads[s.calls[c].load.value].stage == Closed
    ensures var t := Step(s, Wake(c)); t.calls[c].reply.Some? && Justified(t, t.calls[c])
  {
  }

  lemma NewCaller(s: State, e: Event, c: nat)
    requires e.Get? && c < |Step(s, e).calls| && Step(s, e).calls[c].reply.Some?
    requires c < |s.calls| ==> s.calls[c].reply.None?
    ensures c == |s.calls|
  {
    CallsFrame(s, e);
  }

  lemma NewWakeUp(s: State, e: Event, c: nat)
    requires !e.Get? && c < |Step(s, e).calls| && Step(s, e).calls[c].reply.Some?
    requires c < |s.calls| ==> s.calls[c].reply.None?
    ensures e == Wake(c) && c < |s.calls| && s.calls[c].load.Some? && s.calls[c].load.value < |s.loads|
    ensures s.loads[s.calls[c].load.value].stage == Closed
  {
    CallsFrame(s, e);
  }

  /** The replies of a step are the replies before it and the one the step gave. */
  lemma NewReplies(s: State, e: Event, c: nat)
    requires Inv(s) && c < |Step(s, e).calls| && Step(s, e).calls[c].reply.Some?
    requires c < |s.calls| ==> s.calls[c].reply.None?
    ensures Justified(Step(s, e), Step(s, e).calls[c])
  {
    if e.Get? {
      NewCaller(s, e, c);
      GetReplies(s, e.key, e.force, e.allowStale);
    } else {
      NewWakeUp(s, e, c);
      WakeReplies(s, c);
    }
  }

  lemma StepInv(s: State, e: Event)
    requires Inv(s)
    ensures Inv(Step(s, e))
  {
    StepSingleFlight(s, e);
    StepClocked(s, e);
    StepEntries(s, e);
    StepExtends(s, e);
    var t := Step(s, e);
    forall c | 0 <= c < |t.calls| && t.calls[c].reply.Some? ensures Justified(t, t.calls[c]) {
      if c < |s.calls| && s.calls[c].reply.Some? {
        AnsweredOnce(s, e, c);
        JustifiedStays(s, t, s.calls[c]);
      } else {
        NewReplies(s, e, c);
      }
    }
  }

  lemma {:induction false} RunInv(s: State, evs: seq<Event>)
    requires Inv(s)
    ensures Inv(Exec(Step, s, evs)) && Extends(s, Exec(Step, s, evs))
    decreases |evs|
  {
    if evs != [] {
      var t := Exec(Step, s, evs[..|evs| - 1]);
      RunInv(s, evs[..|evs| - 1]);
      StepInv(t, evs[|evs| - 1]);
      StepExtends(t, evs[|evs| - 1]);
      ExtendsTransitive(s, t, Step(t, evs[|evs| - 1]));
    }
  }

  lemma ExtendsTransitive(s: State, t: State, u: State)
    requires Extends(s, t) && Extends(t, u)
    ensures Extends(s, u)
  {
  }

  /** In every run, every answer given so far is legitimate: a hit within the time to live, a value of a load
      that settled after the call, or, where the caller allows it and its load failed, a value within the
      stale limit; and neither a hit nor a fallback survives an invalidation of its key. */
  lemma AnswersJustified(ttlMs: nat, staleMs: nat, now: Time, evs: seq<Event>, c: nat)
    requires c < |Exec(Step, Init(ttlMs, staleMs, now), evs).calls|
    requires Exec(Step, Init(ttlMs, staleMs, now), evs).calls[c].reply.Some?
    ensures Justified(Exec(Step, Init(ttlMs, staleMs, now), evs), Exec(Step, Init(ttlMs, staleMs, now), evs).calls[c])
  {
    RunInv(Init(ttlMs, staleMs, now), evs);
  }

  // ----- what a lookup answers, in terms of the history -----

  /** Load l of key has put a value on record. */
  predicate Stored(s: State, key: Key, l: int) {
    0 <= l < |s.loads| && s.loads[l].key == key && s.loads[l].stage != Running && s.loads[l].result.Some?
  }

  /** It is the latest that did, and key has not been invalidated since. */
  ghost predicate Latest(s: State, key: Key, l: int) {
    && Stored(s, key, l)
    && (forall m :: Stored(s, key, m) ==> s.loads[m].settledStep <= s.loads[l].settledStep)
    && (forall i :: 0 <= i < |s.dropped| && (s.dropped[i].0.None? || s.dropped[i].0.value == key) ==>
          s.dropped[i].1 < s.loads[l].settledStep)
  }

  /** The entries are exactly the latest stored loads not invalidated since. */
  ghost predicate EntriesLatest(s: State) {
    && (forall key :: key in s.entries ==> key in s.source && Latest(s, key, s.source[key]))
    && (forall key, l :: Latest(s, key, l) ==> key in s.entries && s.source[key] == l)
  }

  lemma SettleLatest(s: State, l: nat, result: Option<Value>)
    requires Inv(s) && EntriesLatest(s) && l < |s.loads| && s.loads[l].stage == Running
    ensures EntriesLatest(Step(s, Settle(l, result)))
  {
    var t := Step(s, Settle(l, result));
    forall key, m | !(key == s.loads[l].key && result.Some?) ensures Latest(t, key, m) <==> Latest(s, key, m) {
      assert forall x :: Stored(t, key, x) <==> Stored(s, key, x);
    }
    if result.Some? {
      var key := s.loads[l].key;
      assert forall x :: Stored(t, key, x) <==> x == l || Stored(s, key, x);
      forall x | Stored(t, key, x) && x != l ensures t.loads[x].settledStep < t.loads[l].settledStep {
        assert Stored(s, key, x);
      }
    }
  }

  lemma DropLatest(s: State, target: Option<Key>)
    requires Inv(s) && EntriesLatest(s)
    ensures EntriesLatest(Step(s, Invalidate(target)))
  {
    var t := Step(s, Invalidate(target));
    assert t.dropped[|s.dropped|] == (target, s.step);
    assert forall key, m :: Stored(t, key, m) <==> Stored(s, key, m);
    forall key, m ensures Latest(t, key, m) <==> Latest(s, key, m) && !Covers(target, key) {
      assert Stored(s, key, m) ==> s.loads[m].settledStep < s.step;
      assert forall i :: 0 <= i < |s.dropped| ==> t.dropped[i] == s.dropped[i];
    }
  }

  /** Where nothing is stored or dropped, the latest loads stay. */
  lemma SameLatest(s: State, t: State, key: Key, l: int)
    requires t.dropped == s.dropped
    requires forall m :: Stored(t, key, m) <==> Stored(s, key, m)
    requires forall m :: Stored(s, key, m) && Stored(t, key, m) ==> t.loads[m].settledStep == s.loads[m].settledStep
    ensures Latest(t, key, l) <==> Latest(s, key, l)
  {
  }

  lemma OtherStored(s: State, e: Event, key: Key, l: int)
    requires !(e.Settle? && e.load < |s.loads| && s.loads[e.load].stage == Running)
    ensures Stored(Step(s, e), key, l) <==> Stored(s, key, l)
    ensures Stored(s, key, l) ==> Step(s, e).loads[l].settledStep == s.loads[l].settledStep
  {
  }

  lemma OtherEntries(s: State, e: Event)
    requires !e.Invalidate? && !(e.Settle? && e.load < |s.loads| && s.loads[e.load].stage == Running)
    ensures var t := Step(s, e); t.entries == s.entries && t.source == s.source && t.dropped == s.dropped
  {
  }

  lemma OtherLatest(s: State, e: Event)
    requires EntriesLatest(s) && !e.Invalidate?
    requires !(e.Settle? && e.load < |s.loads| && s.loads[e.load].stage == Running)
    ensures EntriesLatest(Step(s, e))
  {
    var t := Step(s, e);
    OtherEntries(s, e);
    forall key, l ensures Latest(t, key, l) <==> Latest(s, key, l) {
      forall m ensures Stored(t, key, m) <==> Stored(s, key, m)
        ensures Stored(s, key, m) ==> t.loads[m].settledStep == s.loads[m].settledStep
      {
        OtherStored(s, e, key, m);
      }
      SameLatest(s, t, key, l);
    }
  }

  lemma StepLatest(s: State, e: Event)
    requires Inv(s) && EntriesLatest(s)
    ensures EntriesLatest(Step(s, e))
  {
    if e.Settle? && e.load < |s.loads| && s.loads[e.load].stage == Running {
      SettleLatest(s, e.load, e.result);
    } else if e.Invalidate? {
      DropLatest(s, e.target);
    } else {
      OtherLatest(s, e);
    }
  }

  lemma {:induction false} RunLatest(ttlMs: nat, staleMs: nat, now: Time, evs: seq<Event>)
    ensures EntriesLatest(Exec(Step, Init(ttlMs, staleMs, now), evs))
    decreases |evs|
  {
    if evs != [] {
      RunLatest(ttlMs, staleMs, now, evs[..|evs| - 1]);
      RunInv(Init(ttlMs, staleMs, now), evs[..|evs| - 1]);
      StepLatest(Exec(Step, Init(ttlMs, staleMs, now), evs[..|evs| - 1]), evs[|evs| - 1]);
    }
  }

  /** A stored value of key, not invalidated since, that is younger than a limit. */
  ghost predicate HasYounger(s: State, key: Key, limit: int) {
    exists l :: Latest(s, key, l) && s.now - s.loads[l].settledAt < limit
  }

  predicate IsUnsettled(s: State, key: Key, l: int) {
    0 <= l < |s.loads| && s.loads[l].key == key && s.loads[l].stage != Closed
  }

  /** In every run: a caller is answered at once if and only if it does not force the read and the latest stored
      value of its key was not invalidated since and is younger than ttlMs, and it is answered with that. If
      not, it waits on the load of its key that is not yet closed, or else on a new one that begins. */
  lemma GetExactly(ttlMs: nat, staleMs: nat, now: Time, evs: seq<Event>, key: Key, force: bool, allowStale: bool)
    ensures var s := Exec(Step, Init(ttlMs, staleMs, now), evs); var t := Step(s, Get(key, force, allowStale));
      && |t.calls| == |s.calls| + 1
      && var call := t.calls[|s.calls|];
         && call.key == key && call.force == force && call.allowStale == allowStale && call.calledAt == s.now
         && (call.reply.Some? <==> !force && HasYounger(s, key, ttlMs))
         && (call.reply.Some? ==>
               && t.loads == s.loads && Latest(s, key, call.reply.value.origin)
               && call.reply.value.answer == FromEntry(s.loads[call.reply.value.origin].result.value))
         && (call.reply.None? ==>
               && call.load.Some? && IsUnsettled(t, key, call.load.value)
               && if exists l :: IsUnsettled(s, key, l) then t.loads == s.loads
                  else t.loads == s.loads + [Load(key, Running, None, s.now, s.step, s.step)])
  {
    var s := Exec(Step, Init(ttlMs, staleMs, now), evs);
    RunInv(Init(ttlMs, staleMs, now), evs);
    RunLatest(ttlMs, staleMs, now, evs);
    EntryIsYounger(s, key, ttlMs);
    LookupExactly(s, key, force, allowStale);
  }

  lemma EntryIsYounger(s: State, key: Key, limit: int)
    requires Inv(s) && EntriesLatest(s)
    ensures HasYounger(s, key, limit) <==> key in s.entries && s.now - s.entries[key].loadedAt < limit
    ensures key in s.entries ==> s.loads[s.source[key]].result == Some(s.entries[key].value)
  {
    if l :| Latest(s, key, l) && s.now - s.loads[l].settledAt < limit {
      assert s.source[key] == l;
    } else if key in s.entries {
      assert Latest(s, key, s.source[key]);
    }
  }

  lemma LookupExactly(s: State, key: Key, force: bool, allowStale: bool)
    requires Inv(s) && EntriesLatest(s)
    ensures var t := Step(s, Get(key, force, allowStale));
      && |t.calls| == |s.calls| + 1
      && var call := t.calls[|s.calls|];
         && call.key == key && call.force == force && call.allowStale == allowStale && call.calledAt == s.now
         && (call.reply.Some? <==> !force && key in s.entries && s.now - s.entries[key].loadedAt < s.ttlMs)
         && (call.reply.Some? ==>
               && t.loads == s.loads && Latest(s, key, call.reply.value.origin)
               && call.reply.value.answer == FromEntry(s.entries[key].value)
               && call.reply.value.origin == s.source[key])
         && (call.reply.None? ==>
               && call.load.Some? && IsUnsettled(t, key, call.load.value)
               && if exists l :: IsUnsettled(s, key, l) then t.loads == s.loads
                  else t.loads == s.loads + [Load(key, Running, None, s.now, s.step, s.step)])
  {
    if key in s.inFlight {
      assert IsUnsettled(s, key, s.inFlight[key]);
    }
    if l :| IsUnsettled(s, key, l) {
      assert key in s.inFlight;
    }
  }

  /** A stored value grows old by the time that passes and by nothing else. */
  lemma AgesExactly(s: State, ms: nat, key: Key, limit: int)
    ensures HasYounger(Step(s, Pass(ms)), key, limit)
      <==> exists l :: Latest(s, key, l) && s.now + ms - s.loads[l].settledAt < limit
  {
    var t := Step(s, Pass(ms));
    forall l ensures Latest(t, key, l) <==> Latest(s, key, l) {
      assert forall m :: Stored(t, key, m) <==> Stored(s, key, m);
    }
  }

  predicate NoneForcedFromEntry(s: State) {
    forall c :: 0 <= c < |s.calls| && s.calls[c].force && s.calls[c].reply.Some? ==>
      !s.calls[c].reply.value.answer.FromEntry?
  }

  /** In every run no forced caller is answered from an entry. */
  lemma {:induction false} ForcedNeverFromEntry(ttlMs: nat, staleMs: nat, now: Time, evs: seq<Event>)
    ensures NoneForcedFromEntry(Exec(Step, Init(ttlMs, staleMs, now), evs))
    decreases |evs|
  {
    if evs != [] {
      var s, e := Exec(Step, Init(ttlMs, staleMs, now), evs[..|evs| - 1]), evs[|evs| - 1];
      ForcedNeverFromEntry(ttlMs, staleMs, now, evs[..|evs| - 1]);
      RunInv(Init(ttlMs, staleMs, now), evs[..|evs| - 1]);
      RunLatest(ttlMs, staleMs, now, evs[..|evs| - 1]);
      StepForced(s, e);
    }
  }

  lemma StepForced(s: State, e: Event)
    requires Inv(s) && EntriesLatest(s) && NoneForcedFromEntry(s)
    ensures NoneForcedFromEntry(Step(s, e))
  {
    var t := Step(s, e);
    CallsFrame(s, e);
    if e.Get? {
      LookupExactly(s, e.key, e.force, e.allowStale);
    } else if e.Wake? {
      WokenForced(s, e.call);
    }
  }

  lemma WokenForced(s: State, c: nat)
    ensures var t := Step(s, Wake(c));
      |t.calls| == |s.calls| && (t == s.(step := s.step + 1)
        || (c < |s.calls| && t.calls[c].force == s.calls[c].force && t.calls[c].reply.Some?
            && !t.calls[c].reply.value.answer.FromEntry?))
  {
  }

  /** In every run a waiting caller is given, once its load is closed, the load's value; where the load failed,
      the latest stored value not invalidated since, if it allows stale ones and that is younger than staleMs;
      and otherwise the error. */
  lemma AnswerExactly(ttlMs: nat, staleMs: nat, now: Time, evs: seq<Event>, c: nat)
    requires var s := Exec(Step, Init(ttlMs, staleMs, now), evs);
      && c < |s.calls| && s.calls[c].reply.None? && s.calls[c].load.Some? && s.calls[c].load.value < |s.loads|
      && s.loads[s.calls[c].load.value].stage == Closed
    ensures var s := Exec(Step, Init(ttlMs, staleMs, now), evs);
      var result := s.loads[s.calls[c].load.value].result; var key := s.calls[c].key;
      var t := Step(s, Wake(c));
      && c < |t.calls| && t.calls[c].reply.Some?
      && var reply := t.calls[c].reply.value;
         && (result.Some? ==> reply.answer == FromLoad(result.value))
         && (result.None? && s.calls[c].allowStale && HasYounger(s, key, staleMs) ==>
               Latest(s, key, reply.origin) && reply.answer == FromStale(s.loads[reply.origin].result.value))
         && (result.None? && !(s.calls[c].allowStale && HasYounger(s, key, staleMs)) ==> reply.answer == Thrown)
  {
    var s := Exec(Step, Init(ttlMs, staleMs, now), evs);
    RunInv(Init(ttlMs, staleMs, now), evs);
    RunLatest(ttlMs, staleMs, now, evs);
    EntryIsYounger(s, s.calls[c].key, staleMs);
  }

  // ----- invalidation -----

  predicate Covers(target: Option<Key>, key: Key) {
    target.None? || target.value == key
  }

  /** After s is invalidated and runs on with more, a caller of key that came after the invalidation has been
      given a value stored before it. */
  predicate OldValueReturned(s: State, target: Option<Key>, key: Key, more: seq<Event>, c: nat) {
    var t := Exec(Step, Step(s, Invalidate(target)), more);
    && c < |t.calls| && t.calls[c].key == key && t.calls[c].calledStep > s.step
    && t.calls[c].reply.Some? && !t.calls[c].reply.value.answer.Thrown?
    && t.calls[c].reply.value.origin < |t.loads|
    && t.loads[t.calls[c].reply.value.origin].settledStep < s.step
  }

  /** A load of key whose value is stored but whose promise is still in flight. */
  predicate BetweenStoreAndFinally(s: State, key: Key, l: nat) {
    l < |s.loads| && s.loads[l].key == key && s.loads[l].stage == Settled && s.loads[l].result.Some?
  }

  lemma OldValueOnlyFromGap(s: State, target: Option<Key>, key: Key, more: seq<Event>, c: nat)
    requires Inv(s) && Covers(target, key) && OldValueReturned(s, target, key, more, c)
    ensures exists l :: BetweenStoreAndFinally(s, key, l)
  {
    var s1 := Step(s, Invalidate(target));
    var t := Exec(Step, s1, more);
    StepInv(s, Invalidate(target));
    RunInv(s1, more);
    assert s1.dropped[|s.dropped|] == (target, s.step) == t.dropped[|s.dropped|];
    OldValueWasLoaded(s, t, target, key, t.calls[c]);
    var l := t.calls[c].reply.value.origin;
    assert s1.loads == s.loads;
    assert BetweenStoreAndFinally(s, key, l);
  }

  /** In t, where the invalidation is on record, such a value came straight from a load. */
  lemma OldValueWasLoaded(s: State, t: State, target: Option<Key>, key: Key, call: Call)
    requires |s.dropped| < |t.dropped| && t.dropped[|s.dropped|] == (target, s.step) && Covers(target, key)
    requires call.key == key && call.calledStep > s.step && call.reply.Some? && !call.reply.value.answer.Thrown?
    requires Justified(t, call) && CallClocked(t, call)
    requires t.loads[call.reply.value.origin].settledStep < s.step
    ensures call.reply.value.answer.FromLoad?
    ensures t.loads[call.reply.value.origin].closedStep > s.step
  {
  }

  lemma GapReturnsOldValue(s: State, target: Option<Key>, key: Key, l: nat)
    requires Inv(s) && Covers(target, key) && BetweenStoreAndFinally(s, key, l)
    ensures OldValueReturned(s, target, key, [Get(key, false, true), Finish(l), Wake(|s.calls|)], |s.calls|)
  {
    var s1 := Step(s, Invalidate(target));
    GapRun(s1, key, l);
    ExecThree(Step, s1, Get(key, false, true), Finish(l), Wake(|s.calls|));
  }

  lemma GapRun(s: State, key: Key, l: nat)
    requires SingleFlight(s) && key !in s.entries && BetweenStoreAndFinally(s, key, l)
    ensures var c := |s.calls|; var t := Step(Step(Step(s, Get(key, false, true)), Finish(l)), Wake(c));
      && c < |t.calls|
      && t.calls[c] == Call(key, false, true, s.now, s.step, Some(l),
          Some(Reply(FromLoad(s.loads[l].result.value), s.now, s.step + 2, l)))
      && l < |t.loads| && t.loads[l].settledStep == s.loads[l].settledStep
  {
    var s1 := Step(s, Get(key, false, true));
    var s2 := Step(s1, Finish(l));
    assert s1.calls[|s.calls|] == Call(key, false, true, s.now, s.step, Some(l), None) && s1.loads == s.loads;
    assert s2.loads[l].stage == Closed && s2.loads[l].result == s.loads[l].result && s2.calls == s1.calls;
  }

  /** A value stored before an invalidation can reach a caller that came after it exactly when, at the
      invalidation, some load of the key stands between its store and its finally callback. */
  lemma InvalidateExact(ttlMs: nat, staleMs: nat, now: Time, evs: seq<Event>, target: Option<Key>, key: Key)
    requires Covers(target, key)
    ensures var s := Exec(Step, Init(ttlMs, staleMs, now), evs);
      (exists more: seq<Event>, c: nat :: OldValueReturned(s, target, key, more, c))
      <==> (exists l :: BetweenStoreAndFinally(s, key, l))
  {
    var s := Exec(Step, Init(ttlMs, staleMs, now), evs);
    RunInv(Init(ttlMs, staleMs, now), evs);
    if l :| BetweenStoreAndFinally(s, key, l) {
      GapReturnsOldValue(s, target, key, l);
    }
    forall more: seq<Event>, c: nat | OldValueReturned(s, target, key, more, c)
      ensures exists l :: BetweenStoreAndFinally(s, key, l)
    {
      OldValueOnlyFromGap(s, target, key, more, c);
    }
  }

  // ----- loads that an invalidation overtakes -----

  /** After s is invalidated and runs on with more, a caller of key that came after the invalidation has been
      answered by a load that began before it; loads are numbered as they begin. */
  predicate AnsweredByEarlierLoad(s: State, target: Option<Key>, key: Key, more: seq<Event>, c: nat) {
    var t := Exec(Step, Step(s, Invalidate(target)), more);
    && c < |t.calls| && t.calls[c].key == key && t.calls[c].calledStep > s.step
    && t.calls[c].reply.Some? && t.calls[c].reply.value.origin < |s.loads|
  }

  /** In t, where the invalidation is on record, the load behind such an answer was not closed before it. */
  lemma EarlierLoadWasOpen(s: State, t: State, target: Option<Key>, key: Key, call: Call)
    requires |s.dropped| < |t.dropped| && t.dropped[|s.dropped|] == (target, s.step) && Covers(target, key)
    requires call.key == key && call.calledStep > s.step && call.reply.Some?
    requires Justified(t, call) && CallClocked(t, call)
    ensures var l := call.reply.value.origin;
      l < |t.loads| && ((t.loads[l].stage == Closed && t.loads[l].closedStep > s.step)
          || t.loads[l].settledStep > s.step)
  {
  }

  lemma AnswerOnlyFromFlight(s: State, target: Option<Key>, key: Key, more: seq<Event>, c: nat)
    requires Inv(s) && CallsAttached(Exec(Step, Step(s, Invalidate(target)), more))
    requires Covers(target, key) && AnsweredByEarlierLoad(s, target, key, more, c)
    ensures key in s.inFlight
  {
    var s1 := Step(s, Invalidate(target));
    var t := Exec(Step, s1, more);
    StepInv(s, Invalidate(target));
    RunInv(s1, more);
    assert s1.dropped[|s.dropped|] == (target, s.step) == t.dropped[|s.dropped|];
    var l := t.calls[c].reply.value.origin;
    EarlierLoadWasOpen(s, t, target, key, t.calls[c]);
    OriginKey(t, t.calls[c]);
    assert s1.loads == s.loads && s.loads[l].key == t.loads[l].key;
    assert s.loads[l].stage != Closed;
  }

  /** An answer comes from a load of the caller's key. */
  lemma OriginKey(t: State, call: Call)
    requires call.reply.Some? && Justified(t, call)
    requires call.load.Some? && call.load.value < |t.loads| ==> t.loads[call.load.value].key == call.key
    ensures call.reply.value.origin < |t.loads| && t.loads[call.reply.value.origin].key == call.key
  {
  }

  /** From a state without an entry for key: a caller joins the load in flight and is given what it ends with. */
  lemma JoinsFlight(s: State, key: Key)
    requires SingleFlight(s) && key !in s.entries && key in s.inFlight
    ensures exists more, c: nat :: AnsweredAfter(s, key, more, c, s.inFlight[key])
  {
    var l, c := s.inFlight[key], |s.calls|;
    var s1 := Step(s, Get(key, false, true));
    assert s1.calls[c] == Call(key, false, true, s.now, s.step, Some(l), None) && s1.loads == s.loads;
    if s.loads[l].stage == Running {
      var s2 := Step(s1, Settle(l, Some("")));
      assert s2.calls == s1.calls && s2.loads[l].stage == Settled;
      ClosedAnswers(s2, l, c);
      ExecFour(s, Get(key, false, true), Settle(l, Some("")), Finish(l), Wake(c));
      assert AnsweredAfter(s, key, [Get(key, false, true)] + [Settle(l, Some(""))] + [Finish(l), Wake(c)], c, l);
    } else {
      ClosedAnswers(s1, l, c);
      ExecThree(Step, s, Get(key, false, true), Finish(l), Wake(c));
      assert AnsweredAfter(s, key, [Get(key, false, true), Finish(l), Wake(c)], c, l);
    }
  }

  /** In a run from s, a caller of key that came in it has been answered by load l. */
  predicate AnsweredAfter(s: State, key: Key, more: seq<Event>, c: nat, l: nat) {
    var t := Exec(Step, s, more);
    && c < |t.calls| && t.calls[c].key == key && t.calls[c].calledStep >= s.step
    && t.calls[c].reply.Some? && t.calls[c].reply.value.origin == l
  }

  /** Once its load has run both callbacks, a waiting caller is answered by it, unless there is a fallback. */
  lemma ClosedAnswers(s: State, l: nat, c: nat)
    requires l < |s.loads| && s.loads[l].stage == Settled
    requires c < |s.calls| && s.calls[c].reply.None? && s.calls[c].load == Some(l)
    requires s.loads[l].result.None? ==> s.calls[c].key !in s.entries
    ensures var t := Step(Step(s, Finish(l)), Wake(c));
      && c < |t.calls| && t.calls[c].key == s.calls[c].key && t.calls[c].calledStep == s.calls[c].calledStep
      && t.calls[c].reply.Some? && t.calls[c].reply.value.origin == l
  {
    var s1 := Step(s, Finish(l));
    assert s1.calls == s.calls && s1.entries == s.entries;
    assert s1.loads[l].stage == Closed && s1.loads[l].result == s.loads[l].result;
  }

  lemma ExecFour(s: State, a: Event, b: Event, c: Event, d: Event)
    ensures Exec(Step, s, [a] + [b] + [c, d]) == Step(Step(Step(Step(s, a), b), c), d)
  {
    ExecThree(Step, s, a, b, c);
    ExecSnoc(Step, s, [a, b, c], d);
    assert [a] + [b] + [c, d] == [a, b, c] + [d];
  }

  /** A caller that comes after an invalidation can be answered by a load begun before it exactly when a load
      of the key is in flight at the invalidation, which leaves it there. */
  lemma OvertakenExactly(ttlMs: nat, staleMs: nat, now: Time, evs: seq<Event>, target: Option<Key>, key: Key)
    requires Covers(target, key)
    ensures var s := Exec(Step, Init(ttlMs, staleMs, now), evs);
      (exists more: seq<Event>, c: nat :: AnsweredByEarlierLoad(s, target, key, more, c)) <==> key in s.inFlight
  {
    var s := Exec(Step, Init(ttlMs, staleMs, now), evs);
    var s1 := Step(s, Invalidate(target));
    RunInv(Init(ttlMs, staleMs, now), evs);
    StepInv(s, Invalidate(target));
    if key in s.inFlight {
      JoinsFlight(s1, key);
      var more, c: nat :| AnsweredAfter(s1, key, more, c, s1.inFlight[key]);
      assert AnsweredByEarlierLoad(s, target, key, more, c);
    }
    forall more: seq<Event>, c: nat | AnsweredByEarlierLoad(s, target, key, more, c) ensures key in s.inFlight {
      RunInv(s1, more);
      AnswerOnlyFromFlight(s, target, key, more, c);
    }
  }
}
