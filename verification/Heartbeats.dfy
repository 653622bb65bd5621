/** The Windows agent's heartbeat queue: LocalStore's table and AgentWorker's tick, under any pattern of
    failing sends and of the process dying between a send and the delete that follows it. */
module Heartbeats {
  import opened Runs

  const LIMIT: nat := 20

  /** The stored text by what deserializing it gives: an object, the JSON null, or an exception. */
  datatype Payload = Doc(text: string) | JsonNull | Malformed(text: string)

  datatype Item = Item(id: nat, payload: Payload)

  /** One call to the central server: its answer, an exception (the server may still have taken the
      message), or the end of the process during or right after the call. */
  datatype Reply = Accepted | Rejected(received: bool) | Cut(received: bool)

  datatype End = Finished | Threw | Died

  /** The table, and the history the properties speak of: every row ever inserted, every row deleted, every
      queued row the server took (with repetitions) and every payload it took directly. */
  datatype State = State(queue: seq<Item>, lastId: nat, enqueued: seq<Item>, removed: seq<Item>,
                         received: seq<Item>, live: seq<string>)

  const EMPTY := State([], 0, [], [], [], [])

  datatype Tick = Tick(text: string, paired: bool, alerts: nat, net: seq<Reply>)

  // ----- what each operation does to the state -----

  function Reached(r: Reply): bool {
    r.Accepted? || r.received
  }

  function First(items: seq<Item>, limit: nat): seq<Item> {
    if |items| <= limit then items else items[..limit]
  }

  function Without(items: seq<Item>, id: nat): seq<Item> {
    if items == [] then [] else (if items[0].id == id then [] else [items[0]]) + Without(items[1..], id)
  }

  function Matching(items: seq<Item>, id: nat): seq<Item> {
    if items == [] then [] else (if items[0].id == id then [items[0]] else []) + Matching(items[1..], id)
  }

  function Enqueued(s: State, payload: Payload): State {
    var item := Item(s.lastId + 1, payload);
    s.(queue := s.queue + [item], lastId := s.lastId + 1, enqueued := s.enqueued + [item])
  }

  function Deleted(s: State, id: nat): State {
    s.(queue := Without(s.queue, id), removed := s.removed + Matching(s.queue, id))
  }

  function Took(s: State, item: Item, r: Reply): State {
    if Reached(r) then s.(received := s.received + [item]) else s
  }

  /** FlushQueueAsync over the list read at its start: the new state, how it ended, the replies not used. */
  function Flushed(s: State, items: seq<Item>, net: seq<Reply>): (State, End, seq<Reply>)
    decreases |items|
  {
    if items == [] then (s, Finished, net)
    else if items[0].payload.JsonNull? then Flushed(Deleted(s, items[0].id), items[1..], net)
    else if items[0].payload.Malformed? then (s, Threw, net)
    else if net == [] then (s, Died, net)
    else
      var s' := Took(s, items[0], net[0]);
      match net[0]
      case Accepted => Flushed(Deleted(s', items[0].id), items[1..], net[1..])
      case Rejected(_) => (s', Threw, net[1..])
      case Cut(_) => (s', Died, net[1..])
  }

  /** How sending n alerts one after the other ends. */
  function AlertsEnd(n: nat, net: seq<Reply>): End {
    if n == 0 then Finished
    else if net == [] then Died
    else match net[0]
      case Accepted => AlertsEnd(n - 1, net[1..])
      case Rejected(_) => Threw
      case Cut(_) => Died
  }

  /** The part of TickAsync after the flush: send, alert, and enqueue when either throws. */
  function Sent(s: State, t: Tick, net: seq<Reply>): (State, End) {
    if net == [] then (s, Died)
    else
      var s' := if Reached(net[0]) then s.(live := s.live + [t.text]) else s;
      var end := match net[0]
        case Accepted => AlertsEnd(t.alerts, net[1..])
        case Rejected(_) => Threw
        case Cut(_) => Died;
      (if end == Threw then Enqueued(s', Doc(t.text)) else s', end)
  }

  function Ticked(s: State, t: Tick): (State, End) {
    if !t.paired then (s, Threw) else AfterFlush(t, Flushed(s, First(s.queue, LIMIT), t.net))
  }

  function AfterFlush(t: Tick, flushed: (State, End, seq<Reply>)): (State, End) {
    if flushed.1 == Finished then Sent(flushed.0, t, flushed.2) else (flushed.0, flushed.1)
  }

  function Step(s: State, t: Tick): State {
    Ticked(s, t).0
  }

  // ----- the classes -----

  class LocalStore {
    var queue: seq<Item>
    var lastId: nat

    constructor ()
      ensures queue == [] && lastId == 0
    {
      queue, lastId := [], 0;
    }

    method EnqueueHeartbeat(payload: Payload)
      modifies this
      ensures lastId == old(lastId) + 1
      ensures queue == old(queue) + [Item(lastId, payload)]
    {
      lastId := lastId + 1;
      queue := queue + [Item(lastId, payload)];
    }

    method GetQueuedHeartbeats(limit: nat) returns (items: seq<Item>)
      ensures items == First(queue, limit)
      ensures items <= queue && |items| == if |queue| < limit then |queue| else limit
    {
      items := [];
      while |items| < |queue| && |items| < limit
        invariant |items| <= |queue| && |items| <= limit
        invariant items == queue[..|items|]
      {
        items := items + [queue[|items|]];
      }
    }

    method DeleteQueuedHeartbeat(id: nat)
      modifies this
      ensures queue == Without(old(queue), id) && lastId == old(lastId)
    {
      var rest, i := [], 0;
      while i < |queue|
        invariant 0 <= i <= |queue|
        invariant queue == old(queue) && lastId == old(lastId)
        invariant Without(queue, id) == rest + Without(queue[i..], id)
      {
        if queue[i].id != id {
          rest := rest + [queue[i]];
        }
        i := i + 1;
      }
      queue := rest;
    }
  }

  class AgentWorker {
    const store: LocalStore
    ghost var enqueued: seq<Item>
    ghost var removed: seq<Item>
    ghost var received: seq<Item>
    ghost var live: seq<string>

    ghost function View(): State
      reads this, store
    {
      State(store.queue, store.lastId, enqueued, removed, received, live)
    }

    constructor (store: LocalStore)
      requires store.queue == [] && store.lastId == 0
      ensures this.store == store && View() == EMPTY
    {
      this.store := store;
      enqueued, removed, received, live := [], [], [], [];
    }

    method FlushQueue(net: seq<Reply>) returns (end: End, left: seq<Reply>)
      modifies this, store
      ensures (View(), end, left) == Flushed(old(View()), First(old(store.queue), LIMIT), net)
    {
      var items := store.GetQueuedHeartbeats(LIMIT);
      var i := 0;
      end, left := Finished, net;
      while i < |items|
        invariant 0 <= i <= |items| && end == Finished
        invariant Flushed(View(), items[i..], left) == Flushed(old(View()), items, net)
      {
        var queued := items[i];
        if queued.payload.JsonNull? {
          removed := removed + Matching(store.queue, queued.id);
          store.DeleteQueuedHeartbeat(queued.id);
        } else if queued.payload.Malformed? {
          end := Threw;
          return;
        } else if left == [] {
          end := Died;
          return;
        } else {
          var reply := left[0];
          left := left[1..];
          if Reached(reply) {
            received := received + [queued];
          }
          if !reply.Accepted? {
            end := if reply.Rejected? then Threw else Died;
            return;
          }
          removed := removed + Matching(store.queue, queued.id);
          store.DeleteQueuedHeartbeat(queued.id);
        }
        i := i + 1;
      }
    }

    method SendAlerts(alerts: nat, net: seq<Reply>) returns (end: End)
      ensures end == AlertsEnd(alerts, net)
    {
      var i := 0;
      while i < alerts
        invariant 0 <= i <= alerts && i <= |net|
        invariant AlertsEnd(alerts - i, net[i..]) == AlertsEnd(alerts, net)
      {
        if i == |net| {
          return Died;
        }
        if !net[i].Accepted? {
          return if net[i].Rejected? then Threw else Died;
        }
        i := i + 1;
      }
      end := Finished;
    }

    method TickAsync(t: Tick) returns (end: End)
      modifies this, store
      ensures (View(), end) == Ticked(old(View()), t)
    {
      if !t.paired {
        return Threw;
      }
      var net;
      end, net := FlushQueue(t.net);
      if end != Finished {
        return;
      }
      if net == [] {
        return Died;
      }
      if Reached(net[0]) {
        live := live + [t.text];
      }
      if net[0].Accepted? {
        end := SendAlerts(t.alerts, net[1..]);
      } else {
        end := if net[0].Rejected? then Threw else Died;
      }
      if end == Threw {
        store.EnqueueHeartbeat(Doc(t.text));
        enqueued := enqueued + [Item(store.lastId, Doc(t.text))];
      }
    }
  }

  // ----- conservation, order, delivery -----

  ghost predicate Ascending(items: seq<Item>) {
    forall i, j :: 0 <= i < j < |items| ==> items[i].id < items[j].id
  }

  /** A log with immediate repetitions of the same row dropped. */
  function Collapsed(log: seq<Item>): seq<Item>
    decreases |log|
  {
    if log == [] then []
    else
      var front := Collapsed(log[..|log| - 1]);
      var x := log[|log| - 1];
      if front != [] && front[|front| - 1] == x then front else front + [x]
  }

  /** The rows whose payload is a document, in order. */
  function Docs(items: seq<Item>): seq<Item>
    decreases |items|
  {
    if items == [] then []
    else
      var x := items[|items| - 1];
      Docs(items[..|items| - 1]) + if x.payload.Doc? then [x] else []
  }

  /** Rows leave from the front only, and apart from immediate repetitions the server has taken exactly the
      removed documents in enqueue order, or those and the row now at the head of the queue. */
  ghost predicate Inv(s: State) {
    && s.enqueued == s.removed + s.queue
    && Ascending(s.enqueued)
    && (forall item :: item in s.enqueued ==> item.id <= s.lastId)
    && (Collapsed(s.received) == Docs(s.removed)
        || (s.queue != [] && s.queue[0].payload.Doc? && Collapsed(s.received) == Docs(s.removed) + [s.queue[0]]))
  }

  lemma {:induction false} WithoutNone(items: seq<Item>, id: nat)
    requires forall item :: item in items ==> item.id != id
    ensures Without(items, id) == items && Matching(items, id) == []
  {
    if items != [] {
      assert items[0] in items && items == [items[0]] + items[1..];
      assert forall item :: item in items[1..] ==> item in items;
      WithoutNone(items[1..], id);
    }
  }

  lemma HeadIsUnique(s: State)
    requires Inv(s) && s.queue != []
    ensures s.queue[0] !in s.removed
    ensures forall item :: item in s.queue[1..] ==> item.id != s.queue[0].id
  {
    var m := |s.removed|;
    assert s.enqueued[m] == s.queue[0];
    forall k | 0 <= k < m ensures s.removed[k] != s.queue[0] {
      assert s.enqueued[k] == s.removed[k];
    }
    forall k | 0 <= k < |s.queue[1..]| ensures s.queue[1..][k].id != s.queue[0].id {
      assert s.enqueued[m + 1 + k] == s.queue[1..][k];
    }
  }

  lemma WithoutFirst(items: seq<Item>)
    requires items != [] && forall item :: item in items[1..] ==> item.id != items[0].id
    ensures Without(items, items[0].id) == items[1..] && Matching(items, items[0].id) == [items[0]]
  {
    WithoutNone(items[1..], items[0].id);
    assert Without(items, items[0].id) == [] + items[1..];
    assert Matching(items, items[0].id) == [items[0]] + [];
  }

  /** Deleting the head by its id takes that one row and leaves the others. */
  lemma DeleteHead(s: State)
    requires Inv(s) && s.queue != []
    ensures Deleted(s, s.queue[0].id) == s.(queue := s.queue[1..], removed := s.removed + [s.queue[0]])
    ensures s.removed + s.queue == (s.removed + [s.queue[0]]) + s.queue[1..]
  {
    HeadIsUnique(s);
    WithoutFirst(s.queue);
  }

  lemma {:induction false} DocsFrom(items: seq<Item>, item: Item)
    requires item in Docs(items)
    ensures item in items
    decreases |items|
  {
    if items[|items| - 1] != item {
      DocsFrom(items[..|items| - 1], item);
    }
  }

  lemma DocsSnoc(items: seq<Item>, x: Item)
    ensures Docs(items + [x]) == Docs(items) + if x.payload.Doc? then [x] else []
  {
    assert (items + [x])[..|items|] == items;
  }

  /** The server taking the head document keeps the invariant and leaves it as the last one taken. */
  lemma TakeHead(s: State)
    requires Inv(s) && s.queue != [] && s.queue[0].payload.Doc?
    ensures Collapsed(s.received + [s.queue[0]]) == Docs(s.removed) + [s.queue[0]]
  {
    var h := s.queue[0];
    assert (s.received + [h])[..|s.received|] == s.received;
    var c := Collapsed(s.received);
    if c == Docs(s.removed) && c != [] && c[|c| - 1] == h {
      DocsFrom(s.removed, h);
      HeadIsUnique(s);
      assert false;
    }
  }

  lemma {:induction false} FlushKeeps(s: State, items: seq<Item>, net: seq<Reply>)
    requires Inv(s) && items <= s.queue
    ensures Inv(Flushed(s, items, net).0)
    ensures Flushed(s, items, net).0.enqueued == s.enqueued && Flushed(s, items, net).0.live == s.live
    ensures |Flushed(s, items, net).0.received| <= |s.received| + |items|
    decreases |items|
  {
    if items != [] && !items[0].payload.Malformed? {
      var h := items[0];
      assert h == s.queue[0];
      if h.payload.JsonNull? {
        DeleteHead(s);
        DocsSnoc(s.removed, h);
        assert items[1..] <= s.queue[1..];
        FlushKeeps(Deleted(s, h.id), items[1..], net);
      } else if net != [] {
        var s' := Took(s, h, net[0]);
        TakeHead(s);
        if net[0].Accepted? {
          DeleteHead(s');
          DocsSnoc(s.removed, h);
          assert items[1..] <= s.queue[1..];
          FlushKeeps(Deleted(s', h.id), items[1..], net[1..]);
        }
      }
    }
  }

  lemma EnqueueKeeps(s: State, payload: Payload)
    requires Inv(s)
    ensures Inv(Enqueued(s, payload))
  {
    var s' := Enqueued(s, payload);
    var item := s'.enqueued[|s.enqueued|];
    assert s'.enqueued == s.removed + (s.queue + [item]);
    forall i | 0 <= i < |s.enqueued| ensures s'.enqueued[i].id < item.id {
      assert s.enqueued[i] in s.enqueued;
    }
  }

  lemma TickKeeps(s: State, t: Tick)
    requires Inv(s)
    ensures Inv(Step(s, t))
    ensures |Step(s, t).enqueued| <= |s.enqueued| + 1
    ensures |Step(s, t).received| <= |s.received| + LIMIT
    ensures |Step(s, t).live| <= |s.live| + 1
  {
    if t.paired {
      FlushKeeps(s, First(s.queue, LIMIT), t.net);
      var (s1, end, net) := Flushed(s, First(s.queue, LIMIT), t.net);
      if end == Finished && net != [] {
        var s2 := if Reached(net[0]) then s1.(live := s1.live + [t.text]) else s1;
        EnqueueKeeps(s2, Doc(t.text));
      }
    }
  }

  lemma {:induction false} RunKeeps(s: State, ticks: seq<Tick>)
    requires Inv(s)
    ensures Inv(Exec(Step, s, ticks))
    decreases |ticks|
  {
    if ticks != [] {
      RunKeeps(s, ticks[..|ticks| - 1]);
      TickKeeps(Exec(Step, s, ticks[..|ticks| - 1]), ticks[|ticks| - 1]);
    }
  }

  lemma {:induction false} CollapsedSame(log: seq<Item>, item: Item)
    ensures item in Collapsed(log) <==> item in log
    decreases |log|
  {
    if log != [] {
      CollapsedSame(log[..|log| - 1], item);
      assert log == log[..|log| - 1] + [log[|log| - 1]];
    }
  }

  lemma {:induction false} DocsAll(items: seq<Item>, item: Item)
    requires item in items && item.payload.Doc?
    ensures item in Docs(items)
    decreases |items|
  {
    assert items == items[..|items| - 1] + [items[|items| - 1]];
    if items[|items| - 1] != item {
      DocsAll(items[..|items| - 1], item);
    }
  }

  /** Over any run of ticks: nothing enqueued is lost or reordered, a document leaves the queue only after
      the server took it, and the server never takes a queued row ahead of an earlier one. */
  lemma QueueConserved(ticks: seq<Tick>)
    ensures var s := Exec(Step, EMPTY, ticks);
      && s.enqueued == s.removed + s.queue
      && (forall item :: item in s.removed && item.payload.Doc? ==> item in s.received)
      && (Collapsed(s.received) == Docs(s.removed)
          || (s.queue != [] && Collapsed(s.received) == Docs(s.removed) + [s.queue[0]]))
  {
    RunKeeps(EMPTY, ticks);
    var s := Exec(Step, EMPTY, ticks);
    forall item | item in s.removed && item.payload.Doc? ensures item in s.received {
      DocsAll(s.removed, item);
      CollapsedSame(s.received, item);
    }
  }

  lemma {:induction false} OnlyDocuments(ticks: seq<Tick>)
    ensures forall item :: item in Exec(Step, EMPTY, ticks).enqueued ==> item.payload.Doc?
    decreases |ticks|
  {
    if ticks != [] {
      var s, t := Exec(Step, EMPTY, ticks[..|ticks| - 1]), ticks[|ticks| - 1];
      OnlyDocuments(ticks[..|ticks| - 1]);
      RunKeeps(EMPTY, ticks[..|ticks| - 1]);
      if t.paired {
        FlushKeeps(s, First(s.queue, LIMIT), t.net);
      }
    }
  }

  /** The rows a tick itself enqueues are documents, so in a run from an empty table no row is ever deleted
      unsent, whatever the null branch of the flush does. */
  lemma RemovedWereReceived(ticks: seq<Tick>, item: Item)
    requires item in Exec(Step, EMPTY, ticks).removed
    ensures item in Exec(Step, EMPTY, ticks).received
  {
    QueueConserved(ticks);
    OnlyDocuments(ticks);
    assert item in Exec(Step, EMPTY, ticks).enqueued;
  }

  lemma {:induction false} LastIdKept(s: State, items: seq<Item>, net: seq<Reply>)
    ensures Flushed(s, items, net).0.lastId == s.lastId
    decreases |items|
  {
    if items != [] {
      LastIdKept(Deleted(s, items[0].id), items[1..], net);
      if net != [] {
        LastIdKept(Deleted(Took(s, items[0], net[0]), items[0].id), items[1..], net[1..]);
      }
    }
  }

  /** The send of a tick that was not cut short puts the payload on the server or in the queue. */
  lemma SendKeepsPayload(s: State, t: Tick, net: seq<Reply>)
    requires Sent(s, t, net).1 != Died
    ensures Kept(s, Sent(s, t, net).0, t.text)
  {
  }

  ghost predicate Kept(before: State, after: State, text: string) {
    || after.live == before.live + [text]
    || after.enqueued == before.enqueued + [Item(before.lastId + 1, Doc(text))]
  }

  /** The flush touches neither what was enqueued, nor what was sent directly, nor the row counter. */
  ghost predicate Framed(s: State, s': State) {
    s'.enqueued == s.enqueued && s'.live == s.live && s'.lastId == s.lastId
  }

  lemma KeptIfFramed(s: State, t: Tick, flushed: (State, End, seq<Reply>))
    requires Framed(s, flushed.0)
    requires AfterFlush(t, flushed).1 != Died
    ensures Kept(s, AfterFlush(t, flushed).0, t.text) <==> flushed.1 == Finished
  {
    if flushed.1 == Finished {
      SendKeepsPayload(flushed.0, t, flushed.2);
    } else {
      NotKept(s, flushed.0, t.text);
    }
  }

  lemma NotKept(s: State, s': State, text: string)
    requires Framed(s, s')
    ensures !Kept(s, s', text)
  {
    assert |s'.live| == |s.live| && |s'.enqueued| == |s.enqueued|;
  }

  predicate AllAccepted(net: seq<Reply>, n: nat) {
    |net| >= n && forall i :: 0 <= i < n ==> net[i].Accepted?
  }

  /** A flush of documents finishes exactly when each of its sends is accepted. */
  lemma {:induction false} FlushFinishes(s: State, items: seq<Item>, net: seq<Reply>)
    requires forall item :: item in items ==> item.payload.Doc?
    ensures Flushed(s, items, net).1 == Finished <==> AllAccepted(net, |items|)
    decreases |items|
  {
    if items != [] {
      assert items[0] in items && forall item :: item in items[1..] ==> item in items;
      if net != [] && net[0].Accepted? {
        FlushFinishes(Deleted(Took(s, items[0], net[0]), items[0].id), items[1..], net[1..]);
        assert AllAccepted(net, |items|) <==> AllAccepted(net[1..], |items| - 1) by {
          assert forall i :: 0 < i < |net| ==> net[i] == net[1..][i - 1];
        }
      }
    }
  }

  /** How many queued rows a tick sends before its own payload. */
  function Backlog(s: State): nat {
    if |s.queue| <= LIMIT then |s.queue| else LIMIT
  }

  /** After any run of ticks, a tick that is not cut short keeps its own payload, on the server or in the queue,
      if and only if it is paired and the server accepts every queued row sent ahead of it. */
  lemma TickPayloadKept(ticks: seq<Tick>, t: Tick)
    requires Ticked(Exec(Step, EMPTY, ticks), t).1 != Died
    ensures var s := Exec(Step, EMPTY, ticks);
      Kept(s, Step(s, t), t.text) <==> t.paired && AllAccepted(t.net, Backlog(s))
  {
    var s := Exec(Step, EMPTY, ticks);
    var items := First(s.queue, LIMIT);
    RunKeeps(EMPTY, ticks);
    OnlyDocuments(ticks);
    forall item | item in items ensures item.payload.Doc? {
      assert item in s.enqueued;
    }
    FlushFinishes(s, items, t.net);
    FlushKeeps(s, items, t.net);
    LastIdKept(s, items, t.net);
    if t.paired {
      KeptIfFramed(s, t, Flushed(s, items, t.net));
    } else {
      NotKept(s, s, t.text);
    }
  }

  /** The server refuses twice: the first payload is queued, the second is dropped. */
  lemma SecondPayloadLost(first: string, second: string)
    ensures var s := Exec(Step, EMPTY, [Tick(first, true, 0, [Rejected(false)])]
                                + [Tick(second, true, 0, [Rejected(false)])]);
      s.enqueued == s.queue == [Item(1, Doc(first))] && s.live == []
  {
    var t1, t2 := Tick(first, true, 0, [Rejected(false)]), Tick(second, true, 0, [Rejected(false)]);
    var s1 := EMPTY.(queue := [Item(1, Doc(first))], lastId := 1, enqueued := [Item(1, Doc(first))]);
    ExecSnoc(Step, EMPTY, [], t1);
    ExecSnoc(Step, EMPTY, [t1], t2);
    assert [] + [t1] == [t1];
    assert Step(EMPTY, t1) == s1;
    assert t2.net[1..] == [];
    assert Flushed(s1, s1.queue, t2.net) == (s1, Threw, []);
  }

  // ----- exactly what a flush and a tick do -----

  /** m is the number of rows that are accepted before the first that is not, or before either list ends. */
  predicate AcceptedFirst(net: seq<Reply>, n: nat, m: nat) {
    && m <= n && m <= |net| && (forall i :: 0 <= i < m ==> net[i].Accepted?)
    && (m == n || m == |net| || !net[m].Accepted?)
  }

  /** What the server has of the row it did not accept. */
  function Leftover(items: seq<Item>, net: seq<Reply>, m: nat): seq<Item> {
    if m < |items| && m < |net| && !net[m].Accepted? && net[m].received then [items[m]] else []
  }

  /** The head of the queue, sent and accepted. */
  function HeadSent(s: State): State
    requires s.queue != []
  {
    s.(queue := s.queue[1..], removed := s.removed + [s.queue[0]], received := s.received + [s.queue[0]])
  }

  lemma HeadAccepted(s: State)
    requires Inv(s) && s.queue != [] && s.queue[0].payload.Doc?
    ensures Deleted(Took(s, s.queue[0], Accepted), s.queue[0].id) == HeadSent(s) && Inv(HeadSent(s))
  {
    var h := s.queue[0];
    TakeHead(s);
    DeleteHead(Took(s, h, Accepted));
    DocsSnoc(s.removed, h);
  }

  function Sending(s: State, items: seq<Item>, net: seq<Reply>, m: nat): State
    requires m <= |s.queue| && m <= |items|
  {
    s.(queue := s.queue[m..], removed := s.removed + items[..m],
       received := s.received + items[..m] + Leftover(items, net, m))
  }

  lemma SendingNext(s: State, items: seq<Item>, net: seq<Reply>, m: nat)
    requires 0 < m <= |items| && m <= |net| && items != [] && items <= s.queue
    ensures Sending(HeadSent(s), items[1..], net[1..], m - 1) == Sending(s, items, net, m)
  {
    var h := items[0];
    assert h == s.queue[0];
    assert items[1..][..m - 1] == items[1..m] && [h] + items[1..m] == items[..m];
    assert s.queue[1..][m - 1..] == s.queue[m..];
    assert s.removed + [h] + items[1..m] == s.removed + items[..m];
    assert s.received + [h] + items[1..m] == s.received + items[..m];
    assert Leftover(items[1..], net[1..], m - 1) == Leftover(items, net, m);
  }

  lemma NoneAccepted(s: State, items: seq<Item>, net: seq<Reply>)
    requires items <= s.queue && AcceptedFirst(net, |items|, 0) && forall item :: item in items ==> item.payload.Doc?
    ensures var (t, end, left) := Flushed(s, items, net);
      t == Sending(s, items, net, 0) && (end == Finished <==> items == []) && (end == Finished ==> left == net[0..])
  {
    assert s.queue[0..] == s.queue && net[0..] == net && items[..0] == [] && s.removed + [] == s.removed;
    assert s.received + [] == s.received;
    if items != [] {
      assert items[0] in items;
    }
  }

  lemma FlushNext(s: State, items: seq<Item>, net: seq<Reply>)
    requires items != [] && items[0].payload.Doc? && net != [] && net[0].Accepted?
    ensures Flushed(s, items, net)
         == Flushed(Deleted(Took(s, items[0], Accepted), items[0].id), items[1..], net[1..])
  {
    assert net[0] == Accepted;
  }

  /** Of n documents from the front of the queue, the first m leave it in order, the next is at most received,
      and no more replies than that are used. */
  ghost predicate EndsAt(f: (State, End, seq<Reply>), s: State, items: seq<Item>, net: seq<Reply>, m: nat)
    requires m <= |items| && m <= |net| && items <= s.queue
  {
    && f.0 == s.(queue := s.queue[m..], removed := s.removed + items[..m],
                 received := s.received + items[..m] + Leftover(items, net, m))
    && (f.1 == Finished <==> m == |items|) && (f.1 == Finished ==> f.2 == net[m..])
  }

  lemma EndsLater(f: (State, End, seq<Reply>), s: State, items: seq<Item>, net: seq<Reply>, m: nat)
    requires 0 < m <= |items| && m <= |net| && items <= s.queue && items[1..] <= HeadSent(s).queue
    requires EndsAt(f, HeadSent(s), items[1..], net[1..], m - 1)
    ensures EndsAt(f, s, items, net, m)
  {
    SendingNext(s, items, net, m);
    assert net[1..][m - 1..] == net[m..];
  }

  /** What a flush starts from: a reachable queue with documents in front, of which the first m are accepted. */
  ghost predicate FlushStart(s: State, items: seq<Item>, net: seq<Reply>, m: nat) {
    Inv(s) && items <= s.queue && AcceptedFirst(net, |items|, m) && forall item :: item in items ==> item.payload.Doc?
  }

  lemma StartNext(s: State, items: seq<Item>, net: seq<Reply>, m: nat)
    requires FlushStart(s, items, net, m) && m > 0
    ensures FlushStart(HeadSent(s), items[1..], net[1..], m - 1)
    ensures Flushed(s, items, net) == Flushed(HeadSent(s), items[1..], net[1..])
  {
    assert items[0] in items && items[0] == s.queue[0] && net[0].Accepted?;
    HeadAccepted(s);
    FlushNext(s, items, net);
    assert items[1..] <= s.queue[1..] && forall item :: item in items[1..] ==> item in items;
  }

  /** A flush that starts so ends exactly there. */
  lemma {:induction false} FlushExactly(s: State, items: seq<Item>, net: seq<Reply>, m: nat)
    requires FlushStart(s, items, net, m)
    ensures EndsAt(Flushed(s, items, net), s, items, net, m)
    decreases |items|
  {
    if m == 0 {
      NoneAccepted(s, items, net);
    } else {
      StartNext(s, items, net, m);
      FlushExactly(HeadSent(s), items[1..], net[1..], m - 1);
      EndsLater(Flushed(s, items, net), s, items, net, m);
    }
  }

  /** A row whose text is the JSON null is deleted unsent, and one that does not parse ends the flush. */
  lemma FlushOdd(s: State, net: seq<Reply>)
    requires Inv(s) && s.queue != []
    ensures s.queue[0].payload.JsonNull? ==>
      Flushed(s, [s.queue[0]], net) == (s.(queue := s.queue[1..], removed := s.removed + [s.queue[0]]), Finished, net)
    ensures s.queue[0].payload.Malformed? ==> Flushed(s, s.queue, net) == (s, Threw, net)
  {
    if s.queue[0].payload.JsonNull? {
      DeleteHead(s);
      assert [s.queue[0]][1..] == [];
    }
  }

  /** Alert k is the first of n that is not accepted, and the server or the network refused it. */
  predicate RefusedAt(net: seq<Reply>, n: nat, k: int) {
    0 <= k < n && k < |net| && net[k].Rejected? && forall j :: 0 <= j < k ==> net[j].Accepted?
  }

  lemma {:induction false} AlertsExactly(n: nat, net: seq<Reply>)
    ensures AlertsEnd(n, net) == Threw <==> exists k :: RefusedAt(net, n, k)
    decreases n
  {
    if n > 0 && net != [] && net[0].Accepted? {
      var rest, left := net[1..], n - 1;
      AlertsExactly(left, rest);
      if k :| RefusedAt(rest, left, k) {
        assert forall j :: 0 < j < |net| ==> net[j] == net[1..][j - 1];
        assert RefusedAt(net, n, k + 1);
      }
      if k :| RefusedAt(net, n, k) {
        assert RefusedAt(net[1..], n - 1, k - 1);
      }
    } else if n > 0 && net != [] && net[0].Rejected? {
      assert RefusedAt(net, n, 0);
    }
  }

  /** The reply to the tick's own payload and those to its alerts make it be enqueued. */
  ghost predicate SendThrows(net: seq<Reply>, alerts: nat) {
    net != [] && (net[0].Rejected? || (net[0].Accepted? && exists k :: RefusedAt(net[1..], alerts, k)))
  }

  /** After any run, where b rows are sent ahead: the payload is enqueued, as the last row under a new id, if and
      only if the tick is paired, those are all accepted, and then the send or one of its alerts throws; the
      server has it directly if and only if it answered that send or took it all the same. */
  lemma TickExactly(ticks: seq<Tick>, t: Tick)
    ensures var s := Exec(Step, EMPTY, ticks); var u := Step(s, t); var b := Backlog(s);
      var sends := t.paired && AllAccepted(t.net, b);
      && u.enqueued
         == s.enqueued + (if sends && SendThrows(t.net[b..], t.alerts) then [Item(s.lastId + 1, Doc(t.text))] else [])
      && u.live == s.live + (if sends && |t.net| > b && (t.net[b].Accepted? || t.net[b].received) then [t.text] else [])
  {
    var s := Exec(Step, EMPTY, ticks);
    var items, b := First(s.queue, LIMIT), Backlog(s);
    RunKeeps(EMPTY, ticks);
    OnlyDocuments(ticks);
    forall item | item in items ensures item.payload.Doc? {
      assert item in s.enqueued;
    }
    if t.paired {
      var m := LeadingAccepted(t.net, b);
      FlushExactly(s, items, t.net, m);
      AfterExactFlush(s, t, Flushed(s, items, t.net), m, b);
    }
  }

  /** The rest of a tick, whose flush finished exactly when all b rows ahead were accepted. */
  lemma AfterExactFlush(s: State, t: Tick, flushed: (State, End, seq<Reply>), m: nat, b: nat)
    requires Framed(s, flushed.0) && m <= |t.net| && (m == b <==> AllAccepted(t.net, b))
    requires flushed.1 == Finished <==> m == b
    requires flushed.1 == Finished ==> flushed.2 == t.net[m..]
    ensures var u := AfterFlush(t, flushed).0; var sends := AllAccepted(t.net, b);
      && u.enqueued
         == s.enqueued + (if sends && SendThrows(t.net[b..], t.alerts) then [Item(s.lastId + 1, Doc(t.text))] else [])
      && u.live == s.live + (if sends && |t.net| > b && (t.net[b].Accepted? || t.net[b].received) then [t.text] else [])
  {
    if m == b {
      SentExactly(flushed.0, t, t.net[b..]);
    }
    assert s.enqueued + [] == s.enqueued && s.live + [] == s.live;
  }

  lemma {:induction false} LeadingAccepted(net: seq<Reply>, n: nat) returns (m: nat)
    ensures AcceptedFirst(net, n, m) && (m == n <==> AllAccepted(net, n))
    decreases n
  {
    if n == 0 {
      m := 0;
    } else {
      m := LeadingAccepted(net, n - 1);
      if m == n - 1 && m < |net| && net[m].Accepted? {
        m := n;
      }
    }
  }

  lemma SentExactly(s: State, t: Tick, net: seq<Reply>)
    ensures var u := Sent(s, t, net).0;
      && u.enqueued == s.enqueued + (if SendThrows(net, t.alerts) then [Item(s.lastId + 1, Doc(t.text))] else [])
      && u.live == s.live + (if net != [] && (net[0].Accepted? || net[0].received) then [t.text] else [])
  {
    if net != [] {
      AlertsExactly(t.alerts, net[1..]);
    }
    assert s.enqueued + [] == s.enqueued && s.live + [] == s.live;
  }
}
