/** The server runtime (v3-server-runtime): one machine per session id, one wheel for all their
    timers, and a record of every session in the store. The first part says what each call
    makes of them; the class does it in place, over the in-memory store. */
module ServerRuntime {
  import opened ByteOrder
  import opened Wrappers
  import opened Protocol
  import opened CoreSpec
  import opened TimerWheel
  import opened CoreTimers
  import S = SessionStore
  import Mem = MemoryStore
  import M = CoreMachine
  import Wire

  datatype Session = Session(core: Core, peerId: string)

  type Entry = (u64, TimerId)

  datatype ServerState = ServerState(
    cfg: Config,
    store: S.Table,
    sessions: map<u64, Session>,
    timers: Wheel<Entry>)

  datatype RuntimeEvent =
    | UnreadableDatagram
    | CoreEvent(cid: u64, event: Event)
    | MessageEvent(cid: u64, msgId: u64, payload: Bytes)

  /** What a call gives out, each message with the session it is sent for, and what it
      schedules. */
  datatype ServerOut = ServerOut(
    sends: seq<(u64, Send)>, events: seq<RuntimeEvent>, scheduled: seq<(nat, Entry)>)

  const NO_OUTPUT: ServerOut := ServerOut([], [], [])

  function Append(a: ServerOut, b: ServerOut): ServerOut {
    ServerOut(a.sends + b.sends, a.events + b.events, a.scheduled + b.scheduled)
  }

  function Decimal(n: nat): string {
    if n < 10 then [('0' as int + n) as char] else Decimal(n / 10) + [('0' as int + n % 10) as char]
  }

  function PeerOfPath(path: u32): string {
    "path:" + Decimal(path)
  }

  // ----------------------------------------------------------------- one session's call

  /** A session not in memory starts from its record if there is a live one, else anew. */
  function Origin(cfg: Config, store: S.Table, cid: u64, path: u32, now: u64): (Config, string) {
    var loaded := S.Live(store, cid, now);
    if loaded.Some? then
      var record := loaded.value.record;
      (Config(record.negotiatedMsrIntervalMs, cfg.missWindowCount, record.disconnectWindowMs), record.peerId)
    else (cfg, PeerOfPath(path))
  }

  function NewSession(s: ServerState, cid: u64, path: u32, now: u64): Session {
    var (cfg, peer) := Origin(s.cfg, s.store, cid, path, now);
    Session(OnPathChanged(Init(Role.Server, cid, cfg), path).core, peer)
  }

  function EnsureLoaded(s: ServerState, cid: u64, path: u32, now: u64): (l: ServerState)
    ensures cid in l.sessions
  {
    if cid in s.sessions then s
    else s.(store := S.Purged(s.store, cid, now), sessions := s.sessions[cid := NewSession(s, cid, path, now)])
  }

  function WithCore(s: ServerState, cid: u64, core: Core): ServerState
    requires cid in s.sessions
  {
    s.(sessions := s.sessions[cid := s.sessions[cid].(core := core)])
  }

  function Ingest(w: Wheel<Entry>, cid: u64, actions: seq<TimerAction>): Wheel<Entry> {
    if actions == [] then w
    else
      var last := actions[|actions| - 1];
      Push(Ingest(w, cid, actions[..|actions| - 1]), last.deadlineMs, (cid, last.id))
  }

  function Scheduled(cid: u64, actions: seq<TimerAction>): (es: seq<(nat, Entry)>)
    ensures |es| == |actions|
    ensures forall i :: 0 <= i < |actions| ==> es[i] == (actions[i].deadlineMs, (cid, actions[i].id))
  {
    seq(|actions|, i requires 0 <= i < |actions| => (actions[i].deadlineMs, (cid, actions[i].id)))
  }

  /** Datagrams without a path of their own go out where the call came in. */
  function Routed(cid: u64, path: u32, sends: seq<Send>): (rs: seq<(u64, Send)>)
    ensures |rs| == |sends|
    ensures forall i :: 0 <= i < |sends| ==>
      rs[i] == (cid, Send(if sends[i].pathId == 0 then path else sends[i].pathId, sends[i].msg))
  {
    seq(|sends|, i requires 0 <= i < |sends| =>
      (cid, Send(if sends[i].pathId == 0 then path else sends[i].pathId, sends[i].msg)))
  }

  function Reported(cid: u64, events: seq<Event>): seq<RuntimeEvent> {
    if events == [] then []
    else
      var e := events[|events| - 1];
      Reported(cid, events[..|events| - 1]) + [CoreEvent(cid, e)]
        + (if e.MessageReceived? then [MessageEvent(cid, e.msgId, e.payload)] else [])
  }

  function RecordOf(s: ServerState, cid: u64): S.SessionRecord
    requires cid in s.sessions
  {
    S.SessionRecord(cid, s.sessions[cid].peerId, s.cfg.msrIntervalMs, s.cfg.disconnectWindowMs,
                    s.sessions[cid].core.lastOrderedRx, 0)
  }

  /** After a call: a session that is Lost leaves memory and store, any other is recorded. */
  function Settle(s: ServerState, cid: u64, now: u64): ServerState {
    if cid !in s.sessions then s
    else if s.sessions[cid].core.state == Lost then
      s.(store := s.store - {cid}, sessions := s.sessions - {cid})
    else s.(store := Mem.Upserted(s.store, cid, RecordOf(s, cid), s.cfg.disconnectWindowMs, now))
  }

  function ApplyOutput(s: ServerState, cid: u64, path: u32, now: u64, o: Out): (ServerState, ServerOut) {
    (Settle(s.(timers := Ingest(s.timers, cid, o.timers)), cid, now),
     ServerOut(Routed(cid, path, o.sends), Reported(cid, o.events), Scheduled(cid, o.timers)))
  }

  /** Hand a step's result on: a failed step changed its machine and nothing else. */
  function Conclude(s: ServerState, cid: u64, path: u32, now: u64, step: Step)
    : (r: (ServerState, Result<ServerOut, CoreError>))
    requires cid in s.sessions
    ensures r.1.Ok? <==> step.out.Ok?
  {
    var moved := WithCore(s, cid, step.core);
    if step.out.Err? then (moved, Err(step.out.error))
    else
      var r := ApplyOutput(moved, cid, path, now, step.out.value);
      (r.0, Ok(r.1))
  }

  // ------------------------------------------------------------------------ the calls

  function Deliver(s: ServerState, cid: u64, now: u64, path: u32, bytes: Bytes):
    (ServerState, Result<ServerOut, CoreError>)
    requires cid in s.sessions
  {
    Conclude(s, cid, path, now, OnDatagram(s.sessions[cid].core, now, path, bytes))
  }

  function Receive(s: ServerState, now: u64, path: u32, bytes: Bytes): (ServerState, Result<ServerOut, CoreError>) {
    var f := Wire.Decode(bytes);
    if f.Err? then (s, Ok(ServerOut([], [UnreadableDatagram], [])))
    else
      var cid := f.value.cid;
      Deliver(EnsureLoaded(s, cid, path, now), cid, now, path, bytes)
  }

  /** Message ids are 64-bit; a call that would exhaust them is outside the model. */
  predicate CanSubmit(s: ServerState, cid: u64) {
    cid in s.sessions ==> s.sessions[cid].core.nextOutboundId < U64_MAX
  }

  function Submit(s: ServerState, cid: u64, payload: Bytes, now: u64): (ServerState, Result<ServerOut, CoreError>)
    requires CanSubmit(s, cid)
  {
    if cid !in s.sessions then (s, Ok(NO_OUTPUT))
    else Conclude(s, cid, 0, now, OnApiSend(s.sessions[cid].core, payload))
  }

  /** Take one entry out of the wheel and fire it, if its session still exists. */
  function Fire(s: ServerState, now: u64, e: (nat, Entry)): (ServerState, ServerOut) {
    var taken := s.(timers := Without(s.timers, e.0, e.1));
    var cid := e.1.0;
    if cid !in s.sessions then (taken, NO_OUTPUT)
    else
      FireTimer(taken, cid, now, e.1.1)
  }

  function FireTimer(s: ServerState, cid: u64, now: u64, id: TimerId): (ServerState, ServerOut)
    requires cid in s.sessions
  {
    TimerRules(s.sessions[cid].core, now, id);
    var r := Conclude(s, cid, 0, now, OnTimer(s.sessions[cid].core, now, id));
    (r.0, r.1.value)
  }

  function FireAll(s: ServerState, now: u64, due: seq<(nat, Entry)>): (ServerState, ServerOut) {
    if due == [] then (s, NO_OUTPUT)
    else
      var front := FireAll(s, now, due[..|due| - 1]);
      var last := Fire(front.0, now, due[|due| - 1]);
      (last.0, Append(front.1, last.1))
  }

  function Poll(s: ServerState, now: u64, limit: nat): (ServerState, ServerOut) {
    FireAll(s, now, Due(s.timers, now, limit))
  }

  function Boot(cfg: Config): ServerState {
    ServerState(cfg, map[], map[], map[])
  }

  // --------------------------------------------------------------------- the runtime

  datatype Output = Output(datagrams: seq<OutboundDatagram>, events: seq<RuntimeEvent>)

  ghost predicate Shows(o: ServerOut, r: Output) {
    && |r.datagrams| == |o.sends|
    && (forall i :: 0 <= i < |o.sends| ==> IsDatagramOf(o.sends[i], r.datagrams[i]))
    && r.events == o.events
  }

  /** The bytes of a message for its session. */
  ghost predicate IsDatagramOf(s: (u64, Send), d: OutboundDatagram) {
    WellFormed(s.1.msg) && d == OutboundDatagram(s.1.pathId, Render(s.0, s.1.msg))
  }

  ghost predicate Reports(o: Result<ServerOut, CoreError>, r: Result<Output, CoreError>) {
    if o.Err? then r == Err(o.error) else r.Ok? && Shows(o.value, r.value)
  }

  lemma ShowsNothing()
    ensures Shows(NO_OUTPUT, Output([], []))
    ensures Shows(ServerOut([], [UnreadableDatagram], []), Output([], [UnreadableDatagram]))
  {
  }

  lemma ShowsAppend(a: ServerOut, b: ServerOut, x: Output, y: Output)
    requires Shows(a, x) && Shows(b, y)
    ensures Shows(Append(a, b), Output(x.datagrams + y.datagrams, x.events + y.events))
  {
    hide IsDatagramOf;
  }

  lemma ShowsRouted(cid: u64, path: u32, o: Out, out: CoreOutput, ds: seq<OutboundDatagram>)
    requires M.Produces(cid, o, out) && |ds| == |out.datagrams|
    requires forall i :: 0 <= i < |ds| ==> ds[i] == Reroute(path, out.datagrams[i])
    ensures Shows(ServerOut(Routed(cid, path, o.sends), Reported(cid, o.events), Scheduled(cid, o.timers)),
                  Output(ds, Reported(cid, o.events)))
  {
    hide Render;
  }

  function Reroute(path: u32, d: OutboundDatagram): OutboundDatagram {
    OutboundDatagram(if d.pathId == 0 then path else d.pathId, d.bytes)
  }

  datatype SessionRuntime = SessionRuntime(core: M.CoreMachine, peerId: string)

  class ServerRuntime {
    const cfg: Config
    const store: Mem.InMemorySessionStore
    var sessions: map<u64, SessionRuntime>
    var timers: Wheel<Entry>

    /** The machines of all sessions so far. */
    ghost var cores: set<M.CoreMachine>

    /** Each session has a machine of its own, and that machine bears the session's id. */
    ghost predicate Valid()
      reads this, store, cores
    {
      && store.Valid()
      && (forall a :: a in sessions ==> sessions[a].core in cores && sessions[a].core.cid == a)
    }

    ghost function Sessions(): map<u64, Session>
      reads this, cores
      requires forall a :: a in sessions ==> sessions[a].core in cores
    {
      map cid | cid in sessions :: Session(sessions[cid].core.View(), sessions[cid].peerId)
    }

    ghost function View(): ServerState
      reads this, store, cores
      requires Valid()
    {
      ServerState(cfg, store.Contents(), Sessions(), timers)
    }

    constructor (cfg: Config, store: Mem.InMemorySessionStore)
      requires store.Valid()
      ensures Valid() && this.store == store && sessions == map[]
      ensures View() == ServerState(cfg, store.Contents(), map[], map[])
    {
      this.cfg, this.store, sessions, timers, cores := cfg, store, map[], map[], {};
    }

    /** The configuration and peer name of a session about to start. */
    method LookUp(cid: u64, srcPathId: u32, now: u64) returns (sessionCfg: Config, peerId: string)
      requires store.Valid()
      modifies store
      ensures store.Valid() && store.Contents() == S.Purged(old(store.Contents()), cid, now)
      ensures (sessionCfg, peerId) == Origin(cfg, old(store.Contents()), cid, srcPathId, now)
    {
      hide S.Next, Mem.Placed, Mem.Flat, Decimal;
      var loaded := store.Load(cid, now);
      if loaded.Some? {
        var record := loaded.value.record;
        return Config(record.negotiatedMsrIntervalMs, cfg.missWindowCount, record.disconnectWindowMs), record.peerId;
      }
      return cfg, PeerOfPath(srcPathId);
    }

    static method NewMachine(cid: u64, srcPathId: u32, cfg: Config) returns (core: M.CoreMachine)
      ensures fresh(core) && core.cid == cid
      ensures core.View() == OnPathChanged(Init(Role.Server, cid, cfg), srcPathId).core
    {
      core := new M.CoreMachine(Role.Server, cid, cfg);
      var unused := core.OnPathEvent(srcPathId);
    }

    method EnsureSessionLoaded(cid: u64, srcPathId: u32, now: u64)
      requires Valid()
      modifies this`sessions, this`cores, store
      ensures Valid() && fresh(cores - old(cores)) && cid in sessions
      ensures View() == EnsureLoaded(old(View()), cid, srcPathId, now)
    {
      hide S.Next, Mem.Placed, Mem.Flat, S.Live, S.Purged, PeerOfPath, Origin, M.CoreMachine.View, OnPathChanged;
      if cid in sessions {
        return;
      }
      var sessionCfg, peerId := LookUp(cid, srcPathId, now);
      assert Sessions() == old(Sessions());
      var core := NewMachine(cid, srcPathId, sessionCfg);
      AddSession(cid, core, peerId);
    }

    method AddSession(cid: u64, core: M.CoreMachine, peerId: string)
      requires Valid() && core.cid == cid
      modifies this`sessions, this`cores
      ensures Valid() && cores == old(cores) + {core} && cid in sessions
      ensures View() == old(View()).(sessions := old(Sessions())[cid := Session(core.View(), peerId)])
    {
      hide Mem.Placed, Mem.Flat, M.CoreMachine.View;
      cores := cores + {core};
      sessions := sessions[cid := SessionRuntime(core, peerId)];
    }

    method IngestTimers(cid: u64, actions: seq<TimerAction>)
      modifies this`timers
      ensures timers == Ingest(old(timers), cid, actions)
    {
      var i := 0;
      while i < |actions|
        invariant 0 <= i <= |actions|
        invariant timers == Ingest(old(timers), cid, actions[..i])
      {
        var a := actions[i];
        assert actions[..i + 1][..i] == actions[..i];
        var slot := if a.deadlineMs in timers then timers[a.deadlineMs] else [];
        timers := timers[a.deadlineMs := slot + [(cid, a.id)]];
        i := i + 1;
      }
      assert actions[..i] == actions;
    }

    static method ReportEvents(cid: u64, events: seq<Event>) returns (reported: seq<RuntimeEvent>)
      ensures reported == Reported(cid, events)
    {
      reported := [];
      var i := 0;
      while i < |events|
        invariant 0 <= i <= |events|
        invariant reported == Reported(cid, events[..i])
      {
        assert events[..i + 1][..i] == events[..i];
        reported := reported + [CoreEvent(cid, events[i])];
        if events[i].MessageReceived? {
          reported := reported + [MessageEvent(cid, events[i].msgId, events[i].payload)];
        }
        i := i + 1;
      }
      assert events[..i] == events;
    }

    /** Remove a session that is Lost, record any other. */
    method SettleSession(cid: u64, now: u64)
      requires Valid()
      modifies this`sessions, store
      ensures Valid() && cores == old(cores)
      ensures View() == Settle(old(View()), cid, now)
    {
      hide S.Next, Mem.Placed, Mem.Flat, Mem.Upserted, S.Stamp;
      if cid in sessions {
        if sessions[cid].core.state == Lost {
          store.Delete(cid);
          assert Sessions() == old(Sessions());
          sessions := sessions - {cid};
          assert Sessions() == old(Sessions()) - {cid};
        } else {
          var record := S.SessionRecord(cid, sessions[cid].peerId, cfg.msrIntervalMs, cfg.disconnectWindowMs,
                                        sessions[cid].core.lastOrderedRx, 0);
          assert record == RecordOf(View(), cid);
          var unused := store.Upsert(cid, record, cfg.disconnectWindowMs, now);
          assert Sessions() == old(Sessions());
        }
      }
    }

    method ApplyCoreOutput(cid: u64, srcPathId: u32, now: u64, ghost o: Out, out: CoreOutput) returns (r: Output)
      requires Valid() && M.Produces(cid, o, out)
      modifies this`sessions, this`timers, store
      ensures Valid() && cores == old(cores)
      ensures View() == ApplyOutput(old(View()), cid, srcPathId, now, o).0
      ensures Shows(ApplyOutput(old(View()), cid, srcPathId, now, o).1, r)
    {
      hide Settle, Ingest, Render, Mem.Placed, Mem.Flat, M.Renders, Shows;
      var events := ReportEvents(cid, out.events);
      IngestTimers(cid, out.timers);
      var datagrams :=
        seq(|out.datagrams|, i requires 0 <= i < |out.datagrams| => Reroute(srcPathId, out.datagrams[i]));
      ShowsRouted(cid, srcPathId, o, out, datagrams);
      assert View() == old(View()).(timers := Ingest(old(timers), cid, o.timers));
      SettleSession(cid, now);
      r := Output(datagrams, events);
    }

    /** When one session's machine is all that changed, so is that session all that changed. */
    twostate lemma OneCoreMoved(cid: u64)
      requires old(Valid()) && cid in sessions
      requires unchanged(this) && unchanged(store)
      requires forall a :: a in sessions && a != cid ==> unchanged(sessions[a].core)
      ensures Valid() && View() == WithCore(old(View()), cid, sessions[cid].core.View())
    {
      hide Mem.Placed, Mem.Flat, M.CoreMachine.View;
      var before, after := old(Sessions()), Sessions();
      forall a | a in sessions && a != cid
        ensures after[a] == before[a]
      {
        assert sessions[a].core.View() == old(sessions[a].core.View());
      }
    }

    /** Pass on what a machine's call returned. */
    method Relay(cid: u64, srcPathId: u32, now: u64, ghost before: ServerState, ghost step: Step,
                 result: Result<CoreOutput, CoreError>)
      returns (r: Result<Output, CoreError>)
      requires Valid() && cid in before.sessions && View() == WithCore(before, cid, step.core)
      requires M.Returns(cid, step, result)
      modifies this`sessions, this`timers, store
      ensures Valid() && cores == old(cores)
      ensures View() == Conclude(before, cid, srcPathId, now, step).0
      ensures Reports(Conclude(before, cid, srcPathId, now, step).1, r)
    {
      hide ApplyOutput, M.Produces, Shows, Mem.Placed, Mem.Flat;
      if result.Err? {
        return Err(result.error);
      }
      var shown := ApplyCoreOutput(cid, srcPathId, now, step.out.value, result.value);
      return Ok(shown);
    }

    method DeliverDatagram(cid: u64, now: u64, srcPathId: u32, bytes: Bytes) returns (r: Result<Output, CoreError>)
      requires Valid() && cid in sessions
      modifies this`sessions, this`timers, store, cores
      ensures Valid() && cores == old(cores)
      ensures View() == Deliver(old(View()), cid, now, srcPathId, bytes).0
      ensures Reports(Deliver(old(View()), cid, now, srcPathId, bytes).1, r)
    {
      hide Conclude, CoreSpec.OnDatagram, M.Produces, Mem.Placed, Mem.Flat, Shows, WithCore, M.CoreMachine.View;
      var core := sessions[cid].core;
      ghost var step := CoreSpec.OnDatagram(core.View(), now, srcPathId, bytes);
      var result := core.OnDatagram(now, srcPathId, bytes);
      OneCoreMoved(cid);
      r := Relay(cid, srcPathId, now, old(View()), step, result);
    }

    method OnDatagram(now: u64, srcPathId: u32, bytes: Bytes) returns (r: Result<Output, CoreError>)
      requires Valid()
      modifies this`sessions, this`timers, this`cores, store, cores
      ensures Valid() && fresh(cores - old(cores))
      ensures View() == Receive(old(View()), now, srcPathId, bytes).0
      ensures Reports(Receive(old(View()), now, srcPathId, bytes).1, r)
    {
      hide Deliver, EnsureLoaded, Mem.Placed, Mem.Flat, Wire.Decode, M.CoreMachine.View, Shows;
      var frame := Wire.DecodeFrame(bytes);
      if frame.Err? {
        ShowsNothing();
        return Ok(Output([], [UnreadableDatagram]));
      }
      EnsureSessionLoaded(frame.value.cid, srcPathId, now);
      r := DeliverDatagram(frame.value.cid, now, srcPathId, bytes);
    }

    method SendMessage(cid: u64, payload: Bytes, now: u64) returns (r: Result<Output, CoreError>)
      requires Valid() && CanSubmit(View(), cid)
      modifies this`sessions, this`timers, store, cores
      ensures Valid() && cores == old(cores)
      ensures View() == Submit(old(View()), cid, payload, now).0
      ensures Reports(Submit(old(View()), cid, payload, now).1, r)
    {
      hide Conclude, CoreSpec.OnApiSend, M.Produces, Mem.Placed, Mem.Flat, Shows, WithCore;
      if cid !in sessions {
        ShowsNothing();
        return Ok(Output([], []));
      }
      var core := sessions[cid].core;
      ghost var step := CoreSpec.OnApiSend(core.View(), payload);
      var result := core.OnApiSend(payload);
      OneCoreMoved(cid);
      r := Relay(cid, 0, now, old(View()), step, result);
    }

    method FireSessionTimer(cid: u64, now: u64, id: TimerId) returns (r: Result<Output, CoreError>)
      requires Valid() && cid in sessions
      modifies this`sessions, this`timers, store, cores
      ensures Valid() && cores == old(cores)
      ensures View() == FireTimer(old(View()), cid, now, id).0
      ensures r.Ok? && Shows(FireTimer(old(View()), cid, now, id).1, r.value)
    {
      hide Conclude, CoreSpec.OnTimer, M.Produces, Mem.Placed, Mem.Flat, Shows, WithCore, M.CoreMachine.View;
      var core := sessions[cid].core;
      TimerRules(core.View(), now, id);
      ghost var step := CoreSpec.OnTimer(core.View(), now, id);
      var result := core.OnTimer(now, id);
      OneCoreMoved(cid);
      r := Relay(cid, 0, now, old(View()), step, result);
    }

    method FireEntry(now: u64, entry: (nat, Entry)) returns (r: Result<Output, CoreError>)
      requires Valid()
      modifies this`sessions, this`timers, store, cores
      ensures Valid() && cores == old(cores)
      ensures View() == Fire(old(View()), now, entry).0
      ensures r.Ok? && Shows(Fire(old(View()), now, entry).1, r.value)
    {
      hide FireTimer, Mem.Placed, Mem.Flat, Shows, Without, M.CoreMachine.View;
      timers := Pop(timers, entry.0, entry.1);
      assert View() == old(View()).(timers := Without(old(timers), entry.0, entry.1));
      if entry.1.0 !in sessions {
        ShowsNothing();
        return Ok(Output([], []));
      }
      r := FireSessionTimer(entry.1.0, now, entry.1.1);
    }

    method PollTimers(now: u64, limit: nat) returns (r: Result<Output, CoreError>)
      requires Valid()
      modifies this`sessions, this`timers, store, cores
      ensures Valid() && cores == old(cores)
      ensures View() == Poll(old(View()), now, limit).0
      ensures r.Ok? && Shows(Poll(old(View()), now, limit).1, r.value)
    {
      hide Fire, Shows, Due, Mem.Placed, Mem.Flat;
      var output := Output([], []);
      var due := CollectDue(timers, now, limit);
      var i := 0;
      ShowsNothing();
      while i < |due|
        invariant 0 <= i <= |due|
        invariant Valid() && cores == old(cores)
        invariant View() == FireAll(old(View()), now, due[..i]).0
        invariant Shows(FireAll(old(View()), now, due[..i]).1, output)
      {
        assert due[..i + 1][..i] == due[..i];
        ghost var before := FireAll(old(View()), now, due[..i]);
        var partial := FireEntry(now, due[i]);
        if partial.Err? {
          return partial;
        }
        ShowsAppend(before.1, Fire(before.0, now, due[i]).1, output, partial.value);
        output := Output(output.datagrams + partial.value.datagrams, output.events + partial.value.events);
        i := i + 1;
      }
      assert due[..i] == due;
      return Ok(output);
    }
  }
}
