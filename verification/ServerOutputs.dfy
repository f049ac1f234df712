/** What the server gives out for a session, call by call over whole runs: what a lone machine
    gives out for the same inputs, its datagrams routed and its messages reported once more. */
module ServerOutputs {
  import opened ByteOrder
  import opened Wrappers
  import opened Protocol
  import opened CoreSpec
  import opened Receiver
  import opened MachineRuns
  import opened TimerWheel
  import opened CoreTimers
  import opened ServerRuntime
  import opened ServerTimers
  import opened ServerIsolation
  import Mem = MemoryStore
  import Wire

  /** The machine's events among those reported, in order. */
  function CoreEvents(events: seq<RuntimeEvent>): seq<Event> {
    if events == [] then []
    else
      var e := events[|events| - 1];
      CoreEvents(events[..|events| - 1]) + (if e.CoreEvent? then [e.event] else [])
  }

  /** The messages among the events reported, in order. */
  function Messages(events: seq<RuntimeEvent>): seq<(u64, Bytes)> {
    if events == [] then []
    else
      var e := events[|events| - 1];
      Messages(events[..|events| - 1]) + (if e.MessageEvent? then [(e.msgId, e.payload)] else [])
  }

  lemma {:induction false} EventsConcat(a: seq<RuntimeEvent>, b: seq<RuntimeEvent>)
    ensures CoreEvents(a + b) == CoreEvents(a) + CoreEvents(b)
    ensures Messages(a + b) == Messages(a) + Messages(b)
  {
    if b == [] {
      assert a + b == a;
    } else {
      var n := |b| - 1;
      EventsConcat(a, b[..n]);
      assert (a + b)[..|a + b| - 1] == a + b[..n];
    }
  }

  /** The outputs are those of a machine: its datagrams in order, for this session, those
      without a path sent where the call came in; its events in order; each message received
      also reported as such. */
  ghost predicate GivesOut(o: ServerOut, cid: u64, path: u32, sends: seq<Send>, events: seq<Event>) {
    && |o.sends| == |sends|
    && (forall i :: 0 <= i < |sends| ==>
          && o.sends[i].0 == cid && o.sends[i].1.msg == sends[i].msg
          && o.sends[i].1.pathId == if sends[i].pathId == 0 then path else sends[i].pathId)
    && CoreEvents(o.events) == events && Messages(o.events) == Received(events)
  }

  lemma GivesOutTogether(a: ServerOut, b: ServerOut, cid: u64, path: u32,
                         s: seq<Send>, t: seq<Send>, e: seq<Event>, f: seq<Event>)
    requires GivesOut(a, cid, path, s, e) && GivesOut(b, cid, path, t, f)
    ensures GivesOut(Append(a, b), cid, path, s + t, e + f)
  {
    EventsConcat(a.events, b.events);
    ReceivedConcat(e, f);
  }

  lemma {:induction false} ReportedGivesOut(cid: u64, events: seq<Event>)
    ensures CoreEvents(Reported(cid, events)) == events && Messages(Reported(cid, events)) == Received(events)
  {
    if events != [] {
      var n := |events| - 1;
      ReportedGivesOut(cid, events[..n]);
      var e := events[n];
      var last := [CoreEvent(cid, e)] + (if e.MessageReceived? then [MessageEvent(cid, e.msgId, e.payload)] else []);
      assert Reported(cid, events) == Reported(cid, events[..n]) + last;
      EventsConcat(Reported(cid, events[..n]), last);
      LastReported(cid, e);
      assert events == events[..n] + [e];
      ReceivedConcat(events[..n], [e]);
    }
  }

  lemma LastReported(cid: u64, e: Event)
    ensures var more := if e.MessageReceived? then [MessageEvent(cid, e.msgId, e.payload)] else [];
      var last := [CoreEvent(cid, e)] + more;
      CoreEvents(last) == [e] && Messages(last) == Received([e])
  {
    var first := [CoreEvent(cid, e)];
    assert first[..0] == [];
    assert CoreEvents(first) == [e] && Messages(first) == [];
    assert [e][1..] == [];
    if e.MessageReceived? {
      var second := [MessageEvent(cid, e.msgId, e.payload)];
      assert second[..0] == [];
      assert CoreEvents(second) == [] && Messages(second) == [(e.msgId, e.payload)];
      EventsConcat(first, second);
    } else {
      assert first + [] == first;
    }
  }

  lemma ConcludeGivesOut(s: ServerState, cid: u64, path: u32, now: u64, step: Step)
    requires cid in s.sessions && step.out.Ok?
    ensures GivesOut(Conclude(s, cid, path, now, step).1.value, cid, path, step.out.value.sends, step.out.value.events)
  {
    hide Ingest, Settle, Reported, Scheduled;
    ReportedGivesOut(cid, step.out.value.events);
  }

  lemma NothingGivesOut(cid: u64, path: u32)
    ensures GivesOut(NO_OUTPUT, cid, path, [], [])
  {
  }

  // ------------------------------------------------------------------- no proposals pending

  /** A server never proposes, so nothing is ever pending. */
  ghost predicate NonePending(s: ServerState) {
    forall cid :: cid in s.sessions ==> s.sessions[cid].core.pendingLocal == None
  }

  lemma ConcludeNonePending(s: ServerState, owner: u64, path: u32, now: u64, step: Step)
    requires owner in s.sessions && NonePending(s) && step.core.pendingLocal == None
    ensures NonePending(Conclude(s, owner, path, now, step).0)
  {
    hide Ingest, Reported, Routed, Scheduled, Mem.Upserted, RecordOf;
  }

  lemma FireNonePending(s: ServerState, now: u64, e: (nat, Entry))
    requires NonePending(s)
    ensures NonePending(Fire(s, now, e).0)
  {
    hide Conclude, OnTimer, Without, NonePending;
    var taken := s.(timers := Without(s.timers, e.0, e.1));
    NonePendingElsewhere(s, taken);
    if e.1.0 in s.sessions {
      TimerRules(s.sessions[e.1.0].core, now, e.1.1);
      TimerNonePending(s, e.1.0, now, e.1.1);
      ConcludeNonePending(taken, e.1.0, 0, now, OnTimer(s.sessions[e.1.0].core, now, e.1.1));
    }
  }

  lemma NonePendingElsewhere(s: ServerState, t: ServerState)
    requires NonePending(s) && t.sessions == s.sessions
    ensures NonePending(t)
  {
  }

  lemma TimerNonePending(s: ServerState, cid: u64, now: u64, id: TimerId)
    requires NonePending(s) && cid in s.sessions
    ensures OnTimer(s.sessions[cid].core, now, id).core.pendingLocal == None
  {
  }

  lemma {:induction false} FireAllNonePending(s: ServerState, now: u64, due: seq<(nat, Entry)>)
    requires NonePending(s)
    ensures NonePending(FireAll(s, now, due).0)
    decreases |due|
  {
    hide Fire, NonePending;
    if due != [] {
      FireAllNonePending(s, now, due[..|due| - 1]);
      FireNonePending(FireAll(s, now, due[..|due| - 1]).0, now, due[|due| - 1]);
    }
  }

  lemma ReceiveNonePending(s: ServerState, now: u64, path: u32, bytes: Bytes)
    requires NonePending(s)
    ensures NonePending(Receive(s, now, path, bytes).0)
  {
    hide Conclude, OnDatagram, Wire.Decode, PeerOfPath;
    var f := Wire.Decode(bytes);
    if f.Ok? {
      var cid := f.value.cid;
      var l := EnsureLoaded(s, cid, path, now);
      assert NonePending(l);
      DatagramTimers(l.sessions[cid].core, now, path, bytes);
      ConcludeNonePending(l, cid, path, now, OnDatagram(l.sessions[cid].core, now, path, bytes));
    }
  }

  lemma SubmitNonePending(s: ServerState, to: u64, payload: Bytes, now: u64)
    requires NonePending(s) && CanSubmit(s, to)
    ensures NonePending(Submit(s, to, payload, now).0)
  {
    hide Conclude, MaxPending;
    if to in s.sessions {
      assert OnApiSend(s.sessions[to].core, payload).core.pendingLocal == s.sessions[to].core.pendingLocal;
      ConcludeNonePending(s, to, 0, now, OnApiSend(s.sessions[to].core, payload));
    }
  }

  lemma NextNonePending(s: ServerState, c: Call)
    requires NonePending(s)
    ensures NonePending(Next(s, c))
  {
    hide Receive, Submit, FireAll, Due, NonePending;
    match c
    case Receives(now, path, bytes) => ReceiveNonePending(s, now, path, bytes);
    case Submits(to, payload, now) =>
      if CanSubmit(s, to) {
        SubmitNonePending(s, to, payload, now);
      }
    case Polls(now, limit) => FireAllNonePending(s, now, Due(s.timers, now, limit));
  }

  lemma {:induction false} PlayNonePending(s: ServerState, calls: seq<Call>)
    requires NonePending(s)
    ensures NonePending(Play(s, calls))
    decreases |calls|
  {
    hide Next, NonePending;
    if calls != [] {
      NextNonePending(s, calls[0]);
      PlayNonePending(Next(s, calls[0]), calls[1..]);
    }
  }

  // ------------------------------------------------------------------------- the calls

  lemma RunOneInput(t: Trace, i: Input)
    requires Allowed(t.core, i)
    ensures var s := Apply(t.core, i);
      Run(t, [i]) == Trace(s.core, if s.out.Ok? then Plus(t.out, s.out.value) else t.out)
  {
    hide Apply;
    assert [i][1..] == [];
    assert Run(MachineRuns.Advance(t, i), []) == MachineRuns.Advance(t, i);
  }

  lemma LostTimersAreSilent(c: Core, now: nat, id: TimerId)
    requires c.state == Lost && c.pendingLocal == None
    ensures var s := OnTimer(c, now, id);
      s.out.Ok? && s.core == c && s.out.value.sends == [] && s.out.value.events == []
  {
  }

  /** The session's machine has come as far as the lone one, or both have ended. */
  ghost predicate KeepsUp(s: ServerState, cid: u64, t: Trace) {
    && t.core.pendingLocal == None
    && (if cid in s.sessions then s.sessions[cid].core == t.core else t.core.state == Lost)
  }

  lemma FireGivesOut(s: ServerState, now: u64, e: (nat, Entry), cid: u64, t: Trace, before: ServerOut)
    requires KeepsUp(s, cid, t) && GivesOut(before, cid, 0, t.out.sends, t.out.events)
    ensures var f := Fire(s, now, e);
      var u := Run(t, if e.1.0 == cid then [Timer(now, e.1.1)] else []);
      && KeepsUp(f.0, cid, u)
      && GivesOut(Append(before, OwnOut(f.1, cid)), cid, 0, u.out.sends, u.out.events)
  {
    hide Conclude, OnTimer, Without, GivesOut, Keep;
    var taken := s.(timers := Without(s.timers, e.0, e.1));
    var owner := e.1.0;
    if owner == cid {
      RunOneInput(t, Timer(now, e.1.1));
      TimerRules(t.core, now, e.1.1);
      var step := OnTimer(t.core, now, e.1.1);
      TimerKeepsNone(t.core, now, e.1.1);
      if cid in s.sessions {
        ConcludeGivesOut(taken, cid, 0, now, step);
        ConcludeOwn(taken, cid, 0, now, step);
        GivesOutTogether(before, Conclude(taken, cid, 0, now, step).1.value, cid, 0, t.out.sends, step.out.value.sends,
                         t.out.events, step.out.value.events);
      } else {
        LostTimersAreSilent(t.core, now, e.1.1);
        OwnNothing(cid);
        AppendNothing(before);
        assert t.out.sends + [] == t.out.sends && t.out.events + [] == t.out.events;
      }
    } else {
      assert Run(t, []) == t;
      AppendNothing(before);
      OwnNothing(cid);
      if owner in s.sessions {
        TimerRules(s.sessions[owner].core, now, e.1.1);
        ConcludeAlone(taken, owner, 0, now, OnTimer(s.sessions[owner].core, now, e.1.1), cid);
        ConcludeSessions(taken, owner, 0, now, OnTimer(s.sessions[owner].core, now, e.1.1), cid);
      }
    }
  }

  lemma TimerKeepsNone(c: Core, now: nat, id: TimerId)
    requires c.pendingLocal == None
    ensures OnTimer(c, now, id).core.pendingLocal == None
  {
  }

  lemma OwnNothing(cid: u64)
    ensures OwnOut(NO_OUTPUT, cid) == NO_OUTPUT
  {
  }

  /** After handing on its own step, a session is where the step is, or lost; its output is all
      its own. */
  lemma ConcludeOwn(s: ServerState, cid: u64, path: u32, now: u64, step: Step)
    requires cid in s.sessions && step.out.Ok?
    ensures var r := Conclude(s, cid, path, now, step);
      && (if cid in r.0.sessions then r.0.sessions[cid].core == step.core else step.core.state == Lost)
      && OwnOut(r.1.value, cid) == r.1.value
  {
    hide Ingest, Own, Reported, Routed, Scheduled, Mem.Upserted, RecordOf;
    ConcludeAlone(s, cid, path, now, step, cid);
  }

  lemma {:induction false} FireAllGivesOut(s: ServerState, now: u64, due: seq<(nat, Entry)>, cid: u64)
    requires cid in s.sessions && NonePending(s)
    ensures var f := FireAll(s, now, due);
      var t := Run(Trace(s.sessions[cid].core, NOTHING), TimerInputs(due, cid, now));
      KeepsUp(f.0, cid, t) && GivesOut(OwnOut(f.1, cid), cid, 0, t.out.sends, t.out.events)
    decreases |due|
  {
    hide Fire, GivesOut, Run, Keep;
    var start := Trace(s.sessions[cid].core, NOTHING);
    if due == [] {
      OwnNothing(cid);
      NothingGivesOut(cid, 0);
      RunNothing(start);
    } else {
      var n := |due| - 1;
      FireAllGivesOut(s, now, due[..n], cid);
      var front := FireAll(s, now, due[..n]);
      var t := Run(start, TimerInputs(due[..n], cid, now));
      FireGivesOut(front.0, now, due[n], cid, t, OwnOut(front.1, cid));
      OwnAppend(front.1, Fire(front.0, now, due[n]).1, cid);
      RunConcat(start, TimerInputs(due[..n], cid, now), if due[n].1.0 == cid then [Timer(now, due[n].1.1)] else []);
    }
  }

  lemma RunNothing(t: Trace)
    ensures Run(t, []) == t
  {
  }

  /** What a call gives out; a failed one gives out nothing. */
  function OutputOfCall(s: ServerState, c: Call): ServerOut {
    match c
    case Receives(now, path, bytes) =>
      var r := Receive(s, now, path, bytes).1;
      if r.Ok? then r.value else NO_OUTPUT
    case Submits(to, payload, now) =>
      if !CanSubmit(s, to) then NO_OUTPUT
      else
        var r := Submit(s, to, payload, now).1;
        if r.Ok? then r.value else NO_OUTPUT
    case Polls(now, limit) => Poll(s, now, limit).1
  }

  function PathOf(c: Call): u32 {
    if c.Receives? then c.path else 0
  }

  lemma StepGivesOut(s: ServerState, cid: u64, path: u32, now: u64, i: Input)
    requires cid in s.sessions && Allowed(s.sessions[cid].core, i)
    ensures var r := Conclude(s, cid, path, now, Apply(s.sessions[cid].core, i)).1;
      var t := Run(Trace(s.sessions[cid].core, NOTHING), [i]);
      GivesOut(OwnOut(if r.Ok? then r.value else NO_OUTPUT, cid), cid, path, t.out.sends, t.out.events)
  {
    hide Conclude, Apply, GivesOut, Keep;
    var step := Apply(s.sessions[cid].core, i);
    RunOneInput(Trace(s.sessions[cid].core, NOTHING), i);
    if step.out.Ok? {
      ConcludeGivesOut(s, cid, path, now, step);
      ConcludeOwn(s, cid, path, now, step);
      assert [] + step.out.value.sends == step.out.value.sends && [] + step.out.value.events == step.out.value.events;
    } else {
      OwnNothing(cid);
      NothingGivesOut(cid, path);
    }
  }

  lemma ReceiveGivesOut(s: ServerState, now: u64, path: u32, bytes: Bytes, cid: u64)
    requires Recorded(s)
    ensures var c := Receives(now, path, bytes);
      var t := Run(Trace(Origins(s, cid), NOTHING), Feed(s, c, cid));
      GivesOut(OwnOut(OutputOfCall(s, c), cid), cid, path, t.out.sends, t.out.events)
  {
    hide Conclude, OnDatagram, Wire.Decode, GivesOut, Keep, PeerOfPath, Run;
    var f := Wire.Decode(bytes);
    RunNothing(Trace(Origins(s, cid), NOTHING));
    NothingGivesOut(cid, path);
    OwnNothing(cid);
    if f.Err? {
      OwnUnreadable(cid);
      GivesNothing(cid, path);
    } else {
      var owner := f.value.cid;
      var l := EnsureLoaded(s, owner, path, now);
      var i := Datagram(now, path, bytes);
      if owner == cid {
        StepGivesOut(l, cid, path, now, i);
        if cid !in s.sessions {
          StartsOnPath(s.cfg, cid, path, i);
        } else {
          assert [] + [i] == [i];
        }
      } else {
        ConcludeAlone(l, owner, path, now, OnDatagram(l.sessions[owner].core, now, path, bytes), cid);
      }
    }
  }

  lemma OwnUnreadable(cid: u64)
    ensures OwnOut(ServerOut([], [UnreadableDatagram], []), cid) == NO_OUTPUT
  {
    KeepNone([UnreadableDatagram], OfEvent, cid);
  }

  lemma GivesNothing(cid: u64, path: u32)
    ensures GivesOut(NO_OUTPUT, cid, path, [], [])
  {
  }

  /** A new machine told its path, then fed. */
  lemma StartsOnPath(cfg: Config, cid: u64, path: u32, i: Input)
    requires i.Datagram?
    ensures var born := Init(Role.Server, cid, cfg);
      Run(Trace(born, NOTHING), [PathChanged(path)] + [i]) == Run(Trace(OnPathChanged(born, path).core, NOTHING), [i])
  {
    var born := Init(Role.Server, cid, cfg);
    RunConcat(Trace(born, NOTHING), [PathChanged(path)], [i]);
    RunOneInput(Trace(born, NOTHING), PathChanged(path));
    assert Plus(NOTHING, NOTHING) == NOTHING;
  }

  lemma SubmitGivesOut(s: ServerState, to: u64, payload: Bytes, now: u64, cid: u64)
    ensures var c := Submits(to, payload, now);
      var t := Run(Trace(Origins(s, cid), NOTHING), Feed(s, c, cid));
      GivesOut(OwnOut(OutputOfCall(s, c), cid), cid, 0, t.out.sends, t.out.events)
  {
    hide Conclude, OnApiSend, GivesOut, Keep, Run;
    RunNothing(Trace(Origins(s, cid), NOTHING));
    NothingGivesOut(cid, 0);
    OwnNothing(cid);
    if CanSubmit(s, to) && to in s.sessions {
      if to == cid {
        StepGivesOut(s, cid, 0, now, SendMessage(payload));
      } else {
        ConcludeAlone(s, to, 0, now, OnApiSend(s.sessions[to].core, payload), cid);
        SubmitSucceeds(s.sessions[to].core, payload);
      }
    }
  }

  lemma SubmitSucceeds(c: Core, payload: Bytes)
    requires c.nextOutboundId < U64_MAX
    ensures OnApiSend(c, payload).out.Ok?
  {
  }

  /** In every run from an empty store, and for every session: what a call gives out for it is
      what a lone machine, where the session's machine stands, gives out for the inputs the
      call feeds it, in order and nothing else. */
  lemma EachCallGivesOutAsLone(cfg: Config, calls: seq<Call>, c: Call, cid: u64)
    ensures var s := Play(Boot(cfg), calls);
      var t := Run(Trace(Origins(s, cid), NOTHING), Feed(s, c, cid));
      if c.Polls? && cid !in s.sessions then OwnOut(OutputOfCall(s, c), cid) == NO_OUTPUT
      else GivesOut(OwnOut(OutputOfCall(s, c), cid), cid, PathOf(c), t.out.sends, t.out.events)
  {
    hide Play, Receive, Submit, FireAll, Due, GivesOut, Keep, Run, NonePending, Recorded;
    BootIsPlain(cfg);
    PlayNonePending(Boot(cfg), calls);
    PlayRecorded(Boot(cfg), calls);
    var s := Play(Boot(cfg), calls);
    match c
    case Receives(now, path, bytes) => ReceiveGivesOut(s, now, path, bytes, cid);
    case Submits(to, payload, now) => SubmitGivesOut(s, to, payload, now, cid);
    case Polls(now, limit) =>
      if cid in s.sessions {
        FireAllGivesOut(s, now, Due(s.timers, now, limit), cid);
      } else {
        AbsentGivesNothing(s, now, Due(s.timers, now, limit), cid);
      }
  }

  lemma BootIsPlain(cfg: Config)
    ensures NonePending(Boot(cfg)) && Recorded(Boot(cfg))
  {
  }

  lemma {:induction false} PlayRecorded(s: ServerState, calls: seq<Call>)
    requires Recorded(s)
    ensures Recorded(Play(s, calls))
    decreases |calls|
  {
    hide Next, Recorded;
    if calls != [] {
      NextDrives(s, calls[0], 0);
      PlayRecorded(Next(s, calls[0]), calls[1..]);
    }
  }

  lemma {:induction false} AbsentGivesNothing(s: ServerState, now: u64, due: seq<(nat, Entry)>, cid: u64)
    requires cid !in s.sessions
    ensures var f := FireAll(s, now, due); cid !in f.0.sessions && OwnOut(f.1, cid) == NO_OUTPUT
    decreases |due|
  {
    hide Fire, Keep;
    OwnNothing(cid);
    if due != [] {
      var n := |due| - 1;
      AbsentGivesNothing(s, now, due[..n], cid);
      var front := FireAll(s, now, due[..n]);
      AbsentFires(front.0, now, due[n], cid);
      OwnAppend(front.1, Fire(front.0, now, due[n]).1, cid);
      AppendNothing(NO_OUTPUT);
    }
  }

  lemma AbsentFires(s: ServerState, now: u64, e: (nat, Entry), cid: u64)
    requires cid !in s.sessions
    ensures var f := Fire(s, now, e); cid !in f.0.sessions && OwnOut(f.1, cid) == NO_OUTPUT
  {
    hide Conclude, OnTimer, Without, Keep;
    var owner := e.1.0;
    var taken := s.(timers := Without(s.timers, e.0, e.1));
    OwnNothing(cid);
    if owner in s.sessions {
      TimerRules(s.sessions[owner].core, now, e.1.1);
      ConcludeAlone(taken, owner, 0, now, OnTimer(s.sessions[owner].core, now, e.1.1), cid);
      ConcludeSessions(taken, owner, 0, now, OnTimer(s.sessions[owner].core, now, e.1.1), cid);
    }
  }
  /** Bytes that are no frame are reported as such and do nothing; whatever else arrives, the
      output is for the session of its id alone. */
  lemma UnreadableIsReported(s: ServerState, now: u64, path: u32, bytes: Bytes)
    ensures var r := Receive(s, now, path, bytes);
      if Wire.Decode(bytes).Err? then
        r.0 == s && r.1.Ok? && r.1.value.sends == [] && r.1.value.events == [UnreadableDatagram]
      else
        r.1.Ok? ==>
          && (forall e :: e in r.1.value.events ==> OfEvent(e) == Some(Wire.Decode(bytes).value.cid))
          && (forall snd :: snd in r.1.value.sends ==> snd.0 == Wire.Decode(bytes).value.cid)
  {
    hide OnDatagram, Wire.Decode, EnsureLoaded, Ingest, Settle, Reported, Scheduled;
    if Wire.Decode(bytes).Ok? {
      var cid := Wire.Decode(bytes).value.cid;
      var step := OnDatagram(EnsureLoaded(s, cid, path, now).sessions[cid].core, now, path, bytes);
      if step.out.Ok? {
        ReportedBy(cid, step.out.value.events);
      }
    }
  }
}
