/** What a machine sends, on any input: where to, how far it says it has got, and what it
    answers. */
module Sends {
  import opened ByteOrder
  import opened Wrappers
  import opened Protocol
  import opened CoreSpec
  import opened MachineRuns
  import opened MachineSafety
  import opened CoreTimers
  import opened Delivery
  import Wire

  // ------------------------------------------------------------ answers to a datagram

  /** The message goes to that path; if it carries a position, it is the one the machine is at:
      the last id delivered and the last id queued. */
  ghost predicate Says(c: Core, snd: Send, path: u32) {
    && snd.pathId == path && snd.msg != Hello && snd.msg != Goodbye
    && (CarriesSignal(snd.msg) ==> snd.msg.acked == c.lastOrderedRx && snd.msg.nextPending == MaxPending(c))
  }

  ghost predicate AllSay(s: Step, path: u32) {
    s.out.Ok? ==> forall snd :: snd in s.out.value.sends ==> Says(s.core, snd, path)
  }

  /** The two states stand at the same position. */
  predicate SamePosition(c: Core, d: Core) {
    c.lastOrderedRx == d.lastOrderedRx && c.outbound == d.outbound
  }

  lemma SaysTogether(a: Step, s: Step, path: u32)
    requires a.out.Ok? && AllSay(a, path) && AllSay(s, path)
    requires a.out.value.sends == [] || SamePosition(a.core, s.core)
    ensures AllSay(After(a.out.value, s), path)
  {
    hide MaxKey;
  }

  lemma SilentSays(s: Step, path: u32)
    requires s.out.Ok? ==> s.out.value.sends == []
    ensures AllSay(s, path)
  {
  }

  lemma SignalSays(c: Core, now: nat, path: u32, next: u64, source: MsrSource)
    ensures AllSay(HandleMsrSignal(c, now, path, next, source), path)
    ensures SamePosition(c, HandleMsrSignal(c, now, path, next, source).core)
  {
    hide MaxKey;
  }

  lemma TlvSays(c: Core, path: u32, t: Wire.Tlv)
    ensures AllSay(HandleTlv(c, path, t), path) && SamePosition(c, HandleTlv(c, path, t).core)
  {
    hide MaxKey, DecodeProposalTlv, DecodeAckTlv, ValidateTimerProposal;
  }

  lemma {:induction false} TlvsSay(c: Core, path: u32, tlvs: seq<Wire.Tlv>)
    ensures AllSay(HandleTlvs(c, path, tlvs), path) && SamePosition(c, HandleTlvs(c, path, tlvs).core)
    decreases |tlvs|
  {
    hide HandleTlv, AllSay;
    if tlvs != [] {
      TlvSays(c, path, tlvs[0]);
      var s := HandleTlv(c, path, tlvs[0]);
      TlvsSay(s.core, path, tlvs[1..]);
      if s.out.Ok? {
        SaysTogether(s, HandleTlvs(s.core, path, tlvs[1..]), path);
      }
    } else {
      SilentSays(Step(c, Ok(NOTHING)), path);
    }
  }

  lemma MsrSays(c: Core, now: nat, path: u32, f: Wire.WireFrame)
    ensures AllSay(HandleMsr(c, now, path, f), path)
  {
    hide HandleTlvs, HandleMsrSignal, AllSay;
    var pair := DecodePair(f.payload);
    if pair.Some? {
      TlvsSay(c, path, f.tlvs);
      var a := HandleTlvs(c, path, f.tlvs);
      SignalSays(a.core, now, path, pair.value.1, ControlMsrFrame);
      if a.out.Ok? {
        SaysTogether(a, HandleMsrSignal(a.core, now, path, pair.value.1, ControlMsrFrame), path);
      }
    } else {
      SilentSays(HandleMsr(c, now, path, f), path);
    }
  }

  // ------------------------------------------------------------------ answering a request

  /** One reply comes before another: of an earlier message, or an earlier part of the same. */
  predicate Precedes(a: Msg, b: Msg) {
    && (a.Whole? || a.Part?) && (b.Whole? || b.Part?)
    && (a.msgId < b.msgId || (a.msgId == b.msgId && a.Part? && b.Part? && a.index < b.index))
  }

  /** Replies of the ids from `start` on, in order, each once, saying where the machine is. */
  ghost predicate InOrder(c: Core, ms: seq<Msg>, start: nat, end: u64) {
    && (forall i :: 0 <= i < |ms| ==>
          && (ms[i].Whole? || ms[i].Part?) && start <= ms[i].msgId <= end && ms[i].msgId in c.outbound
          && ms[i].acked == c.lastOrderedRx && ms[i].nextPending == MaxPending(c))
    && (forall i, j :: 0 <= i < j < |ms| ==> Precedes(ms[i], ms[j]))
  }

  lemma CarriersInOrder(c: Core, id: u64, end: u64)
    requires id in c.outbound && Sendable(c.outbound[id]) && id <= end
    ensures InOrder(c, Carriers(id, c.outbound[id], c.lastOrderedRx, MaxPending(c)), id, end)
    ensures forall m :: m in Carriers(id, c.outbound[id], c.lastOrderedRx, MaxPending(c)) ==> m.msgId == id
  {
    hide MaxKey, Chunk;
  }

  lemma OrderTogether(c: Core, a: seq<Msg>, b: seq<Msg>, start: nat, end: u64)
    requires start <= end && InOrder(c, a, start, end) && InOrder(c, b, start + 1, end)
    requires forall m :: m in a ==> m.msgId == start
    ensures InOrder(c, a + b, start, end)
  {
    hide MaxPending;
    assert forall i :: 0 <= i < |a| ==> a[i] in a;
  }

  /** A request is answered with the queued messages of its range, in the order of their ids
      and parts, nothing twice. */
  lemma {:induction false} RepliesInOrder(c: Core, start: nat, end: u64)
    ensures RangeReplies(c, start, end).Ok? ==> InOrder(c, RangeReplies(c, start, end).value, start, end)
    decreases end + 1 - start
  {
    hide MaxPending, Carriers, Sendable, InOrder;
    if start <= end {
      RepliesInOrder(c, start + 1, end);
      if RangeReplies(c, start, end).Ok? {
        var rest := RangeReplies(c, start + 1, end).value;
        if start in c.outbound {
          CarriersInOrder(c, start, end);
          OrderTogether(c, Carriers(start, c.outbound[start], c.lastOrderedRx, MaxPending(c)), rest, start, end);
        } else {
          LaterInOrder(c, rest, start, end);
        }
      }
    } else {
      NothingInOrder(c, start, end);
    }
  }

  lemma LaterInOrder(c: Core, ms: seq<Msg>, start: nat, end: u64)
    requires InOrder(c, ms, start + 1, end)
    ensures InOrder(c, ms, start, end)
  {
  }

  lemma NothingInOrder(c: Core, start: nat, end: u64)
    ensures InOrder(c, [], start, end)
  {
  }

  lemma RangeSays(c: Core, path: u32, payload: Bytes)
    ensures AllSay(HandleRequestRange(c, path, payload), path)
  {
    hide RangeReplies, MaxKey;
    var range := DecodePair(payload);
    if range.Some? {
      RepliesInOrder(c, range.value.0, range.value.1);
    }
  }

  // --------------------------------------------------------------------- any datagram

  lemma DispatchSays(c: Core, now: nat, path: u32, f: Wire.WireFrame)
    ensures AllSay(Dispatch(c, now, path, f), path)
    ensures var s := Dispatch(c, now, path, f);
      f.messageType != Wire.Msr && f.messageType != Wire.RequestRange && s.out.Ok? ==>
        forall snd :: snd in s.out.value.sends ==> !CarriesSignal(snd.msg)
    ensures f.messageType == Wire.RequestRange ==> Dispatch(c, now, path, f).core == c
  {
    hide HandleMsr, HandleRequestRange, AddFragment, Accept, AllSay, MaxKey;
    var s := Dispatch(c, now, path, f);
    match f.messageType
    case Msr => MsrSays(c, now, path, f);
    case RequestRange =>
      RangeSays(c, path, f.payload);
      RangeKeeps(c, path, f.payload);
      SilentSays(Step(c, Ok(NOTHING)), path);
    case Fragment =>
      PartsAreSilent(c, f.payload);
      SilentSays(s, path);
    case Data => SilentSays(s, path);
    case ClientHello => GreetingSays(c, now, path);
    case ServerHello => GreetingSays(c, now, path);
    case _ => SilentSays(s, path);
  }

  lemma PartsAreSilent(c: Core, payload: Bytes)
    ensures HandleFragment(c, payload).out.Ok? ==> HandleFragment(c, payload).out.value.sends == []
  {
    hide AddChunk, Merge, Accept;
  }

  lemma GreetingSays(c: Core, now: nat, path: u32)
    ensures AllSay(HandleClientHello(c, now, path), path) && AllSay(HandleServerHello(c, now, path), path)
    ensures forall snd :: snd in HandleClientHello(c, now, path).out.value.sends ==> snd.msg == HelloReply
    ensures forall snd :: snd in HandleServerHello(c, now, path).out.value.sends ==> snd.msg == HelloDone
  {
  }

  lemma FrameSays(c: Core, now: nat, path: u32, f: Wire.WireFrame)
    ensures AllSay(OnFrame(c, now, path, f), path)
  {
    hide Dispatch, HandleMsrSignal, FindSignalTlv, AllSay;
    DispatchSays(c, now, path, f);
    var s := Dispatch(c, now, path, f);
    var signal := if f.messageType == Wire.Msr then None else FindSignalTlv(f.tlvs);
    if s.out.Ok? {
      if signal.None? {
        SilentSays(Step(s.core, Ok(NOTHING)), path);
        SaysTogether(s, Step(s.core, Ok(NOTHING)), path);
      } else {
        SignalSays(s.core, now, path, signal.value.1, PiggybackTlv);
        var p := HandleMsrSignal(s.core, now, path, signal.value.1, PiggybackTlv);
        SaysTogether(s, p, path);
      }
    }
  }

  /** Whatever arrives: everything sent in answer goes to the path it came by, and says what
      has been delivered and queued by the end of the call. */
  lemma AnswersSayPosition(c: Core, now: nat, path: u32, bytes: Bytes)
    ensures AllSay(OnDatagram(c, now, path, bytes), path)
  {
    hide Wire.Decode, OnFrame, AllSay;
    if Hears(c, bytes) {
      FrameSays(Arrive(c, now, path), now, path, Wire.Decode(bytes).value);
    } else {
      SilentSays(OnDatagram(c, now, path, bytes), path);
    }
  }

  // ----------------------------------------------------- what the application and timers send

  /** The path a machine sends on of its own accord: the last one it was heard from or told. */
  function LastPath(cid: u64, inputs: seq<Input>): u32 {
    if inputs == [] then 0
    else
      var last := inputs[|inputs| - 1];
      match last
      case Datagram(_, path, bytes) =>
        if Wire.Decode(bytes).Ok? && (cid == 0 || Wire.Decode(bytes).value.cid == cid) then path
        else LastPath(cid, inputs[..|inputs| - 1])
      case PathChanged(path) => path
      case _ => LastPath(cid, inputs[..|inputs| - 1])
  }

  lemma DatagramMovesPath(c: Core, now: nat, path: u32, bytes: Bytes)
    ensures OnDatagram(c, now, path, bytes).core.pathId == if Hears(c, bytes) then path else c.pathId
  {
    hide Wire.Decode, HandleMsr, HandleData, HandleFragment, HandleRequestRange, Piggyback;
    if Hears(c, bytes) {
      var f := Wire.Decode(bytes).value;
      var a := Arrive(c, now, path);
      PathStays(a, now, path, f);
      PiggybackPath(Dispatch(a, now, path, f).core, now, path, f);
    }
  }

  lemma PiggybackPath(c: Core, now: nat, path: u32, f: Wire.WireFrame)
    ensures Piggyback(c, now, path, f).core.pathId == c.pathId
  {
    hide HandleMsrSignal, FindSignalTlv;
    var signal := if f.messageType == Wire.Msr then None else FindSignalTlv(f.tlvs);
    if signal.Some? {
      SignalKeeps(c, now, path, signal.value.1, PiggybackTlv);
    }
  }

  lemma PathStays(c: Core, now: nat, path: u32, f: Wire.WireFrame)
    ensures Dispatch(c, now, path, f).core.pathId == c.pathId
  {
    hide HandleTlvs, HandleMsrSignal, HandleRequestRange, AddFragment, Accept;
    match f.messageType
    case Msr =>
      var pair := DecodePair(f.payload);
      if pair.Some? {
        TlvsChangeOnlyTimers(c, path, f.tlvs);
        SignalKeeps(HandleTlvs(c, path, f.tlvs).core, now, path, pair.value.1, ControlMsrFrame);
      }
    case RequestRange => RangeKeeps(c, path, f.payload);
    case Data =>
      if |f.payload| >= 8 {
        AcceptFrame(c, U64Value(f.payload[..8]), f.payload[8..]);
      }
    case Fragment =>
      if |f.payload| >= FRAGMENT_HEADER_LEN {
        FragmentFrame(c, U64Value(f.payload[..8]), U16Value(f.payload[8..10]), U16Value(f.payload[10..12]),
                      f.payload[FRAGMENT_HEADER_LEN..]);
      }
    case _ =>
  }

  lemma InputMovesPath(c: Core, i: Input)
    requires Allowed(c, i) && !i.Datagram?
    ensures Apply(c, i).core.pathId == if i.PathChanged? then i.newPath else c.pathId
  {
    hide ValidateTimerProposal;
  }

  lemma {:induction false} RunSplits(t: Trace, inputs: seq<Input>)
    requires inputs != []
    ensures Run(t, inputs) == Advance(Run(t, inputs[..|inputs| - 1]), inputs[|inputs| - 1])
  {
    var n := |inputs| - 1;
    assert inputs == inputs[..n] + [inputs[n]];
    RunConcat(t, inputs[..n], [inputs[n]]);
    assert [inputs[n]][1..] == [];
    var front := Run(t, inputs[..n]);
    assert Run(front, [inputs[n]]) == Run(Advance(front, inputs[n]), []);
  }

  /** In every run a machine's path is the last one it was heard from or told. */
  lemma {:induction false} PathFollows(role: Role, cid: u64, cfg: Config, inputs: seq<Input>)
    ensures Run(Start(role, cid, cfg), inputs).core.pathId == LastPath(cid, inputs)
  {
    hide Apply, Wire.Decode;
    if inputs != [] {
      var n := |inputs| - 1;
      PathFollows(role, cid, cfg, inputs[..n]);
      RunSplits(Start(role, cid, cfg), inputs);
      RunKeeps(cfg, Start(role, cid, cfg), inputs[..n]);
      var c := Run(Start(role, cid, cfg), inputs[..n]).core;
      if inputs[n].Datagram? {
        DatagramMovesPath(c, inputs[n].now, inputs[n].path, inputs[n].bytes);
        assert Apply(c, inputs[n]) == OnDatagram(c, inputs[n].now, inputs[n].path, inputs[n].bytes) by {
          DatagramIsApplied(c, inputs[n]);
        }
      } else if Allowed(c, inputs[n]) {
        InputMovesPath(c, inputs[n]);
      }
    }
  }

  lemma DatagramIsApplied(c: Core, i: Input)
    requires i.Datagram?
    ensures Apply(c, i) == OnDatagram(c, i.now, i.path, i.bytes)
  {
  }

  /** What the application's calls give out in any reachable state: a message in session is
      advertised under its id, a client says goodbye once, and all of it goes to the last path.
      Nothing else is given out. */
  lemma CallsGiveOut(role: Role, cid: u64, cfg: Config, inputs: seq<Input>, i: Input)
    requires i.Begin? || i.SendMessage? || i.CloseSession? || i.PathChanged?
    requires Allowed(Run(Start(role, cid, cfg), inputs).core, i)
    ensures var c := Run(Start(role, cid, cfg), inputs).core;
      var path := LastPath(cid, inputs);
      var o := Apply(c, i).out;
      && o.Ok? && o.value.timers == []
      && (i.Begin? ==>
            && o.value.sends == (if role == Client then [Send(path, Hello)] else [])
            && o.value.events == (if role == Client then [HandshakeStarted] else []))
      && (i.SendMessage? && c.state == Established ==>
            var id := c.nextOutboundId;
            && o.value.sends == [Send(path, Status(if role == Client then 0 else c.lastOrderedRx, id, NoReneg))]
            && o.value.events == (if role == Client then [QueueAdvertised(id)] else []))
      && (i.CloseSession? && c.state != Lost ==>
            o.value.sends == [Send(path, Goodbye)] && o.value.events == [Disconnected])
      && ((i.SendMessage? && c.state != Established) || (i.CloseSession? && c.state == Lost) || i.PathChanged? ==>
            o.value == NOTHING)
  {
    hide Run, MaxPending, LastPath;
    PathFollows(role, cid, cfg, inputs);
    RunKeeps(cfg, Start(role, cid, cfg), inputs);
    var c := Run(Start(role, cid, cfg), inputs).core;
    if i.SendMessage? {
      EnqueuedIsLast(cfg, c, i.payload);
    }
  }

  lemma EnqueuedIsLast(initial: Config, c: Core, payload: Bytes)
    requires CoreInv(initial, c) && c.nextOutboundId < U64_MAX
    ensures MaxPending(Enqueue(c, payload)) == c.nextOutboundId
  {
    var q := Enqueue(c, payload);
    assert QueueInv(q);
    MaxPendingIsLastId(q);
  }
  // ------------------------------------------------------------- answers about timers

  /** A proposal is answered by exactly one verdict, true to the bounds, and reported. */
  lemma ProposalIsAnswered(c: Core, now: nat, path: u32, m: Msg)
    requires m.Status? && m.reneg.Propose?
    ensures var s := OnMsg(c, now, path, m);
      var id := m.reneg.proposalId;
      var valid := ValidateTimerProposal(c.cfg, m.reneg.proposal).Ok?;
      && s.out.Ok? && s.out.value.sends != []
      && s.out.value.sends[0] == Send(path, Status(c.lastOrderedRx, MaxPending(c), Ack(id, valid)))
      && (forall i :: 0 < i < |s.out.value.sends| ==>
            s.out.value.sends[i].msg.Status? ==> s.out.value.sends[i].msg.reneg == NoReneg)
      && (TimerRenegotiationCommitted(id) in s.out.value.events <==> valid)
      && (TimerRenegotiationRejected(id) in s.out.value.events <==> !valid)
      && s.core.cfg == (if valid then m.reneg.proposal.ToConfig() else c.cfg)
  {
    hide HandleMsrSignal, ValidateTimerProposal, MaxKey;
    var a := Handle(c, now, path, m);
    SignalKeeps(a.core, now, path, m.nextPending, ControlMsrFrame);
    SignalHasNoVerdict(a.core, now, path, m.nextPending, ControlMsrFrame);
    var b := HandleMsrSignal(a.core, now, path, m.nextPending, ControlMsrFrame);
    assert OnMsg(c, now, path, m).out.value.events[0] == a.out.value.events[0];
  }

  lemma SignalHasNoVerdict(c: Core, now: nat, path: u32, next: u64, source: MsrSource)
    ensures var o := HandleMsrSignal(c, now, path, next, source).out.value;
      && (forall i :: 0 <= i < |o.sends| ==> o.sends[i].msg.Status? ==> o.sends[i].msg.reneg == NoReneg)
      && (forall e :: e in o.events ==> !e.TimerRenegotiationCommitted? && !e.TimerRenegotiationRejected?)
  {
    hide MaxPending;
  }

  /** A rejection drops the pending proposal it is for, reports it and leaves the timers alone;
      any other changes and reports nothing about timers. */
  lemma RejectionDropsPending(c: Core, now: nat, path: u32, m: Msg)
    requires m.Status? && m.reneg.Ack? && !m.reneg.accepted
    ensures var s := OnMsg(c, now, path, m);
      var mine := c.pendingLocal.Some? && c.pendingLocal.value.proposalId == m.reneg.proposalId;
      && s.out.Ok? && s.core.cfg == c.cfg
      && s.core.pendingLocal == (if mine then None else c.pendingLocal)
      && (TimerRenegotiationRejected(m.reneg.proposalId) in s.out.value.events <==> mine)
  {
    hide HandleMsrSignal;
    var a := Handle(c, now, path, m);
    SignalKeeps(a.core, now, path, m.nextPending, ControlMsrFrame);
    SignalHasNoVerdict(a.core, now, path, m.nextPending, ControlMsrFrame);
    if a.out.value.events != [] {
      assert OnMsg(c, now, path, m).out.value.events[0] == a.out.value.events[0];
    }
  }

  /** What proposing gives out in any reachable state: the proposal to the last path under a
      fresh id, its timer two intervals on; or the reason why not, and nothing. */
  lemma ProposingGivesOut(role: Role, cid: u64, cfg: Config, inputs: seq<Input>, nowMs: u64, p: TimerProposal)
    ensures var c := Run(Start(role, cid, cfg), inputs).core;
      var s := OnApiProposeTimers(c, nowMs, p);
      if c.state == Established && ValidateTimerProposal(c.cfg, p).Ok? then
        && s.out.Ok?
        && |s.out.value.sends| == 1 && s.out.value.sends[0].pathId == LastPath(cid, inputs)
        && (var m := s.out.value.sends[0].msg;
            && m.Status? && m.acked == 0 && m.nextPending == c.nextOutboundId - 1
            && m.reneg == Propose(c.nextProposalId, p))
        && s.out.value.events == [TimerRenegotiationProposed(c.nextProposalId)]
        && |s.out.value.timers| == 1 && s.out.value.timers[0].id == RenegotiationTimeout
        && s.core.pendingLocal.Some? && s.core.pendingLocal.value.expiresAtMs == s.out.value.timers[0].deadlineMs
      else s.core == c && s.out.Err?
  {
    hide Run, MaxKey, LastPath, ValidateTimerProposal;
    PathFollows(role, cid, cfg, inputs);
    RunKeeps(cfg, Start(role, cid, cfg), inputs);
    MaxPendingIsLastId(Run(Start(role, cid, cfg), inputs).core);
  }
}
