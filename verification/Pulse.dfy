/** The pulse of a session over whole runs of one machine, told by the inputs alone: when a
    server goes on sending MSRs and when it gives up, and which server MSRs a client answers. */
module Pulse {
  import opened ByteOrder
  import opened Wrappers
  import opened Protocol
  import opened CoreSpec
  import opened MachineRuns
  import opened MachineSafety
  import opened CoreTimers
  import opened Sends
  import Wire

  /** The machine a run leads to. */
  function At(role: Role, cid: u64, cfg: Config, inputs: seq<Input>): Core {
    Run(Start(role, cid, cfg), inputs).core
  }

  lemma AtNext(role: Role, cid: u64, cfg: Config, inputs: seq<Input>)
    requires inputs != []
    ensures var c := At(role, cid, cfg, inputs[..|inputs| - 1]);
      var last := inputs[|inputs| - 1];
      && At(role, cid, cfg, inputs) == (if Allowed(c, last) then Apply(c, last).core else c)
      && c.role == role && c.cid == cid
  {
    hide Apply;
    RunSplits(Start(role, cid, cfg), inputs);
    RunKeeps(cfg, Start(role, cid, cfg), inputs[..|inputs| - 1]);
  }

  // ------------------------------------------------------------------------ the server

  /** How often the server has sent an MSR since it last heard a datagram, and one window after
      it last did either. */
  datatype Pace = Pace(unanswered: nat, end: Option<nat>)

  function PaceOf(cid: u64, cfg: Config, inputs: seq<Input>): Pace {
    if inputs == [] then Pace(0, None)
    else
      var front := inputs[..|inputs| - 1];
      PaceAfter(At(Server, cid, cfg, front), inputs[|inputs| - 1], PaceOf(cid, cfg, front))
  }

  function PaceAfter(c: Core, i: Input, p: Pace): Pace {
    match i
    case Datagram(now, _, bytes) => if Hears(c, bytes) then Pace(0, Some(now + c.cfg.disconnectWindowMs)) else p
    case Timer(now, ServerMsr) =>
      if c.state != Established then p
      else Pace(p.unanswered + 1, if p.unanswered < 8 then Some(now + c.cfg.disconnectWindowMs) else p.end)
    case _ => p
  }

  /** What the server's counters mean. */
  ghost predicate Counts(c: Core, p: Pace) {
    && c.role == Server && c.state != Reactivating && c.disconnectDeadlineMs == p.end
    && (c.state == PreHandshake ==> c.serverMsrRun == 0 && p.unanswered == 0)
    && (c.state == Established ==> c.serverMsrRun == p.unanswered <= 8 && p.end.Some?)
  }

  /** Handling a frame keeps the count or clears it. */
  lemma DispatchKeepsOrClears(c: Core, now: nat, path: u32, f: Wire.WireFrame)
    requires c.role == Server
    ensures var d := Dispatch(c, now, path, f).core;
      d.role == Server && (d.serverMsrRun == c.serverMsrRun || d.serverMsrRun == 0)
  {
    hide HandleTlvs, HandleRequestRange, AddFragment, Accept, PullNew;
    match f.messageType
    case Msr =>
      var pair := DecodePair(f.payload);
      if pair.Some? {
        TlvsChangeOnlyTimers(c, path, f.tlvs);
        SignalClearsRun(HandleTlvs(c, path, f.tlvs).core, now, path, pair.value.1, ControlMsrFrame);
      }
    case RequestRange => RangeKeeps(c, path, f.payload);
    case Data =>
      if |f.payload| >= 8 {
        AcceptFrame(c, U64Value(f.payload[..8]), f.payload[8..]);
      }
    case Fragment =>
      if |f.payload| >= FRAGMENT_HEADER_LEN {
        FragmentFrame(c, U64Value(f.payload[..8]), U16Value(f.payload[8..10]), U16Value(f.payload[10..12]),
                      f.payload[FRAGMENT_HEADER_LEN..]);
      }
    case _ =>
  }

  lemma SignalClearsRun(c: Core, now: nat, path: u32, next: u64, source: MsrSource)
    requires c.role == Server
    ensures var d := HandleMsrSignal(c, now, path, next, source).core; d.role == Server && d.serverMsrRun == 0
  {
    hide MaxPending;
  }

  lemma DatagramCounts(c: Core, now: nat, path: u32, bytes: Bytes, p: Pace)
    requires Counts(c, p)
    ensures Counts(OnDatagram(c, now, path, bytes).core,
                   if Hears(c, bytes) then Pace(0, Some(now + c.cfg.disconnectWindowMs)) else p)
  {
    hide Wire.Decode, Dispatch, FindSignalTlv, HandleMsrSignal;
    DatagramTimers(c, now, path, bytes);
    if Hears(c, bytes) {
      var f := Wire.Decode(bytes).value;
      var a := Arrive(c, now, path);
      DispatchKeepsOrClears(a, now, path, f);
      var d := Dispatch(a, now, path, f).core;
      var signal := if f.messageType == Wire.Msr then None else FindSignalTlv(f.tlvs);
      if signal.Some? {
        SignalClearsRun(d, now, path, signal.value.1, PiggybackTlv);
      }
    }
  }

  lemma TimerCounts(c: Core, now: nat, id: TimerId, p: Pace)
    requires Counts(c, p)
    ensures Counts(OnTimer(c, now, id).core, PaceAfter(c, Timer(now, id), p))
  {
  }

  lemma OtherCounts(c: Core, i: Input, p: Pace)
    requires Counts(c, p) && Allowed(c, i) && !i.Datagram? && !i.Timer?
    ensures Counts(Apply(c, i).core, p)
  {
    hide ValidateTimerProposal;
  }

  lemma StepCounts(c: Core, i: Input, p: Pace)
    requires Counts(c, p)
    ensures Counts(if Allowed(c, i) then Apply(c, i).core else c, PaceAfter(c, i, p))
  {
    hide OnDatagram, OnTimer, Hears, Counts;
    match i
    case Datagram(now, path, bytes) => DatagramCounts(c, now, path, bytes, p);
    case Timer(now, id) => TimerCounts(c, now, id, p);
    case _ =>
      if Allowed(c, i) {
        OtherCounts(c, i, p);
      }
  }

  lemma {:induction false} RunCounts(cid: u64, cfg: Config, inputs: seq<Input>)
    ensures Counts(At(Server, cid, cfg, inputs), PaceOf(cid, cfg, inputs))
  {
    if inputs != [] {
      hide Apply, At, PaceAfter, Counts;
      var front := inputs[..|inputs| - 1];
      RunCounts(cid, cfg, front);
      AtNext(Server, cid, cfg, inputs);
      StepCounts(At(Server, cid, cfg, front), inputs[|inputs| - 1], PaceOf(cid, cfg, front));
    }
  }

  /** In every reachable state of a server in session: when its MSR timer fires it sends one
      MSR to the last path, with what has been delivered to it, and comes back in an interval,
      its end moved a window on; unless it has sent eight since it last heard anything: then,
      and only then, it gives up. */
  lemma ServerGivesUpExactly(cid: u64, cfg: Config, inputs: seq<Input>, now: nat)
    requires At(Server, cid, cfg, inputs).state == Established
    ensures var c := At(Server, cid, cfg, inputs);
      var s := OnTimer(c, now, ServerMsr);
      && s.out.Ok?
      && (if PaceOf(cid, cfg, inputs).unanswered >= 8 then
            s.core.state == Lost && s.out.value == Out([], [Disconnected], [])
          else
            && s.core.state == Established && s.core.disconnectDeadlineMs == Some(now + c.cfg.disconnectWindowMs)
            && s.out.value.sends == [Send(LastPath(cid, inputs), Status(c.lastOrderedRx, 0, NoReneg))]
            && s.out.value.events == []
            && s.out.value.timers == [Schedule(ServerMsr, now + c.cfg.msrIntervalMs),
                                      Schedule(Disconnect, now + c.cfg.disconnectWindowMs)])
  {
    hide Run, PaceOf, LastPath;
    RunCounts(cid, cfg, inputs);
    PathFollows(Server, cid, cfg, inputs);
  }

  /** And when its disconnect timer fires, it ends the session if a full window has passed since
      it last heard a datagram or sent an MSR, else it comes back when that is so. */
  lemma ServerWindowExactly(cid: u64, cfg: Config, inputs: seq<Input>, now: nat)
    requires At(Server, cid, cfg, inputs).state == Established
    ensures var c := At(Server, cid, cfg, inputs);
      var s := OnTimer(c, now, Disconnect);
      var end := PaceOf(cid, cfg, inputs).end;
      && end.Some? && s.out.Ok?
      && (if now >= end.value then s.core.state == Lost && s.out.value == Out([], [Disconnected], [])
          else s.core == c && s.out.value == Out([], [], [Schedule(Disconnect, end.value)]))
  {
    hide Run, PaceOf;
    RunCounts(cid, cfg, inputs);
  }

  // ------------------------------------------------------------------------ the client

  /** The datagram starts the client's session, or starts it again. */
  predicate Opens(c: Core, bytes: Bytes) {
    Hears(c, bytes) && Wire.Decode(bytes).value.messageType == Wire.ServerHello
    && (c.state == PreHandshake || c.state == Reactivating)
  }

  /** The datagram is an MSR that the machine takes in. */
  predicate TakesMsr(c: Core, now: nat, path: u32, bytes: Bytes) {
    Hears(c, bytes) && Wire.Decode(bytes).value.messageType == Wire.Msr && OnDatagram(c, now, path, bytes).out.Ok?
  }

  /** How many MSRs the client has taken in since its session last started. */
  function Taken(cid: u64, cfg: Config, inputs: seq<Input>): nat {
    if inputs == [] then 0
    else
      var front := inputs[..|inputs| - 1];
      TakenAfter(At(Client, cid, cfg, front), inputs[|inputs| - 1], Taken(cid, cfg, front))
  }

  function TakenAfter(c: Core, i: Input, n: nat): nat {
    if !i.Datagram? then n
    else if Opens(c, i.bytes) then 0
    else if TakesMsr(c, i.now, i.path, i.bytes) then n + 1
    else n
  }

  /** The message answers an MSR: a status that says nothing about timers. */
  predicate IsKeepalive(m: Msg) {
    m.Status? && m.reneg == NoReneg
  }

  ghost predicate SendsKeepalive(s: Step) {
    s.out.Ok? && exists i :: 0 <= i < |s.out.value.sends| && IsKeepalive(s.out.value.sends[i].msg)
  }

  lemma {:induction false} TlvsSendNoKeepalive(c: Core, path: u32, tlvs: seq<Wire.Tlv>)
    ensures !SendsKeepalive(HandleTlvs(c, path, tlvs))
    decreases |tlvs|
  {
    hide DecodeProposalTlv, DecodeAckTlv, ValidateTimerProposal, MaxPending;
    if tlvs != [] {
      TlvsSendNoKeepalive(HandleTlv(c, path, tlvs[0]).core, path, tlvs[1..]);
    }
  }

  lemma SignalAnswersFourth(c: Core, now: nat, path: u32, next: u64, source: MsrSource)
    requires c.role == Client && c.clientMsrRx < 4
    ensures var s := HandleMsrSignal(c, now, path, next, source);
      && s.core.clientMsrRx == (if source == PiggybackTlv then c.clientMsrRx
                                else if c.clientMsrRx == 3 then 0 else c.clientMsrRx + 1)
      && (SendsKeepalive(s) <==> source == ControlMsrFrame && c.clientMsrRx == 3)
  {
    hide MaxPending;
    var s := HandleMsrSignal(c, now, path, next, source);
    if source == ControlMsrFrame && c.clientMsrRx == 3 {
      assert IsKeepalive(s.out.value.sends[0].msg);
    }
  }

  lemma KeepaliveTogether(a: Step, s: Step)
    requires a.out.Ok? && s.out.Ok?
    ensures SendsKeepalive(After(a.out.value, s)) <==> SendsKeepalive(a) || SendsKeepalive(s)
  {
    var x, y := a.out.value.sends, s.out.value.sends;
    if SendsKeepalive(a) {
      var i :| 0 <= i < |x| && IsKeepalive(x[i].msg);
      assert (x + y)[i] == x[i];
    }
    if SendsKeepalive(s) {
      var i :| 0 <= i < |y| && IsKeepalive(y[i].msg);
      assert (x + y)[|x| + i] == y[i];
    }
  }

  /** Any frame: an MSR that is taken in counts, and only the fourth is answered. */
  lemma DispatchAnswersFourth(c: Core, now: nat, path: u32, f: Wire.WireFrame)
    requires c.role == Client && c.clientMsrRx < 4
    ensures var s := Dispatch(c, now, path, f);
      && s.core.role == Client
      && (f.messageType == Wire.Msr && s.out.Ok? ==>
            && s.core.clientMsrRx == (if c.clientMsrRx == 3 then 0 else c.clientMsrRx + 1)
            && (SendsKeepalive(s) <==> c.clientMsrRx == 3))
      && (!(f.messageType == Wire.Msr && s.out.Ok?) ==>
            && !SendsKeepalive(s)
            && s.core.clientMsrRx
               == (if f.messageType == Wire.ServerHello && (c.state == PreHandshake || c.state == Reactivating)
                   then 0 else c.clientMsrRx))
  {
    hide HandleTlvs, HandleMsrSignal, RangeReplies, AddFragment, Accept;
    match f.messageType
    case Msr =>
      var pair := DecodePair(f.payload);
      if pair.Some? {
        var a := HandleTlvs(c, path, f.tlvs);
        TlvsChangeOnlyTimers(c, path, f.tlvs);
        TlvsSendNoKeepalive(c, path, f.tlvs);
        if a.out.Ok? {
          SignalAnswersFourth(a.core, now, path, pair.value.1, ControlMsrFrame);
          var b := HandleMsrSignal(a.core, now, path, pair.value.1, ControlMsrFrame);
          SignalKeeps(a.core, now, path, pair.value.1, ControlMsrFrame);
          KeepaliveTogether(a, b);
        }
      }
    case RequestRange =>
      RangeAsksNoKeepalive(c, path, f.payload);
      RangeKeeps(c, path, f.payload);
    case Data =>
      if |f.payload| >= 8 {
        AcceptFrame(c, U64Value(f.payload[..8]), f.payload[8..]);
      }
    case Fragment =>
      PartsAreSilent(c, f.payload);
      if |f.payload| >= FRAGMENT_HEADER_LEN {
        FragmentFrame(c, U64Value(f.payload[..8]), U16Value(f.payload[8..10]), U16Value(f.payload[10..12]),
                      f.payload[FRAGMENT_HEADER_LEN..]);
      }
    case _ =>
  }

  lemma RangeAsksNoKeepalive(c: Core, path: u32, payload: Bytes)
    ensures !SendsKeepalive(HandleRequestRange(c, path, payload))
  {
    hide RangeReplies, MaxPending;
    var range := DecodePair(payload);
    if range.Some? {
      RepliesInOrder(c, range.value.0, range.value.1);
    }
  }

  lemma DatagramAnswersFourth(c: Core, now: nat, path: u32, bytes: Bytes)
    requires c.role == Client && c.clientMsrRx < 4
    ensures var s := OnDatagram(c, now, path, bytes);
      && s.core.clientMsrRx == (if Opens(c, bytes) then 0
                                else if TakesMsr(c, now, path, bytes) then (c.clientMsrRx + 1) % 4 else c.clientMsrRx)
      && (SendsKeepalive(s) <==> TakesMsr(c, now, path, bytes) && c.clientMsrRx == 3)
  {
    hide Wire.Decode, Dispatch, FindSignalTlv, HandleMsrSignal;
    if Hears(c, bytes) {
      var f := Wire.Decode(bytes).value;
      var a := Arrive(c, now, path);
      DispatchAnswersFourth(a, now, path, f);
      var s := Dispatch(a, now, path, f);
      var signal := if f.messageType == Wire.Msr then None else FindSignalTlv(f.tlvs);
      if signal.Some? {
        SignalAnswersFourth(s.core, now, path, signal.value.1, PiggybackTlv);
        if s.out.Ok? {
          KeepaliveTogether(s, HandleMsrSignal(s.core, now, path, signal.value.1, PiggybackTlv));
        }
      } else if s.out.Ok? {
        AfterNothingMore(s);
      }
    }
  }

  lemma AfterNothingMore(d: Step)
    requires d.out.Ok?
    ensures After(d.out.value, Step(d.core, Ok(NOTHING))) == d
  {
    AfterNothing(d);
  }

  lemma OtherInputsDoNotCount(c: Core, i: Input)
    requires Allowed(c, i) && !i.Datagram?
    ensures Apply(c, i).core.clientMsrRx == c.clientMsrRx
  {
    hide ValidateTimerProposal;
  }

  lemma StepIsTaken(c: Core, i: Input, n: nat)
    requires c.role == Client && c.clientMsrRx == n % 4
    ensures (if Allowed(c, i) then Apply(c, i).core.clientMsrRx else c.clientMsrRx) == TakenAfter(c, i, n) % 4
  {
    hide OnDatagram, Opens, TakesMsr;
    if i.Datagram? {
      DatagramAnswersFourth(c, i.now, i.path, i.bytes);
    } else if Allowed(c, i) {
      OtherInputsDoNotCount(c, i);
    }
  }

  lemma {:induction false} CountIsTaken(cid: u64, cfg: Config, inputs: seq<Input>)
    ensures At(Client, cid, cfg, inputs).clientMsrRx == Taken(cid, cfg, inputs) % 4
  {
    if inputs != [] {
      hide Apply, At, TakenAfter;
      var front := inputs[..|inputs| - 1];
      CountIsTaken(cid, cfg, front);
      AtNext(Client, cid, cfg, inputs);
      StepIsTaken(At(Client, cid, cfg, front), inputs[|inputs| - 1], Taken(cid, cfg, front));
    }
  }

  /** In every run, whatever arrives: a client answers an MSR with one of its own exactly when
      it is the fourth, the eighth, and so on that it takes in since its session started; no
      other datagram is answered so. */
  lemma EveryFourthIsAnswered(cid: u64, cfg: Config, inputs: seq<Input>, now: nat, path: u32, bytes: Bytes)
    ensures var c := At(Client, cid, cfg, inputs);
      SendsKeepalive(OnDatagram(c, now, path, bytes)) <==>
        TakesMsr(c, now, path, bytes) && (Taken(cid, cfg, inputs) + 1) % 4 == 0
  {
    hide At, Taken, TakesMsr, SendsKeepalive, OnDatagram;
    CountIsTaken(cid, cfg, inputs);
    RoleIsClient(cid, cfg, inputs);
    DatagramAnswersFourth(At(Client, cid, cfg, inputs), now, path, bytes);
  }

  lemma RoleIsClient(cid: u64, cfg: Config, inputs: seq<Input>)
    ensures At(Client, cid, cfg, inputs).role == Client
  {
    RunKeeps(cfg, Start(Client, cid, cfg), inputs);
  }
}
