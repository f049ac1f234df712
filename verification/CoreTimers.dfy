/** How each call of a machine treats its deadlines: what it schedules, when it moves the
    disconnect deadline, and when a pending proposal goes. */
module CoreTimers {
  import opened ByteOrder
  import opened Wrappers
  import opened Protocol
  import opened CoreSpec
  import opened MachineRuns
  import Wire

  ghost predicate NoTimers(s: Step) {
    s.out.Ok? ==> s.out.value.timers == []
  }

  /** The two timers that start with a session. */
  function HandshakeTimers(c: Core, now: nat): seq<TimerAction> {
    [Schedule(if c.role == Client then ClientProbe else ServerMsr, now + c.cfg.msrIntervalMs),
     Schedule(Disconnect, now + c.cfg.disconnectWindowMs)]
  }

  predicate InSession(c: Core) {
    c.state == Established || c.state == Reactivating
  }

  /** A machine takes notice of a datagram that decodes and bears its id. */
  predicate Hears(c: Core, bytes: Bytes) {
    Wire.Decode(bytes).Ok? && (c.cid == 0 || Wire.Decode(bytes).value.cid == c.cid)
  }

  /** What handling a frame, once its arrival is noted, does to the deadlines: a session may
      start, with its two timers; a pending proposal may go; nothing else. */
  ghost predicate FrameRules(c: Core, now: nat, s: Step) {
    && s.core.role == c.role && s.core.cid == c.cid
    && (s.core.disconnectDeadlineMs == c.disconnectDeadlineMs
        || s.core.disconnectDeadlineMs == Some(now + c.cfg.disconnectWindowMs))
    && (s.core.pendingLocal == c.pendingLocal || s.core.pendingLocal == None)
    && (NoTimers(s) || s.out.value.timers == HandshakeTimers(c, now))
    && (!NoTimers(s) ==> s.core.state == Established && c.state != Established)
    && (!NoTimers(s) && c.role == Server ==> c.state == PreHandshake)
    && (InSession(s.core) && !InSession(c) ==> !NoTimers(s))
    && (c.role == Server && c.state != Reactivating ==> s.core.state != Reactivating)
    && (s.core.state == PreHandshake ==> c.state == PreHandshake)
    && (s.out.Err? ==> s.core.state == c.state)
  }

  /** Nothing scheduled, no deadline moved, no session started or ended. */
  ghost predicate Quiet(c: Core, s: Step) {
    && s.core.role == c.role && s.core.cid == c.cid
    && s.core.disconnectDeadlineMs == c.disconnectDeadlineMs
    && (s.core.pendingLocal == c.pendingLocal || s.core.pendingLocal == None)
    && NoTimers(s)
    && (s.core.state == c.state || (c.state == Reactivating && s.core.state == Established && s.out.Ok?))
  }

  lemma SignalIsQuiet(c: Core, now: nat, path: u32, next: u64, source: MsrSource)
    ensures Quiet(c, HandleMsrSignal(c, now, path, next, source))
    ensures HandleMsrSignal(c, now, path, next, source).out.Ok?
  {
    SignalKeeps(c, now, path, next, source);
  }

  lemma TlvIsQuiet(c: Core, path: u32, t: Wire.Tlv)
    ensures Quiet(c, HandleTlv(c, path, t)) && HandleTlv(c, path, t).core.state == c.state
  {
    hide DecodeProposalTlv, DecodeAckTlv, ValidateTimerProposal;
  }

  lemma {:induction false} TlvsAreQuiet(c: Core, path: u32, tlvs: seq<Wire.Tlv>)
    ensures Quiet(c, HandleTlvs(c, path, tlvs)) && HandleTlvs(c, path, tlvs).core.state == c.state
    decreases |tlvs|
  {
    hide HandleTlv;
    if tlvs != [] {
      TlvIsQuiet(c, path, tlvs[0]);
      var s := HandleTlv(c, path, tlvs[0]);
      if s.out.Ok? {
        TlvsAreQuiet(s.core, path, tlvs[1..]);
      }
    }
  }

  lemma MsrIsQuiet(c: Core, now: nat, path: u32, f: Wire.WireFrame)
    ensures Quiet(c, HandleMsr(c, now, path, f))
  {
    hide HandleTlvs, HandleMsrSignal;
    var pair := DecodePair(f.payload);
    if pair.Some? {
      TlvsAreQuiet(c, path, f.tlvs);
      var s := HandleTlvs(c, path, f.tlvs);
      SignalIsQuiet(s.core, now, path, pair.value.1, ControlMsrFrame);
    }
  }

  lemma DataIsQuiet(c: Core, payload: Bytes)
    ensures Quiet(c, HandleData(c, payload))
  {
    hide FlushOrdered;
    if |payload| >= 8 {
      var id := U64Value(payload[..8]);
      AcceptFrame(c, id, payload[8..]);
    }
  }

  lemma FragmentIsQuiet(c: Core, payload: Bytes)
    ensures Quiet(c, HandleFragment(c, payload))
  {
    hide AddFragment;
    if |payload| >= FRAGMENT_HEADER_LEN {
      var id, index, total := U64Value(payload[..8]), U16Value(payload[8..10]), U16Value(payload[10..12]);
      FragmentFrame(c, id, index, total, payload[FRAGMENT_HEADER_LEN..]);
      AddFragmentSilent(c, id, index, total, payload[FRAGMENT_HEADER_LEN..]);
    }
  }

  lemma AddFragmentSilent(c: Core, id: u64, index: u16, total: u16, chunk: Bytes)
    ensures NoTimers(AddFragment(c, id, index, total, chunk))
  {
    hide FlushOrdered, AddChunk, Merge;
  }

  lemma DispatchTimers(c: Core, now: nat, path: u32, f: Wire.WireFrame)
    ensures FrameRules(c, now, Dispatch(c, now, path, f))
    ensures Dispatch(c, now, path, f).out.Ok? || Quiet(c, Dispatch(c, now, path, f))
  {
    hide HandleMsr, HandleData, HandleFragment, HandleRequestRange;
    match f.messageType
    case Msr => MsrIsQuiet(c, now, path, f);
    case Data => DataIsQuiet(c, f.payload);
    case Fragment => FragmentIsQuiet(c, f.payload);
    case RequestRange =>
      RangeKeeps(c, path, f.payload);
      RangeSilent(c, path, f.payload);
    case _ =>
  }

  lemma RangeSilent(c: Core, path: u32, payload: Bytes)
    ensures NoTimers(HandleRequestRange(c, path, payload))
  {
    hide RangeReplies, SendAll;
  }

  lemma PiggybackIsQuiet(c: Core, now: nat, path: u32, f: Wire.WireFrame)
    ensures Quiet(c, Piggyback(c, now, path, f)) && Piggyback(c, now, path, f).out.Ok?
  {
    hide HandleMsrSignal, FindSignalTlv;
    var signal := if f.messageType == Wire.Msr then None else FindSignalTlv(f.tlvs);
    if signal.Some? {
      SignalIsQuiet(c, now, path, signal.value.1, PiggybackTlv);
    }
  }

  lemma FrameTimers(c: Core, now: nat, path: u32, f: Wire.WireFrame)
    ensures FrameRules(c, now, OnFrame(c, now, path, f))
  {
    hide Dispatch, Piggyback;
    var s := Dispatch(c, now, path, f);
    DispatchTimers(c, now, path, f);
    if s.out.Ok? {
      PiggybackIsQuiet(s.core, now, path, f);
    }
  }

  /** A datagram that is heard moves the disconnect deadline one window from now; one that is
      not changes nothing. */
  lemma DatagramTimers(c: Core, now: nat, path: u32, bytes: Bytes)
    ensures var s := OnDatagram(c, now, path, bytes);
      && FrameRules(c, now, s)
      && (Hears(c, bytes) ==> s.core.disconnectDeadlineMs == Some(now + c.cfg.disconnectWindowMs))
      && (!Hears(c, bytes) ==> s.core == c && NoTimers(s))
  {
    hide OnFrame, Wire.Decode;
    if Hears(c, bytes) {
      FrameTimers(Arrive(c, now, path), now, path, Wire.Decode(bytes).value);
    }
  }

  /** Timers never fail, keep the role and the id, and never start a session. */
  lemma TimerRules(c: Core, now: nat, id: TimerId)
    ensures var s := OnTimer(c, now, id);
      && s.out.Ok?
      && s.core.role == c.role && s.core.cid == c.cid && s.core.cfg == c.cfg
      && (InSession(s.core) ==> InSession(c))
      && (s.core.state == PreHandshake ==> c.state == PreHandshake)
      && (c.role == Server && c.state != Reactivating ==> s.core.state != Reactivating)
      && (c.state == Lost ==> s.core.state == Lost)
  {
  }
}
