/** Safety of one machine over every run on arbitrary input: ordered delivery once each,
    requests that tile the id space, a configuration that stays inside its bounds, and
    datagrams that always encode. */
module MachineSafety {
  import opened ByteOrder
  import opened Wrappers
  import opened Protocol
  import opened CoreSpec
  import opened Receiver
  import opened MachineRuns
  import Wire

  // -------------------------------------------------------------------- requests

  /** The ranges asked for, in order. */
  function Pulled(sends: seq<Send>): seq<(u64, u64)> {
    if sends == [] then [] else Ranges(sends[0].msg) + Pulled(sends[1..])
  }

  function Ranges(m: Msg): seq<(u64, u64)> {
    if m.Pull? then [(m.start, m.end)] else []
  }

  lemma PulledFirst(first: Send, rest: seq<Send>)
    ensures Pulled([first] + rest) == Ranges(first.msg) + Pulled(rest)
  {
    assert ([first] + rest)[1..] == rest;
  }

  lemma Associates<T>(a: seq<T>, b: seq<T>, c: seq<T>)
    ensures a + (b + c) == (a + b) + c
  {
  }

  lemma {:induction false} PulledConcat(a: seq<Send>, b: seq<Send>)
    ensures Pulled(a + b) == Pulled(a) + Pulled(b)
    decreases |a|, 1
  {
    if a == [] {
      assert a + b == b;
      assert Pulled(a) == [];
    } else {
      PulledMore(a[0], a[1..], b);
      assert a == [a[0]] + a[1..];
    }
  }

  lemma {:induction false} PulledMore(first: Send, rest: seq<Send>, b: seq<Send>)
    ensures Pulled([first] + rest + b) == Pulled([first] + rest) + Pulled(b)
    decreases |rest| + 1, 0
  {
    hide Pulled, Ranges;
    PulledConcat(rest, b);
    Associates([first], rest, b);
    PulledFirst(first, rest);
    PulledFirst(first, rest + b);
    Associates(Ranges(first.msg), Pulled(rest), Pulled(b));
  }

  lemma {:induction false} PulledNone(sends: seq<Send>)
    requires forall i :: 0 <= i < |sends| ==> !sends[i].msg.Pull?
    ensures Pulled(sends) == []
  {
    if sends != [] {
      PulledNone(sends[1..]);
    }
  }

  /** The ranges are non-empty, the first starts at 1, each starts right after the one
      before, and the last ends at `end`. */
  ghost predicate Tiles(ranges: seq<(u64, u64)>, end: nat) {
    if ranges == [] then end == 0
    else
      var last := ranges[|ranges| - 1];
      last.1 == end && 1 <= last.0 <= last.1 && Tiles(ranges[..|ranges| - 1], last.0 - 1)
  }

  predicate Within(range: (u64, u64), id: nat) {
    range.0 <= id <= range.1
  }

  /** So every id up to `end` lies in exactly one of the ranges, and no other id in any. */
  lemma {:induction false} TilesCoverOnce(ranges: seq<(u64, u64)>, end: nat, id: nat)
    requires Tiles(ranges, end)
    ensures 1 <= id <= end <==> exists k :: 0 <= k < |ranges| && Within(ranges[k], id)
    ensures forall j, k ::
      (0 <= j < |ranges| && 0 <= k < |ranges| && Within(ranges[j], id) && Within(ranges[k], id)) ==> j == k
  {
    if ranges != [] {
      var n := |ranges| - 1;
      var front := ranges[..n];
      var last := ranges[n];
      TilesCoverOnce(front, last.0 - 1, id);
      assert forall k :: 0 <= k < n ==> front[k] == ranges[k];
      if Within(last, id) {
        assert forall k :: 0 <= k < n ==> !Within(front[k], id);
      } else if 1 <= id <= end {
        var k :| 0 <= k < n && Within(front[k], id);
        assert Within(ranges[k], id);
      }
    }
  }

  /** A step asks for nothing, or for the one range that follows what was asked for. */
  ghost predicate PullsNext(c: Core, s: Step) {
    if s.core.lastRequestedEnd == c.lastRequestedEnd then s.out.Ok? ==> Pulled(s.out.value.sends) == []
    else
      && s.out.Ok? && c.lastRequestedEnd < s.core.lastRequestedEnd
      && Pulled(s.out.value.sends) == [(c.lastRequestedEnd + 1, s.core.lastRequestedEnd)]
  }

  /** A step delivers the ids that follow those delivered; a failed one delivers none. */
  ghost predicate DeliversNext(c: Core, s: Step) {
    if s.out.Ok? then Continues(c, s.core, Received(s.out.value.events))
    else s.core.lastOrderedRx == c.lastOrderedRx
  }

  lemma {:induction false} ReceivedNone(events: seq<Event>)
    requires forall i :: 0 <= i < |events| ==> !events[i].MessageReceived?
    ensures Received(events) == []
  {
    if events != [] {
      ReceivedNone(events[1..]);
    }
  }

  /** Output that hands over no message and asks for no range. */
  ghost predicate Plain(o: Out) {
    && (forall i :: 0 <= i < |o.sends| ==> !o.sends[i].msg.Pull?)
    && (forall i :: 0 <= i < |o.events| ==> !o.events[i].MessageReceived?)
  }

  lemma PlainStep(c: Core, s: Step)
    requires s.out.Ok? ==> Plain(s.out.value)
    requires s.core.lastRequestedEnd == c.lastRequestedEnd && s.core.lastOrderedRx == c.lastOrderedRx
    ensures PullsNext(c, s) && DeliversNext(c, s)
  {
    if s.out.Ok? {
      PulledNone(s.out.value.sends);
      ReceivedNone(s.out.value.events);
    }
  }

  lemma SignalSteps(c: Core, now: nat, path: u32, next: u64, source: MsrSource)
    ensures var s := HandleMsrSignal(c, now, path, next, source);
      PullsNext(c, s) && DeliversNext(c, s)
  {
    hide ClientSignal, PullNew;
    var a := if c.role == Client then ClientSignal(c, now, path, source) else (c.(serverMsrRun := 0), NOTHING);
    ClientSignalKeeps(c, now, path, source);
    ClientSignalPlain(c, now, path, source);
    var b := PullNew(a.0, path, next);
    PullNewSteps(a.0, path, next);
    PulledNone(a.1.sends);
    PulledConcat(a.1.sends, b.1.sends);
    ReceivedNone(a.1.events + b.1.events);
  }

  lemma PullNewSteps(c: Core, path: u32, next: u64)
    ensures var (d, o) := PullNew(c, path, next);
      && PullsNext(c, Step(d, Ok(o))) && d.lastOrderedRx == c.lastOrderedRx
      && forall i :: 0 <= i < |o.events| ==> !o.events[i].MessageReceived?
  {
    var (d, o) := PullNew(c, path, next);
    if o.sends != [] {
      assert o.sends[1..] == [];
    }
  }

  lemma ClientSignalPlain(c: Core, now: nat, path: u32, source: MsrSource)
    ensures Plain(ClientSignal(c, now, path, source).1)
  {
  }

  lemma {:induction false} TlvsPlain(c: Core, path: u32, tlvs: seq<Wire.Tlv>)
    ensures HandleTlvs(c, path, tlvs).out.Ok? ==> Plain(HandleTlvs(c, path, tlvs).out.value)
    decreases |tlvs|
  {
    if tlvs != [] {
      var s := HandleTlv(c, path, tlvs[0]);
      if s.out.Ok? {
        TlvsPlain(s.core, path, tlvs[1..]);
      }
    }
  }

  /** A step followed, in the same call, by one that asks for the next range. */
  lemma ThenSignal(c: Core, a: Step, s: Step)
    requires a.out.Ok? && a.core.lastRequestedEnd == c.lastRequestedEnd && Pulled(a.out.value.sends) == []
    requires DeliversNext(c, a)
    requires s.out.Ok? && s.core.lastOrderedRx == a.core.lastOrderedRx
    requires PullsNext(a.core, s) && DeliversNext(a.core, s)
    ensures PullsNext(c, After(a.out.value, s)) && DeliversNext(c, After(a.out.value, s))
  {
    PulledConcat(a.out.value.sends, s.out.value.sends);
    ReceivedConcat(a.out.value.events, s.out.value.events);
    assert Received(s.out.value.events) == [];
  }

  lemma MsrSteps(c: Core, now: nat, path: u32, f: Wire.WireFrame)
    ensures var s := HandleMsr(c, now, path, f); PullsNext(c, s) && DeliversNext(c, s)
  {
    hide HandleTlvs, HandleMsrSignal;
    var pair := DecodePair(f.payload);
    if pair.Some? {
      var a := HandleTlvs(c, path, f.tlvs);
      TlvsChangeOnlyTimers(c, path, f.tlvs);
      TlvsPlain(c, path, f.tlvs);
      if a.out.Ok? {
        PlainStep(c, a);
        SignalSteps(a.core, now, path, pair.value.1, ControlMsrFrame);
        SignalKeeps(a.core, now, path, pair.value.1, ControlMsrFrame);
        ThenSignal(c, a, HandleMsrSignal(a.core, now, path, pair.value.1, ControlMsrFrame));
      }
    }
  }

  lemma CarriersAskNothing(id: u64, msg: Bytes, acked: u64, next: u64)
    requires Sendable(msg)
    ensures forall m :: m in Carriers(id, msg, acked, next) ==> m.Whole? || m.Part?
  {
  }

  lemma {:induction false} RepliesAskNothing(c: Core, start: nat, end: u64)
    ensures var r := RangeReplies(c, start, end);
      r.Ok? ==> forall m :: m in r.value ==> m.Whole? || m.Part?
    decreases end + 1 - start
  {
    hide Sendable, Carriers, MaxPending;
    if start <= end {
      RepliesAskNothing(c, start + 1, end);
      if start in c.outbound && Sendable(c.outbound[start]) {
        CarriersAskNothing(start, c.outbound[start], c.lastOrderedRx, MaxPending(c));
      }
    }
  }

  lemma RangeSteps(c: Core, path: u32, payload: Bytes)
    ensures var s := HandleRequestRange(c, path, payload); PullsNext(c, s) && DeliversNext(c, s)
  {
    hide RangeReplies;
    var range := DecodePair(payload);
    if range.Some? {
      RepliesAskNothing(c, range.value.0, range.value.1);
      var r := RangeReplies(c, range.value.0, range.value.1);
      assert r.Ok? ==> forall i :: 0 <= i < |r.value| ==> r.value[i] in r.value;
      PlainStep(c, HandleRequestRange(c, path, payload));
    }
  }

  lemma DispatchSteps(c: Core, now: nat, path: u32, f: Wire.WireFrame)
    requires ReceiverInv(c)
    ensures var s := Dispatch(c, now, path, f); PullsNext(c, s) && DeliversNext(c, s)
    ensures var s := Dispatch(c, now, path, f);
      f.messageType != Wire.Msr && s.out.Ok? ==> Pulled(s.out.value.sends) == []
  {
    hide HandleMsr, HandleRequestRange, HandleData, HandleFragment;
    var s := Dispatch(c, now, path, f);
    match f.messageType
    case Msr => MsrSteps(c, now, path, f);
    case RequestRange =>
      if c.state == Established {
        RangeSteps(c, path, f.payload);
        RangeKeeps(c, path, f.payload);
      } else {
        PlainStep(c, s);
      }
    case Data =>
      if c.state == Established {
        HandleDataChanges(c, f.payload);
        HandleDataSilent(c, f.payload);
      } else {
        PlainStep(c, s);
      }
    case Fragment =>
      if c.state == Established {
        HandleFragmentChanges(c, f.payload);
        HandleFragmentSilent(c, f.payload);
      } else {
        PlainStep(c, s);
      }
    case _ => PlainStep(c, s);
  }

  lemma HandleDataSilent(c: Core, payload: Bytes)
    ensures HandleData(c, payload).out.Ok? ==> HandleData(c, payload).out.value.sends == []
  {
  }

  lemma HandleFragmentSilent(c: Core, payload: Bytes)
    ensures HandleFragment(c, payload).out.Ok? ==> HandleFragment(c, payload).out.value.sends == []
  {
  }

  lemma FrameSteps(c: Core, now: nat, path: u32, f: Wire.WireFrame)
    requires ReceiverInv(c)
    ensures var s := OnFrame(c, now, path, f); PullsNext(c, s) && DeliversNext(c, s)
  {
    hide Dispatch, HandleMsrSignal;
    var a := Dispatch(c, now, path, f);
    DispatchSteps(c, now, path, f);
    DispatchKeeps(c, now, path, f);
    var signal := if f.messageType == Wire.Msr then None else FindSignalTlv(f.tlvs);
    if a.out.Ok? {
      if signal.Some? {
        SignalSteps(a.core, now, path, signal.value.1, PiggybackTlv);
        SignalKeeps(a.core, now, path, signal.value.1, PiggybackTlv);
        ThenSignal(c, a, HandleMsrSignal(a.core, now, path, signal.value.1, PiggybackTlv));
      } else {
        AfterNothing(Step(a.core, a.out));
      }
    }
  }

  // --------------------------------------------------------------- configuration

  /** Every bound a negotiated configuration is held to, the probe window included. */
  ghost predicate InBounds(cfg: Config) {
    && MIN_MSR_INTERVAL_MS <= cfg.msrIntervalMs <= MAX_MSR_INTERVAL_MS
    && MIN_MISS_WINDOW_COUNT <= cfg.missWindowCount <= MAX_MISS_WINDOW_COUNT
    && MIN_DISCONNECT_WINDOW_MS <= cfg.disconnectWindowMs <= MAX_DISCONNECT_WINDOW_MS
    && cfg.disconnectWindowMs >= cfg.msrIntervalMs * cfg.missWindowCount
  }

  ghost predicate ConfigSafe(initial: Config, c: Core) {
    && (c.cfg == initial || InBounds(c.cfg))
    && (c.pendingLocal.Some? ==> InBounds(c.pendingLocal.value.proposal.ToConfig()))
  }

  /** Validation accepts exactly the proposals inside the bounds whose miss count grows by at
      most two. */
  lemma ValidationIsExact(current: Config, p: TimerProposal)
    ensures ValidateTimerProposal(current, p).Ok? <==>
      InBounds(p.ToConfig()) && p.missWindowCount <= current.missWindowCount + MAX_MISS_WINDOW_STEP
  {
    if p.msrIntervalMs <= MAX_MSR_INTERVAL_MS && p.missWindowCount <= MAX_MISS_WINDOW_COUNT {
      var product := p.msrIntervalMs * p.missWindowCount;
      ProductBound(p.msrIntervalMs, p.missWindowCount);
      assert SatMul(p.msrIntervalMs, p.missWindowCount) == product;
    }
  }

  lemma TimesRises(a: nat, b: nat, c: nat)
    requires a <= b
    ensures 0 <= a * c <= b * c
  {
  }

  lemma ProductBound(a: nat, b: nat)
    requires a <= MAX_MSR_INTERVAL_MS && b <= MAX_MISS_WINDOW_COUNT
    ensures 0 <= a * b <= MAX_MSR_INTERVAL_MS * MAX_MISS_WINDOW_COUNT
  {
    TimesRises(a, MAX_MSR_INTERVAL_MS, b);
  }

  lemma {:induction false} TlvsKeepConfigSafe(initial: Config, c: Core, path: u32, tlvs: seq<Wire.Tlv>)
    requires ConfigSafe(initial, c)
    ensures ConfigSafe(initial, HandleTlvs(c, path, tlvs).core)
    decreases |tlvs|
  {
    if tlvs != [] {
      var t := tlvs[0];
      if t.kind == TLV_TIMER_PROPOSAL && DecodeProposalTlv(t).Some? {
        ValidationIsExact(c.cfg, DecodeProposalTlv(t).value.1);
      }
      var s := HandleTlv(c, path, t);
      if s.out.Ok? {
        TlvsKeepConfigSafe(initial, s.core, path, tlvs[1..]);
      }
    }
  }

  // -------------------------------------------------------------- the whole state

  /** The queue holds exactly the ids handed out so far. */
  ghost predicate QueueInv(c: Core) {
    c.nextOutboundId >= 1 && forall id :: id in c.outbound <==> 1 <= id < c.nextOutboundId
  }

  lemma MaxPendingIsLastId(c: Core)
    requires QueueInv(c)
    ensures MaxPending(c) == c.nextOutboundId - 1
  {
    var top: u64 := c.nextOutboundId - 1;
    if top >= 1 {
      assert top in c.outbound;
    } else {
      assert c.outbound.Keys == {};
    }
  }

  ghost predicate CoreInv(initial: Config, c: Core) {
    ReceiverInv(c) && ConfigSafe(initial, c) && QueueInv(c)
  }

  lemma InvTransfers(initial: Config, c: Core, d: Core)
    requires CoreInv(initial, c) && SameQueues(c, d) && ConfigSafe(initial, d)
    ensures CoreInv(initial, d)
  {
  }

  lemma DispatchKeepsConfigSafe(initial: Config, c: Core, now: nat, path: u32, f: Wire.WireFrame)
    requires CoreInv(initial, c)
    ensures ConfigSafe(initial, Dispatch(c, now, path, f).core)
  {
    hide HandleTlvs, HandleMsrSignal, HandleData, HandleFragment, HandleRequestRange;
    DispatchKeeps(c, now, path, f);
    if f.messageType == Wire.Msr && DecodePair(f.payload).Some? {
      TlvsKeepConfigSafe(initial, c, path, f.tlvs);
      var b := HandleTlvs(c, path, f.tlvs);
      SignalKeeps(b.core, now, path, DecodePair(f.payload).value.1, ControlMsrFrame);
    }
  }

  lemma FrameKeeps(initial: Config, c: Core, now: nat, path: u32, f: Wire.WireFrame)
    requires CoreInv(initial, c)
    ensures var d := OnFrame(c, now, path, f).core; CoreInv(initial, d) && d.cid == c.cid && d.role == c.role
  {
    hide Dispatch, Piggyback;
    DispatchKeeps(c, now, path, f);
    DispatchKeepsConfigSafe(initial, c, now, path, f);
    PiggybackKeeps(Dispatch(c, now, path, f).core, now, path, f);
  }

  ghost predicate KeepsAll(initial: Config, c: Core, s: Step) {
    && CoreInv(initial, s.core) && s.core.cid == c.cid && s.core.role == c.role
    && PullsNext(c, s) && DeliversNext(c, s)
  }

  lemma InvGivesReceiver(initial: Config, c: Core)
    requires CoreInv(initial, c)
    ensures ReceiverInv(c)
  {
  }

  lemma DatagramKeeps(initial: Config, c: Core, now: nat, path: u32, bytes: Bytes)
    requires CoreInv(initial, c)
    ensures KeepsAll(initial, c, OnDatagram(c, now, path, bytes))
  {
    hide OnFrame, Wire.Decode, ReceiverInv, QueueInv;
    var f := Wire.Decode(bytes);
    if f.Ok? && !(c.cid != 0 && f.value.cid != c.cid) {
      var a := Arrive(c, now, path);
      InvTransfers(initial, c, a);
      InvGivesReceiver(initial, a);
      FrameKeeps(initial, a, now, path, f.value);
      FrameSteps(a, now, path, f.value);
    } else {
      PlainStep(c, OnDatagram(c, now, path, bytes));
    }
  }

  lemma TimerKeeps(initial: Config, c: Core, now: nat, id: TimerId)
    requires CoreInv(initial, c)
    ensures KeepsAll(initial, c, OnTimer(c, now, id))
  {
    hide ReceiverInv, QueueInv;
    InvTransfers(initial, c, OnTimer(c, now, id).core);
    PlainStep(c, OnTimer(c, now, id));
  }

  lemma ApiSendKeeps(initial: Config, c: Core, payload: Bytes)
    requires CoreInv(initial, c) && c.nextOutboundId < U64_MAX
    ensures KeepsAll(initial, c, OnApiSend(c, payload))
  {
    PlainStep(c, OnApiSend(c, payload));
  }

  lemma ApiProposeKeeps(initial: Config, c: Core, now: u64, p: TimerProposal)
    requires CoreInv(initial, c)
    ensures KeepsAll(initial, c, OnApiProposeTimers(c, now, p))
  {
    hide ValidateTimerProposal;
    ValidationIsExact(c.cfg, p);
    PlainStep(c, OnApiProposeTimers(c, now, p));
  }

  /** Every call, on every input, keeps the state consistent, delivers only the next ids in
      line and asks only for the next range. */
  lemma ApplyKeeps(initial: Config, c: Core, i: Input)
    requires CoreInv(initial, c) && Allowed(c, i)
    ensures KeepsAll(initial, c, Apply(c, i))
  {
    hide OnDatagram, OnTimer, OnApiSend, OnApiProposeTimers;
    match i
    case Datagram(now, path, bytes) => DatagramKeeps(initial, c, now, path, bytes);
    case Timer(now, id) => TimerKeeps(initial, c, now, id);
    case SendMessage(payload) => ApiSendKeeps(initial, c, payload);
    case ProposeTimers(now, p) => ApiProposeKeeps(initial, c, now, p);
    case _ => PlainStep(c, Apply(c, i));
  }

  // ------------------------------------------------------------------- whole runs

  ghost predicate TraceInv(initial: Config, t: Trace) {
    && CoreInv(initial, t.core)
    && Consecutive(Received(t.out.events), 1) && |Received(t.out.events)| == t.core.lastOrderedRx
    && Tiles(Pulled(t.out.sends), t.core.lastRequestedEnd)
    && (forall i :: 0 <= i < |t.out.sends| ==> WellFormed(t.out.sends[i].msg))
  }

  lemma TilesGrow(ranges: seq<(u64, u64)>, c: Core, s: Step)
    requires Tiles(ranges, c.lastRequestedEnd) && PullsNext(c, s) && s.out.Ok?
    ensures Tiles(ranges + Pulled(s.out.value.sends), s.core.lastRequestedEnd)
  {
    var more := Pulled(s.out.value.sends);
    if more == [] {
      assert ranges + more == ranges;
    } else {
      assert (ranges + more)[..|ranges|] == ranges;
    }
  }

  lemma AdvanceKeeps(initial: Config, t: Trace, i: Input)
    requires TraceInv(initial, t)
    ensures TraceInv(initial, Advance(t, i))
    ensures Advance(t, i).core.cid == t.core.cid && Advance(t, i).core.role == t.core.role
  {
    hide Apply, CoreInv, Tiles, Pulled, Received;
    if Allowed(t.core, i) {
      ApplyKeeps(initial, t.core, i);
      var s := Apply(t.core, i);
      if s.out.Ok? {
        ReceivedConcat(t.out.events, s.out.value.events);
        PulledConcat(t.out.sends, s.out.value.sends);
        TilesGrow(Pulled(t.out.sends), t.core, s);
      }
    }
  }

  lemma {:induction false} RunKeeps(initial: Config, t: Trace, inputs: seq<Input>)
    requires TraceInv(initial, t)
    ensures TraceInv(initial, Run(t, inputs))
    ensures Run(t, inputs).core.cid == t.core.cid && Run(t, inputs).core.role == t.core.role
    decreases |inputs|
  {
    if inputs != [] {
      AdvanceKeeps(initial, t, inputs[0]);
      RunKeeps(initial, Advance(t, inputs[0]), inputs[1..]);
    }
  }

  /** Over every run on any input at all: the ids handed to the application are 1, 2, 3, ...
      once each; the requested ranges tile 1 .. `lastRequestedEnd`; the receiving half stays
      consistent; and the configuration is the initial one or inside every bound. */
  lemma EveryRunIsSafe(role: Role, cid: u64, cfg: Config, inputs: seq<Input>)
    ensures var t := Run(Start(role, cid, cfg), inputs);
      && (forall i :: 0 <= i < |Received(t.out.events)| ==> Received(t.out.events)[i].0 == i + 1)
      && |Received(t.out.events)| == t.core.lastOrderedRx
      && Tiles(Pulled(t.out.sends), t.core.lastRequestedEnd)
      && ReceiverInv(t.core)
      && (t.core.cfg == cfg || InBounds(t.core.cfg))
  {
    RunKeeps(cfg, Start(role, cid, cfg), inputs);
  }

  /** Everything ever emitted encodes, in at most 1034 bytes, and decodes to the intended
      frame under the machine's own connection id. */
  lemma EveryEmissionEncodes(role: Role, cid: u64, cfg: Config, inputs: seq<Input>, i: nat)
    requires i < |Run(Start(role, cid, cfg), inputs).out.sends|
    ensures var t := Run(Start(role, cid, cfg), inputs);
      var m := t.out.sends[i].msg;
      && t.core.cid == cid
      && WellFormed(m)
      && Wire.Encode(ToFrame(cid, m)) == Ok(Render(cid, m))
      && |Render(cid, m)| <= MAX_EMITTED_LEN
      && Wire.Decode(Render(cid, m)) == Ok(ToFrame(cid, m))
  {
    RunKeeps(cfg, Start(role, cid, cfg), inputs);
  }

  /** Once lost, a machine stays lost. */
  lemma LostIsFinal(c: Core, i: Input)
    requires c.state == Lost && Allowed(c, i)
    ensures Apply(c, i).core.state == Lost
  {
    hide HandleMsr, Piggyback;
    match i
    case Datagram(now, path, bytes) =>
      var f := Wire.Decode(bytes);
      if f.Ok? && !(c.cid != 0 && f.value.cid != c.cid) {
        var a := Arrive(c, now, path);
        MsrKeeps(a, now, path, f.value);
        PiggybackKeeps(Dispatch(a, now, path, f.value).core, now, path, f.value);
      }
    case _ =>
  }
}
