/** The state machine of v3-core as functions: what each entry point makes of a state, and
    what it emits. `CoreMachine` is the imperative form, proved to compute these functions. */
module CoreSpec {
  import opened ByteOrder
  import opened Wrappers
  import opened Protocol
  import Wire

  datatype Pending = Pending(proposalId: u32, proposal: TimerProposal, expiresAtMs: u64)

  datatype Accumulator = Accumulator(total: u16, chunks: map<u16, Bytes>)

  datatype Core = Core(
    role: Role,
    cid: u64,
    state: LifecycleState,
    cfg: Config,
    pathId: u32,
    nextOutboundId: u64,
    outbound: map<u64, Bytes>,
    receivedIds: set<u64>,
    buffer: map<u64, Bytes>,
    fragments: map<u64, Accumulator>,
    lastOrderedRx: u64,
    lastRequestedEnd: u64,
    lastServerMsrAtMs: Option<nat>,
    disconnectDeadlineMs: Option<nat>,
    clientMsrRx: u32,
    serverMsrRun: u32,
    nextProposalId: u32,
    pendingLocal: Option<Pending>)

  function Init(role: Role, cid: u64, cfg: Config): Core {
    Core(role, cid, PreHandshake, cfg, 0, 1, map[], {}, map[], map[], 0, 0, None, None, 0, 0, 1, None)
  }

  datatype Send = Send(pathId: u32, msg: Msg)

  /** What a step emits; `sends` holds messages, whose bytes are `Render` of them. */
  datatype Out = Out(sends: seq<Send>, events: seq<Event>, timers: seq<TimerAction>)

  const NOTHING: Out := Out([], [], [])

  function Plus(a: Out, b: Out): Out {
    Out(a.sends + b.sends, a.events + b.events, a.timers + b.timers)
  }

  /** The state after a call, and what the call returned. A failed call returns no output
      but keeps the changes it made before failing. */
  datatype Step = Step(core: Core, out: Result<Out, CoreError>)

  /** Everything sent has an encoding, so the encoder never fails. */
  predicate Encodable(s: Step) {
    s.out.Ok? ==> forall i :: 0 <= i < |s.out.value.sends| ==> WellFormed(s.out.value.sends[i].msg)
  }

  /** Prefix the output of a later part of the same call. */
  function After(a: Out, s: Step): Step {
    if s.out.Err? then s else Step(s.core, Ok(Plus(a, s.out.value)))
  }

  lemma AfterNothing(s: Step)
    ensures After(NOTHING, s) == s
    ensures s.out.Ok? ==> Plus(s.out.value, NOTHING) == s.out.value
  {
    if s.out.Ok? {
      var o := s.out.value;
      assert [] + o.sends == o.sends == o.sends + [];
      assert [] + o.events == o.events == o.events + [];
      assert [] + o.timers == o.timers == o.timers + [];
    }
  }

  lemma AfterAssociates(a: Out, b: Out, s: Step)
    ensures After(a, After(b, s)) == After(Plus(a, b), s)
  {
    if s.out.Ok? {
      var o := s.out.value;
      assert a.sends + (b.sends + o.sends) == (a.sends + b.sends) + o.sends;
      assert a.events + (b.events + o.events) == (a.events + b.events) + o.events;
      assert a.timers + (b.timers + o.timers) == (a.timers + b.timers) + o.timers;
    }
  }

  // ------------------------------------------------------------------ queue head

  lemma {:induction false} SetMax(keys: set<u64>) returns (m: u64)
    requires keys != {}
    ensures m in keys && forall k :: k in keys ==> k <= m
  {
    var x :| x in keys;
    var rest := keys - {x};
    m := x;
    if rest != {} {
      var y := SetMax(rest);
      m := if x <= y then y else x;
    }
    assert forall k :: k in keys ==> k == x || k in rest;
  }

  lemma SetHasMax(keys: set<u64>)
    requires keys != {}
    ensures exists m :: m in keys && forall k :: k in keys ==> k <= m
  {
    var m := SetMax(keys);
  }

  /** The highest queued id, 0 when the queue is empty. */
  function MaxKey(keys: set<u64>): (m: u64)
    ensures keys == {} ==> m == 0
    ensures keys != {} ==> m in keys
    ensures forall k :: k in keys ==> k <= m
  {
    if keys == {} then 0
    else
      SetHasMax(keys);
      var m :| m in keys && forall k :: k in keys ==> k <= m;
      m
  }

  function MaxPending(c: Core): u64 {
    MaxKey(c.outbound.Keys)
  }

  // --------------------------------------------------------------------- timers

  const MIN_MSR_INTERVAL_MS: u64 := 1_000
  const MAX_MSR_INTERVAL_MS: u64 := 120_000
  const MIN_MISS_WINDOW_COUNT: u64 := 1
  const MAX_MISS_WINDOW_COUNT: u64 := 64
  const MAX_MISS_WINDOW_STEP: u64 := 2
  const MIN_DISCONNECT_WINDOW_MS: u64 := 5_000
  const MAX_DISCONNECT_WINDOW_MS: u64 := 900_000

  function ValidateTimerProposal(current: Config, p: TimerProposal): Result<(), CoreError> {
    if !(MIN_MSR_INTERVAL_MS <= p.msrIntervalMs <= MAX_MSR_INTERVAL_MS) then
      Err(InvalidTimerProposal("msr_interval_ms out of bounds"))
    else if !(MIN_MISS_WINDOW_COUNT <= p.missWindowCount <= MAX_MISS_WINDOW_COUNT) then
      Err(InvalidTimerProposal("miss_window_count out of bounds"))
    else if p.missWindowCount > SatAdd(current.missWindowCount, MAX_MISS_WINDOW_STEP) then
      Err(InvalidTimerProposal("miss_window_count step too large"))
    else if !(MIN_DISCONNECT_WINDOW_MS <= p.disconnectWindowMs <= MAX_DISCONNECT_WINDOW_MS) then
      Err(InvalidTimerProposal("disconnect_window_ms out of bounds"))
    else if p.disconnectWindowMs < SatMul(p.msrIntervalMs, p.missWindowCount) then
      Err(InvalidTimerProposal("disconnect_window_ms smaller than probe window"))
    else Ok(())
  }

  function TouchDeadline(c: Core, now: nat): Core {
    c.(disconnectDeadlineMs := Some(now + c.cfg.disconnectWindowMs))
  }

  function OnValidPeerDatagram(c: Core, now: nat): Core {
    if c.state != Established then c
    else if c.role == Client then c.(lastServerMsrAtMs := Some(now))
    else c.(serverMsrRun := 0)
  }

  function ScheduleServerTimers(c: Core, now: nat): (Core, seq<TimerAction>) {
    (TouchDeadline(c, now),
     [Schedule(ServerMsr, now + c.cfg.msrIntervalMs), Schedule(Disconnect, now + c.cfg.disconnectWindowMs)])
  }

  function ScheduleClientTimers(c: Core, now: nat): (Core, seq<TimerAction>) {
    (TouchDeadline(c.(lastServerMsrAtMs := Some(now), clientMsrRx := 0), now),
     [Schedule(ClientProbe, now + c.cfg.msrIntervalMs), Schedule(Disconnect, now + c.cfg.disconnectWindowMs)])
  }

  // ------------------------------------------------------------ receiving payloads

  function DeliveryEvents(id: u64, payload: Bytes): seq<Event> {
    [MessageDelivered(id), MessageReceived(id, payload)]
  }

  /** Deliver every message that is next in line. */
  function FlushOrdered(c: Core): (Core, seq<Event>)
    decreases |c.buffer|
  {
    var next := c.lastOrderedRx + 1;
    if next in c.buffer then
      var payload := c.buffer[next];
      var rest := FlushOrdered(c.(buffer := c.buffer - {next}, lastOrderedRx := next));
      (rest.0, DeliveryEvents(next, payload) + rest.1)
    else (c, [])
  }

  lemma FlushUnfolds(c: Core)
    ensures c.lastOrderedRx + 1 !in c.buffer ==> FlushOrdered(c) == (c, [])
    ensures c.lastOrderedRx + 1 in c.buffer ==>
      var next: u64 := c.lastOrderedRx + 1;
      var rest := FlushOrdered(c.(buffer := c.buffer - {next}, lastOrderedRx := next));
      FlushOrdered(c) == (rest.0, DeliveryEvents(next, c.buffer[next]) + rest.1)
  {
  }

  /** Take a complete message: forget its fragments, buffer it, deliver what is in line. */
  function Accept(c: Core, id: u64, payload: Bytes): (s: Step)
    ensures s.out.Ok? && s.out.value.sends == []
  {
    var f := FlushOrdered(c.(
      receivedIds := c.receivedIds + {id},
      buffer := c.buffer[id := payload],
      fragments := c.fragments - {id}));
    Step(f.0, Ok(Out([], f.1, [])))
  }

  function HandleData(c: Core, payload: Bytes): (s: Step)
    ensures Encodable(s)
  {
    if |payload| < 8 then Step(c, Err(MalformedData))
    else
      var id := U64Value(payload[..8]);
      if id in c.receivedIds then Step(c, Ok(NOTHING))
      else Accept(c, id, payload[8..])
  }

  function AddChunk(c: Core, id: u64, index: u16, total: u16, chunk: Bytes): Accumulator {
    var acc := if id in c.fragments then c.fragments[id] else Accumulator(0, map[]);
    var counted := if acc.total == 0 then acc.(total := total) else acc;
    if counted.total != total || index in counted.chunks then counted
    else counted.(chunks := counted.chunks[index := chunk])
  }

  /** The chunks 0 .. n-1 joined in order, if all are there. */
  function Merge(chunks: map<u16, Bytes>, n: u16): Option<Bytes> {
    if n == 0 then Some([])
    else
      var front := Merge(chunks, n - 1);
      if front.None? || n - 1 !in chunks then None
      else Some(front.value + chunks[n - 1])
  }

  /** A missing chunk makes every longer merge fail. */
  lemma MergeStops(chunks: map<u16, Bytes>, k: u16, n: u16)
    requires k <= n && Merge(chunks, k).None?
    ensures Merge(chunks, n).None?
    decreases n
  {
    if k < n {
      MergeStops(chunks, k, n - 1);
    }
  }

  function AddFragment(c: Core, id: u64, index: u16, total: u16, chunk: Bytes): (s: Step)
    ensures Encodable(s)
  {
    if id in c.receivedIds then Step(c, Ok(NOTHING))
    else if total == 0 || index >= total then Step(c, Err(MalformedData))
    else
      var acc := AddChunk(c, id, index, total, chunk);
      var held := c.(fragments := c.fragments[id := acc]);
      if acc.total != total then Step(held, Err(MalformedData))
      else if |acc.chunks| != acc.total then Step(held, Ok(NOTHING))
      else
        var merged := Merge(acc.chunks, acc.total);
        if merged.None? then Step(held, Err(MalformedData))
        else Accept(held, id, merged.value)
  }

  function HandleFragment(c: Core, payload: Bytes): (s: Step)
    ensures Encodable(s)
  {
    if |payload| < FRAGMENT_HEADER_LEN then Step(c, Err(MalformedData))
    else AddFragment(c, U64Value(payload[..8]), U16Value(payload[8..10]), U16Value(payload[10..12]),
                     payload[FRAGMENT_HEADER_LEN..])
  }

  // ---------------------------------------------------------------- answering pulls

  function PartCount(msg: Bytes): nat {
    (|msg| + CHUNK_SIZE - 1) / CHUNK_SIZE
  }

  predicate IsSmall(msg: Bytes) {
    8 + |msg| <= MAX_DATA_PAYLOAD_PER_FRAME
  }

  predicate Sendable(msg: Bytes) {
    IsSmall(msg) || PartCount(msg) <= U16_MAX
  }

  function Chunk(msg: Bytes, index: nat): (chunk: Bytes)
    requires index < PartCount(msg)
    ensures |chunk| <= CHUNK_SIZE
  {
    if (index + 1) * CHUNK_SIZE <= |msg| then msg[index * CHUNK_SIZE..(index + 1) * CHUNK_SIZE]
    else msg[index * CHUNK_SIZE..]
  }

  function PartOf(id: u64, msg: Bytes, index: nat, acked: u64, next: u64): (m: Msg)
    requires PartCount(msg) <= U16_MAX && index < PartCount(msg)
    ensures WellFormed(m)
  {
    Part(id, index, PartCount(msg), Chunk(msg, index), acked, next)
  }

  /** The first `n` parts of a message. */
  function PartsUpTo(id: u64, msg: Bytes, n: nat, acked: u64, next: u64): (ms: seq<Msg>)
    requires PartCount(msg) <= U16_MAX && n <= PartCount(msg)
    ensures |ms| == n
    ensures forall i :: 0 <= i < n ==> ms[i] == PartOf(id, msg, i, acked, next)
  {
    if n == 0 then [] else PartsUpTo(id, msg, n - 1, acked, next) + [PartOf(id, msg, n - 1, acked, next)]
  }

  /** The datagrams that carry one queued message. */
  function Carriers(id: u64, msg: Bytes, acked: u64, next: u64): (ms: seq<Msg>)
    requires Sendable(msg)
    ensures forall m :: m in ms ==> WellFormed(m)
  {
    if IsSmall(msg) then [Whole(id, msg, acked, next)]
    else PartsUpTo(id, msg, PartCount(msg), acked, next)
  }

  /** The replies to ids `start .. end`; unknown ids are skipped, and one message with too
      many parts makes the whole call fail. */
  function RangeReplies(c: Core, start: nat, end: u64): (r: Result<seq<Msg>, CoreError>)
    ensures r.Ok? ==> forall m :: m in r.value ==> WellFormed(m)
    decreases end + 1 - start
  {
    if start > end then Ok([])
    else if start !in c.outbound then RangeReplies(c, start + 1, end)
    else if !Sendable(c.outbound[start]) then Err(MalformedData)
    else
      var rest :- RangeReplies(c, start + 1, end);
      Ok(Carriers(start, c.outbound[start], c.lastOrderedRx, MaxPending(c)) + rest)
  }

  function SendAll(pathId: u32, ms: seq<Msg>): (ss: seq<Send>)
    ensures |ss| == |ms|
    ensures forall i :: 0 <= i < |ms| ==> ss[i] == Send(pathId, ms[i])
  {
    seq(|ms|, i requires 0 <= i < |ms| => Send(pathId, ms[i]))
  }

  function HandleRequestRange(c: Core, path: u32, payload: Bytes): (s: Step)
    ensures Encodable(s)
  {
    var range := DecodePair(payload);
    if range.None? then Step(c, Err(MalformedRequestRange))
    else
      var replies := RangeReplies(c, range.value.0, range.value.1);
      if replies.Err? then Step(c, Err(replies.error))
      else Step(c, Ok(Out(SendAll(path, replies.value), [], [])))
  }

  // ---------------------------------------------------------------- MSR handling

  datatype MsrSource = ControlMsrFrame | PiggybackTlv

  /** The client's side of an MSR signal: note the time, count control MSRs, answer every
      fourth one, and leave Reactivating. */
  function ClientSignal(c: Core, now: nat, path: u32, source: MsrSource): (Core, Out) {
    var seen := c.(lastServerMsrAtMs := Some(now));
    var counted := if source == ControlMsrFrame then SatCount(seen.clientMsrRx) else seen.clientMsrRx;
    var keepalive := source == ControlMsrFrame && counted >= CLIENT_KEEPALIVE_EVERY_SERVER_MSR;
    var sends := if keepalive then [Send(path, Status(c.lastOrderedRx, MaxPending(c), NoReneg))] else [];
    var after := seen.(clientMsrRx := if keepalive then 0 else counted);
    if after.state == Reactivating then (after.(state := Established), Out(sends, [Reactivated], []))
    else (after, Out(sends, [], []))
  }

  /** A 32-bit counter that stops at its maximum. */
  function SatCount(n: u32): u32 {
    if n + 1 > U32_MAX then U32_MAX else n + 1
  }

  /** Ask for everything advertised beyond what was asked for before. */
  function PullNew(c: Core, path: u32, next: u64): (Core, Out) {
    if c.state == Established && next > c.lastRequestedEnd then
      var start: u64 := c.lastRequestedEnd + 1;
      (c.(lastRequestedEnd := next),
       Out([Send(path, Pull(start, next, c.lastOrderedRx, MaxPending(c)))], [RequestRangeSent(start, next)], []))
    else (c, NOTHING)
  }

  function HandleMsrSignal(c: Core, now: nat, path: u32, next: u64, source: MsrSource): (s: Step)
    ensures Encodable(s) && s.out.Ok?
  {
    var a := if c.role == Client then ClientSignal(c, now, path, source) else (c.(serverMsrRun := 0), NOTHING);
    var b := PullNew(a.0, path, next);
    Step(b.0, Ok(Plus(a.1, b.1)))
  }

  function HandleProposal(c: Core, path: u32, id: u32, p: TimerProposal): Step {
    var accepted := ValidateTimerProposal(c.cfg, p).Ok?;
    var reply := Send(path, Status(c.lastOrderedRx, MaxPending(c), Ack(id, accepted)));
    if accepted then Step(c.(cfg := p.ToConfig()), Ok(Out([reply], [TimerRenegotiationCommitted(id)], [])))
    else Step(c, Ok(Out([reply], [TimerRenegotiationRejected(id)], [])))
  }

  function HandleAck(c: Core, id: u32, accepted: bool): Step {
    if c.pendingLocal.Some? && c.pendingLocal.value.proposalId == id then
      var cleared := c.(pendingLocal := None);
      if accepted then
        Step(cleared.(cfg := c.pendingLocal.value.proposal.ToConfig()),
             Ok(Out([], [TimerRenegotiationCommitted(id)], [])))
      else Step(cleared, Ok(Out([], [TimerRenegotiationRejected(id)], [])))
    else Step(c, Ok(NOTHING))
  }

  function HandleTlv(c: Core, path: u32, t: Wire.Tlv): Step {
    if t.kind == TLV_TIMER_PROPOSAL then
      var p := DecodeProposalTlv(t);
      if p.None? then Step(c, Err(MalformedTimerProposal))
      else HandleProposal(c, path, p.value.0, p.value.1)
    else if t.kind == TLV_TIMER_ACK then
      var a := DecodeAckTlv(t);
      if a.None? then Step(c, Err(MalformedTimerAck))
      else HandleAck(c, a.value.0, a.value.1)
    else Step(c, Ok(NOTHING))
  }

  function HandleTlvs(c: Core, path: u32, tlvs: seq<Wire.Tlv>): (s: Step)
    ensures Encodable(s)
    decreases |tlvs|
  {
    if tlvs == [] then Step(c, Ok(NOTHING))
    else
      var s := HandleTlv(c, path, tlvs[0]);
      if s.out.Err? then s
      else After(s.out.value, HandleTlvs(s.core, path, tlvs[1..]))
  }

  function HandleMsr(c: Core, now: nat, path: u32, f: Wire.WireFrame): (s: Step)
    ensures Encodable(s)
  {
    var pair := DecodePair(f.payload);
    if pair.None? then Step(c, Err(MalformedMsr))
    else
      var s := HandleTlvs(c, path, f.tlvs);
      if s.out.Err? then s
      else After(s.out.value, HandleMsrSignal(s.core, now, path, pair.value.1, ControlMsrFrame))
  }

  // ------------------------------------------------------------------ entry points

  function HandleClientHello(c: Core, now: nat, path: u32): Step {
    if c.role == Server && c.state == PreHandshake then
      var t := ScheduleServerTimers(c.(state := Established), now);
      Step(t.0, Ok(Out([Send(path, HelloReply)], [HandshakeEstablished], t.1)))
    else Step(c, Ok(NOTHING))
  }

  function HandleServerHello(c: Core, now: nat, path: u32): Step {
    if c.role == Client && (c.state == PreHandshake || c.state == Reactivating) then
      var t := ScheduleClientTimers(c.(state := Established, lastServerMsrAtMs := Some(now)), now);
      var e := if c.state == Reactivating then Reactivated else HandshakeEstablished;
      Step(t.0, Ok(Out([Send(path, HelloDone)], [e], t.1)))
    else Step(c, Ok(NOTHING))
  }

  function HandleHelloAck(c: Core, now: nat): Step {
    if c.role == Server && c.state == PreHandshake then
      var t := ScheduleServerTimers(c.(state := Established), now);
      Step(t.0, Ok(Out([], [HandshakeEstablished], t.1)))
    else Step(c, Ok(NOTHING))
  }

  function Dispatch(c: Core, now: nat, path: u32, f: Wire.WireFrame): (s: Step)
    ensures Encodable(s)
  {
    match f.messageType
    case ClientHello => HandleClientHello(c, now, path)
    case ServerHello => HandleServerHello(c, now, path)
    case HelloAck => HandleHelloAck(c, now)
    case Msr => HandleMsr(c, now, path, f)
    case RequestRange => if c.state == Established then HandleRequestRange(c, path, f.payload) else Step(c, Ok(NOTHING))
    case Data => if c.state == Established then HandleData(c, f.payload) else Step(c, Ok(NOTHING))
    case Fragment => if c.state == Established then HandleFragment(c, f.payload) else Step(c, Ok(NOTHING))
    case Close => Step(c.(state := Lost), Ok(Out([], [Disconnected], [])))
    case Error => Step(c.(state := Lost), Ok(Out([], [Disconnected], [])))
  }

  /** A frame that is not an MSR may carry an MSR signal as a TLV. */
  function Piggyback(c: Core, now: nat, path: u32, f: Wire.WireFrame): (s: Step)
    ensures Encodable(s)
  {
    var signal := if f.messageType == Wire.Msr then None else FindSignalTlv(f.tlvs);
    if signal.None? then Step(c, Ok(NOTHING))
    else HandleMsrSignal(c, now, path, signal.value.1, PiggybackTlv)
  }

  function OnFrame(c: Core, now: nat, path: u32, f: Wire.WireFrame): (s: Step)
    ensures Encodable(s)
  {
    var s := Dispatch(c, now, path, f);
    if s.out.Err? then s
    else After(s.out.value, Piggyback(s.core, now, path, f))
  }

  function Arrive(c: Core, now: nat, path: u32): Core {
    OnValidPeerDatagram(TouchDeadline(c.(pathId := path), now), now)
  }

  function OnDatagram(c: Core, now: nat, path: u32, bytes: Bytes): (s: Step)
    ensures Encodable(s)
  {
    var f := Wire.Decode(bytes);
    if f.Err? then Step(c, Ok(Out([], [ParseError], [])))
    else if c.cid != 0 && f.value.cid != c.cid then Step(c, Err(CidMismatch(c.cid, f.value.cid)))
    else OnFrame(Arrive(c, now, path), now, path, f.value)
  }

  function OnServerMsr(c: Core, now: nat): Step {
    var counted := c.(serverMsrRun := SatCount(c.serverMsrRun));
    if counted.serverMsrRun > SERVER_MAX_CONSECUTIVE_SERVER_MSR_WITHOUT_CLIENT_MSR then
      Step(counted.(state := Lost), Ok(Out([], [Disconnected], [])))
    else
      Step(TouchDeadline(counted, now),
           Ok(Out([Send(c.pathId, Status(c.lastOrderedRx, 0, NoReneg))], [],
                  [Schedule(ServerMsr, now + c.cfg.msrIntervalMs),
                   Schedule(Disconnect, now + c.cfg.disconnectWindowMs)])))
  }

  function MissedMsr(c: Core, now: nat): bool {
    var last := if c.lastServerMsrAtMs.Some? then c.lastServerMsrAtMs.value else 0;
    var since := if now >= last then now - last else 0;
    since > SatMul(c.cfg.msrIntervalMs, c.cfg.missWindowCount)
  }

  function OnClientProbe(c: Core, now: nat): Step {
    var again := [Schedule(ClientProbe, now + c.cfg.msrIntervalMs)];
    if MissedMsr(c, now) then
      Step(c.(state := Reactivating),
           Ok(Out([Send(c.pathId, Status(0, MaxPending(c), NoReneg))], [ReactivationProbeSent], again)))
    else Step(c, Ok(Out([], [], again)))
  }

  function OnDisconnectTimer(c: Core, now: nat): Step {
    if c.disconnectDeadlineMs.None? then Step(c, Ok(NOTHING))
    else
      var deadline := c.disconnectDeadlineMs.value;
      if now >= deadline && c.state != Lost then Step(c.(state := Lost), Ok(Out([], [Disconnected], [])))
      else Step(c, Ok(Out([], [], [Schedule(Disconnect, deadline)])))
  }

  function OnRenegotiationTimeout(c: Core, now: nat): Step {
    if c.pendingLocal.Some? && now >= c.pendingLocal.value.expiresAtMs then
      Step(c.(pendingLocal := None),
           Ok(Out([], [TimerRenegotiationRolledBack(c.pendingLocal.value.proposalId)], [])))
    else Step(c, Ok(NOTHING))
  }

  function OnTimer(c: Core, now: nat, id: TimerId): (s: Step)
    ensures Encodable(s)
  {
    match id
    case ServerMsr => if c.role == Server && c.state == Established then OnServerMsr(c, now) else Step(c, Ok(NOTHING))
    case ClientProbe =>
      if c.role == Client && (c.state == Established || c.state == Reactivating) then OnClientProbe(c, now)
      else Step(c, Ok(NOTHING))
    case Disconnect => OnDisconnectTimer(c, now)
    case RenegotiationTimeout => OnRenegotiationTimeout(c, now)
  }

  function BeginHandshake(c: Core): (s: Step)
    ensures Encodable(s)
  {
    if c.role == Client then Step(c, Ok(Out([Send(c.pathId, Hello)], [HandshakeStarted], [])))
    else Step(c, Ok(NOTHING))
  }

  function Enqueue(c: Core, payload: Bytes): Core
    requires c.nextOutboundId < U64_MAX
  {
    c.(nextOutboundId := c.nextOutboundId + 1, outbound := c.outbound[c.nextOutboundId := payload])
  }

  function OnApiSend(c: Core, payload: Bytes): (s: Step)
    requires c.nextOutboundId < U64_MAX
    ensures Encodable(s)
  {
    var q := Enqueue(c, payload);
    if q.state != Established then Step(q, Ok(NOTHING))
    else if q.role == Client then
      Step(q, Ok(Out([Send(q.pathId, Status(0, MaxPending(q), NoReneg))], [QueueAdvertised(MaxPending(q))], [])))
    else Step(q, Ok(Out([Send(q.pathId, Status(q.lastOrderedRx, MaxPending(q), NoReneg))], [], [])))
  }

  function OnApiClose(c: Core): (s: Step)
    ensures Encodable(s)
  {
    if c.state == Lost then Step(c, Ok(NOTHING))
    else Step(c.(state := Lost), Ok(Out([Send(c.pathId, Goodbye)], [Disconnected], [])))
  }

  function OnApiProposeTimers(c: Core, now: u64, p: TimerProposal): (s: Step)
    ensures Encodable(s)
  {
    if c.state != Established then Step(c, Err(InvalidStateForRenegotiation))
    else if ValidateTimerProposal(c.cfg, p).Err? then Step(c, Err(ValidateTimerProposal(c.cfg, p).error))
    else
      var expires := SatAdd(now, SatMul(c.cfg.msrIntervalMs, 2));
      var next: u32 := if c.nextProposalId == U32_MAX then U32_MAX else c.nextProposalId + 1;
      Step(c.(nextProposalId := next, pendingLocal := Some(Pending(c.nextProposalId, p, expires))),
           Ok(Out([Send(c.pathId, Status(0, MaxPending(c), Propose(c.nextProposalId, p)))],
                  [TimerRenegotiationProposed(c.nextProposalId)],
                  [Schedule(RenegotiationTimeout, expires)])))
  }

  function OnPathChanged(c: Core, path: u32): Step {
    Step(c.(pathId := path), Ok(NOTHING))
  }
}
