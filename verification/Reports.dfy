/** What a machine tells its surroundings, on any input: each event is reported exactly when the
    change it names has happened, and each datagram goes where the machine was last heard from
    and says how far the machine has got. */
module Reports {
  import opened ByteOrder
  import opened Wrappers
  import opened Protocol
  import opened CoreSpec
  import opened Receiver
  import opened MachineRuns
  import opened MachineSafety
  import opened CoreTimers
  import Wire

  // ---------------------------------------------------------------- events of a datagram

  predicate EndsSession(t: Wire.MessageType) {
    t == Wire.Close || t == Wire.Error
  }

  /** Events that only timers and the application's own calls bring about. */
  predicate IsLocal(e: Event) {
    e.HandshakeStarted? || e.ReactivationProbeSent? || e.QueueAdvertised? || e.TimerRenegotiationProposed?
    || e.TimerRenegotiationRolledBack? || e.ParseError?
  }

  /** Session events and requests are reported exactly when they happened. */
  ghost predicate Tells(c: Core, s: Step, ends: bool) {
    s.out.Ok? ==>
      var es := s.out.value.events;
      && (HandshakeEstablished in es <==> c.state == PreHandshake && s.core.state == Established)
      && (Reactivated in es <==> c.state == Reactivating && s.core.state == Established)
      && (Disconnected in es <==> s.core.state == Lost && (c.state != Lost || ends))
      && (forall a: u64, b: u64 :: RequestRangeSent(a, b) in es <==>
            c.lastRequestedEnd < s.core.lastRequestedEnd && a == c.lastRequestedEnd + 1 && b == s.core.lastRequestedEnd)
      && (forall e :: e in es ==> !IsLocal(e))
  }

  /** Events that say nothing about the session or requests. */
  predicate IsAside(e: Event) {
    e.MessageDelivered? || e.MessageReceived? || e.TimerRenegotiationCommitted? || e.TimerRenegotiationRejected?
  }

  lemma AsidesTell(c: Core, s: Step)
    requires s.core.state == c.state && s.core.lastRequestedEnd == c.lastRequestedEnd
    requires s.out.Ok? ==> forall e :: e in s.out.value.events ==> IsAside(e)
    ensures Tells(c, s, false)
  {
  }

  lemma {:induction false} FlushAsides(c: Core)
    ensures forall e :: e in FlushOrdered(c).1 ==> IsAside(e)
    decreases |c.buffer|
  {
    hide FlushOrdered;
    FlushUnfolds(c);
    if c.lastOrderedRx + 1 in c.buffer {
      var next: u64 := c.lastOrderedRx + 1;
      assert |(c.buffer - {next}).Keys| < |c.buffer.Keys|;
      FlushAsides(c.(buffer := c.buffer - {next}, lastOrderedRx := next));
    }
  }

  lemma AcceptAsides(c: Core, id: u64, payload: Bytes)
    ensures forall e :: e in Accept(c, id, payload).out.value.events ==> IsAside(e)
  {
    hide FlushOrdered;
    FlushAsides(c.(receivedIds := c.receivedIds + {id}, buffer := c.buffer[id := payload],
                   fragments := c.fragments - {id}));
  }

  lemma FragmentTells(c: Core, id: u64, index: u16, total: u16, chunk: Bytes)
    ensures Tells(c, AddFragment(c, id, index, total, chunk), false)
    ensures var s := AddFragment(c, id, index, total, chunk); s.out.Ok? ==> s.out.value.sends == []
  {
    hide Accept, AddChunk, Merge, Tells;
    FragmentFrame(c, id, index, total, chunk);
    var acc := AddChunk(c, id, index, total, chunk);
    var merged := Merge(acc.chunks, acc.total);
    if merged.Some? {
      AcceptAsides(c.(fragments := c.fragments[id := acc]), id, merged.value);
    }
    AsidesTell(c, AddFragment(c, id, index, total, chunk));
  }

  lemma {:induction false} TlvsAsides(c: Core, path: u32, tlvs: seq<Wire.Tlv>)
    ensures var s := HandleTlvs(c, path, tlvs); s.out.Ok? ==> forall e :: e in s.out.value.events ==> IsAside(e)
    decreases |tlvs|
  {
    hide DecodeProposalTlv, DecodeAckTlv, ValidateTimerProposal;
    if tlvs != [] {
      var s := HandleTlv(c, path, tlvs[0]);
      TlvsAsides(s.core, path, tlvs[1..]);
    }
  }

  lemma SignalTells(c: Core, now: nat, path: u32, next: u64, source: MsrSource)
    ensures Tells(c, HandleMsrSignal(c, now, path, next, source), false)
  {
    hide MaxPending;
  }

  /** Two parts of one call: what holds of each holds of both together. */
  lemma TellsTogether(c: Core, a: Step, s: Step, ends: bool)
    requires a.out.Ok? && Tells(c, a, ends) && Tells(a.core, s, false)
    requires s.core.state == a.core.state || (a.core.state == Reactivating && s.core.state == Established)
    requires a.core.state == Reactivating ==> c.state == Reactivating
    requires a.core.lastRequestedEnd == c.lastRequestedEnd
    ensures Tells(c, After(a.out.value, s), ends)
  {
  }

  lemma MsrTells(c: Core, now: nat, path: u32, f: Wire.WireFrame)
    ensures Tells(c, HandleMsr(c, now, path, f), false)
    ensures HandleMsr(c, now, path, f).core.state == Reactivating ==> c.state == Reactivating
  {
    hide HandleTlvs, HandleMsrSignal, Tells;
    var pair := DecodePair(f.payload);
    if pair.Some? {
      var a := HandleTlvs(c, path, f.tlvs);
      TlvsChangeOnlyTimers(c, path, f.tlvs);
      TlvsAsides(c, path, f.tlvs);
      AsidesTell(c, a);
      SignalTells(a.core, now, path, pair.value.1, ControlMsrFrame);
      SignalKeeps(a.core, now, path, pair.value.1, ControlMsrFrame);
      if a.out.Ok? {
        TellsTogether(c, a, HandleMsrSignal(a.core, now, path, pair.value.1, ControlMsrFrame), false);
      }
    } else {
      FailureTells(c, HandleMsr(c, now, path, f));
    }
  }

  lemma FailureTells(c: Core, s: Step)
    requires s.out.Err?
    ensures Tells(c, s, false)
  {
  }

  lemma DataTells(c: Core, payload: Bytes)
    ensures Tells(c, HandleData(c, payload), false) && OnlyReceiver(c, HandleData(c, payload).core)
  {
    hide Accept, Tells;
    if |payload| >= 8 {
      AcceptFrame(c, U64Value(payload[..8]), payload[8..]);
      AcceptAsides(c, U64Value(payload[..8]), payload[8..]);
    }
    AsidesTell(c, HandleData(c, payload));
  }

  lemma PayloadTells(c: Core, payload: Bytes)
    ensures Tells(c, HandleFragment(c, payload), false) && OnlyReceiver(c, HandleFragment(c, payload).core)
  {
    hide AddFragment, Tells;
    if |payload| >= FRAGMENT_HEADER_LEN {
      var id, index, total := U64Value(payload[..8]), U16Value(payload[8..10]), U16Value(payload[10..12]);
      FragmentTells(c, id, index, total, payload[FRAGMENT_HEADER_LEN..]);
      FragmentFrame(c, id, index, total, payload[FRAGMENT_HEADER_LEN..]);
    } else {
      FailureTells(c, HandleFragment(c, payload));
    }
  }

  lemma RangeTells(c: Core, path: u32, payload: Bytes)
    ensures Tells(c, HandleRequestRange(c, path, payload), false)
    ensures HandleRequestRange(c, path, payload).core == c
  {
    hide RangeReplies, Tells;
    AsidesTell(c, HandleRequestRange(c, path, payload));
  }

  lemma DispatchTells(c: Core, now: nat, path: u32, f: Wire.WireFrame)
    ensures var s := Dispatch(c, now, path, f);
      && Tells(c, s, EndsSession(f.messageType))
      && (s.core.state == Reactivating ==> c.state == Reactivating)
      && (f.messageType != Wire.Msr ==> s.core.lastRequestedEnd == c.lastRequestedEnd)
  {
    hide HandleMsr, HandleRequestRange, HandleData, HandleFragment;
    match f.messageType
    case Msr => MsrTells(c, now, path, f);
    case RequestRange => RangeTells(c, path, f.payload);
    case Data => DataTells(c, f.payload);
    case Fragment => PayloadTells(c, f.payload);
    case _ =>
  }

  /** On any bytes: a session that began, came back or ended, and a request that was made, is
      reported if and only if it was; bytes that are no frame are reported as such. */
  lemma DatagramTells(c: Core, now: nat, path: u32, bytes: Bytes)
    ensures var s := OnDatagram(c, now, path, bytes);
      if Wire.Decode(bytes).Err? then s == Step(c, Ok(Out([], [ParseError], [])))
      else if !Hears(c, bytes) then s == Step(c, Err(CidMismatch(c.cid, Wire.Decode(bytes).value.cid)))
      else Tells(c, s, EndsSession(Wire.Decode(bytes).value.messageType))
  {
    hide Wire.Decode, Dispatch, HandleMsrSignal, FindSignalTlv, Tells;
    if Hears(c, bytes) {
      var f := Wire.Decode(bytes).value;
      var a := Arrive(c, now, path);
      DispatchTells(a, now, path, f);
      var d := Dispatch(a, now, path, f);
      PiggybackTells(d.core, now, path, f);
      PiggybackKeeps(d.core, now, path, f);
      if d.out.Ok? {
        if f.messageType != Wire.Msr {
          TellsTogether(a, d, Piggyback(d.core, now, path, f), EndsSession(f.messageType));
        } else {
          AfterNothingMore(d);
        }
      }
      TellsTransfers(c, a, OnFrame(a, now, path, f), EndsSession(f.messageType));
    }
  }

  lemma AfterNothingMore(d: Step)
    requires d.out.Ok?
    ensures After(d.out.value, Step(d.core, Ok(NOTHING))) == d
  {
    AfterNothing(d);
  }

  lemma TellsTransfers(c: Core, a: Core, s: Step, ends: bool)
    requires Tells(a, s, ends) && a.state == c.state && a.lastRequestedEnd == c.lastRequestedEnd
    ensures Tells(c, s, ends)
  {
  }

  lemma PiggybackTells(c: Core, now: nat, path: u32, f: Wire.WireFrame)
    ensures Tells(c, Piggyback(c, now, path, f), false)
  {
    hide HandleMsrSignal, FindSignalTlv;
    var signal := if f.messageType == Wire.Msr then None else FindSignalTlv(f.tlvs);
    if signal.Some? {
      SignalTells(c, now, path, signal.value.1, PiggybackTlv);
    }
  }

  // --------------------------------------------------------- events of delivered messages

  /** The ids reported as delivered, in order. */
  function Delivered(events: seq<Event>): seq<u64> {
    if events == [] then []
    else if events[0].MessageDelivered? then [events[0].msgId] + Delivered(events[1..])
    else Delivered(events[1..])
  }

  function Ids(ms: seq<(u64, Bytes)>): (ids: seq<u64>)
    ensures |ids| == |ms| && forall i :: 0 <= i < |ms| ==> ids[i] == ms[i].0
  {
    seq(|ms|, i requires 0 <= i < |ms| => ms[i].0)
  }

  lemma {:induction false} DeliveredConcat(a: seq<Event>, b: seq<Event>)
    ensures Delivered(a + b) == Delivered(a) + Delivered(b)
  {
    if a == [] {
      assert a + b == b;
    } else {
      assert (a + b)[1..] == a[1..] + b;
      DeliveredConcat(a[1..], b);
    }
  }

  /** Every message handed over is also reported delivered, in the same order. */
  ghost predicate Paired(events: seq<Event>) {
    Delivered(events) == Ids(Received(events))
  }

  lemma PairedConcat(a: seq<Event>, b: seq<Event>)
    requires Paired(a) && Paired(b)
    ensures Paired(a + b)
  {
    DeliveredConcat(a, b);
    ReceivedConcat(a, b);
  }

  lemma {:induction false} NeitherPaired(events: seq<Event>)
    requires forall e :: e in events ==> !e.MessageDelivered? && !e.MessageReceived?
    ensures Paired(events)
  {
    if events != [] {
      NeitherPaired(events[1..]);
    }
  }

  lemma OnePaired(id: u64, payload: Bytes)
    ensures Paired(DeliveryEvents(id, payload))
  {
    var es := DeliveryEvents(id, payload);
    assert es[1..] == [es[1]] && es[1..][1..] == [];
    ReceivedOne(id, payload, []);
    assert es + [] == es;
    assert Delivered(es[1..]) == [];
    assert Delivered(es) == [id];
    assert Received(es) == [(id, payload)] + Received([]);
  }

  lemma {:induction false} FlushPaired(c: Core)
    ensures Paired(FlushOrdered(c).1)
    decreases |c.buffer|
  {
    hide FlushOrdered, Paired;
    FlushUnfolds(c);
    if c.lastOrderedRx + 1 in c.buffer {
      var next: u64 := c.lastOrderedRx + 1;
      assert |(c.buffer - {next}).Keys| < |c.buffer.Keys|;
      FlushPaired(c.(buffer := c.buffer - {next}, lastOrderedRx := next));
      OnePaired(next, c.buffer[next]);
      PairedConcat(DeliveryEvents(next, c.buffer[next]),
                   FlushOrdered(c.(buffer := c.buffer - {next}, lastOrderedRx := next)).1);
    } else {
      NeitherPaired([]);
    }
  }

  lemma AcceptPaired(c: Core, id: u64, payload: Bytes)
    ensures Paired(Accept(c, id, payload).out.value.events)
  {
    hide FlushOrdered, Paired;
    FlushPaired(c.(receivedIds := c.receivedIds + {id}, buffer := c.buffer[id := payload],
                   fragments := c.fragments - {id}));
  }
  lemma {:induction false} TlvsPaired(c: Core, path: u32, tlvs: seq<Wire.Tlv>)
    ensures var s := HandleTlvs(c, path, tlvs);
      s.out.Ok? ==> forall e :: e in s.out.value.events ==> !e.MessageDelivered? && !e.MessageReceived?
    decreases |tlvs|
  {
    hide DecodeProposalTlv, DecodeAckTlv, ValidateTimerProposal;
    if tlvs != [] {
      TlvsPaired(HandleTlv(c, path, tlvs[0]).core, path, tlvs[1..]);
    }
  }

  lemma SignalPaired(c: Core, now: nat, path: u32, next: u64, source: MsrSource)
    ensures Paired(HandleMsrSignal(c, now, path, next, source).out.value.events)
  {
    hide MaxPending, Paired;
    NeitherPaired(HandleMsrSignal(c, now, path, next, source).out.value.events);
  }

  lemma MsrPaired(c: Core, now: nat, path: u32, f: Wire.WireFrame)
    ensures var s := HandleMsr(c, now, path, f); s.out.Ok? ==> Paired(s.out.value.events)
  {
    hide HandleTlvs, HandleMsrSignal, Paired;
    var pair := DecodePair(f.payload);
    if pair.Some? {
      var a := HandleTlvs(c, path, f.tlvs);
      if a.out.Ok? {
        TlvsPaired(c, path, f.tlvs);
        NeitherPaired(a.out.value.events);
        SignalPaired(a.core, now, path, pair.value.1, ControlMsrFrame);
        PairedConcat(a.out.value.events,
                     HandleMsrSignal(a.core, now, path, pair.value.1, ControlMsrFrame).out.value.events);
      }
    }
  }

  lemma DispatchPaired(c: Core, now: nat, path: u32, f: Wire.WireFrame)
    ensures var s := Dispatch(c, now, path, f); s.out.Ok? ==> Paired(s.out.value.events)
  {
    hide HandleMsr, RangeReplies, AddChunk, Merge, Accept, Paired;
    var s := Dispatch(c, now, path, f);
    match f.messageType
    case Msr => MsrPaired(c, now, path, f);
    case Data =>
      if s.out.Ok? && |f.payload| >= 8 {
        AcceptPaired(c, U64Value(f.payload[..8]), f.payload[8..]);
      }
      NeitherPaired([]);
    case Fragment =>
      if |f.payload| >= FRAGMENT_HEADER_LEN {
        FragmentPaired(c, U64Value(f.payload[..8]), U16Value(f.payload[8..10]), U16Value(f.payload[10..12]),
                       f.payload[FRAGMENT_HEADER_LEN..]);
      }
      NeitherPaired([]);
    case _ =>
      if s.out.Ok? {
        NeitherPaired(s.out.value.events);
      }
  }

  lemma FragmentPaired(c: Core, id: u64, index: u16, total: u16, chunk: Bytes)
    ensures var s := AddFragment(c, id, index, total, chunk); s.out.Ok? ==> Paired(s.out.value.events)
  {
    hide Accept, AddChunk, Merge, Paired;
    NeitherPaired([]);
    var acc := AddChunk(c, id, index, total, chunk);
    var merged := Merge(acc.chunks, acc.total);
    if merged.Some? {
      AcceptPaired(c.(fragments := c.fragments[id := acc]), id, merged.value);
    }
  }

  /** Whatever arrives, the messages reported as delivered are those handed over, in order. */
  lemma DeliveriesAreReported(c: Core, now: nat, path: u32, bytes: Bytes)
    ensures var s := OnDatagram(c, now, path, bytes);
      s.out.Ok? ==> Delivered(s.out.value.events) == Ids(Received(s.out.value.events))
  {
    hide Wire.Decode, Dispatch, HandleMsrSignal, FindSignalTlv, Delivered, Received;
    if Hears(c, bytes) {
      var f := Wire.Decode(bytes).value;
      var a := Arrive(c, now, path);
      DispatchPaired(a, now, path, f);
      var d := Dispatch(a, now, path, f);
      var signal := if f.messageType == Wire.Msr then None else FindSignalTlv(f.tlvs);
      if signal.Some? {
        SignalPaired(d.core, now, path, signal.value.1, PiggybackTlv);
      } else {
        NeitherPaired([]);
      }
      if d.out.Ok? {
        PairedConcat(d.out.value.events, Piggyback(d.core, now, path, f).out.value.events);
      }
    } else if Wire.Decode(bytes).Err? {
      NeitherPaired([ParseError]);
    }
  }
  // --------------------------------------------------------- how a session moves

  ghost predicate SendsMsg(s: Step, m: Msg) {
    s.out.Ok? && exists i :: 0 <= i < |s.out.value.sends| && s.out.value.sends[i].msg == m
  }

  /** The frame carries a signal: as an MSR, or as a TLV beside something else. */
  predicate Signals(f: Wire.WireFrame) {
    f.messageType == Wire.Msr || FindSignalTlv(f.tlvs).Some?
  }

  /** The frame is the answer a client waits for, before its session or to get it back. */
  predicate Welcomes(c: Core, f: Wire.WireFrame) {
    c.role == Client && (c.state == PreHandshake || c.state == Reactivating) && f.messageType == Wire.ServerHello
  }

  /** The frame is a greeting a server has been waiting for. */
  predicate Greets(c: Core, f: Wire.WireFrame) {
    c.role == Server && c.state == PreHandshake && f.messageType == Wire.ClientHello
  }

  /** Where a frame takes a session. */
  function Moved(c: Core, f: Wire.WireFrame, ok: bool): LifecycleState {
    if EndsSession(f.messageType) then Lost
    else if Greets(c, f) || Welcomes(c, f) then Established
    else if c.role == Server && c.state == PreHandshake && f.messageType == Wire.HelloAck then Established
    else if c.role == Client && c.state == Reactivating && Signals(f) && ok then Established
    else c.state
  }

  lemma {:induction false} TlvsSendStatus(c: Core, path: u32, tlvs: seq<Wire.Tlv>)
    ensures var s := HandleTlvs(c, path, tlvs);
      s.out.Ok? ==> forall i :: 0 <= i < |s.out.value.sends| ==> s.out.value.sends[i].msg.Status?
    decreases |tlvs|
  {
    hide DecodeProposalTlv, DecodeAckTlv, ValidateTimerProposal, MaxPending;
    if tlvs != [] {
      TlvsSendStatus(HandleTlv(c, path, tlvs[0]).core, path, tlvs[1..]);
    }
  }

  lemma SignalMoves(c: Core, now: nat, path: u32, next: u64, source: MsrSource)
    ensures var s := HandleMsrSignal(c, now, path, next, source);
      && s.core.state == (if c.role == Client && c.state == Reactivating then Established else c.state)
      && !SendsMsg(s, HelloReply) && !SendsMsg(s, HelloDone)
  {
    hide MaxPending;
  }

  lemma MsrMoves(c: Core, now: nat, path: u32, f: Wire.WireFrame)
    ensures var s := HandleMsr(c, now, path, f);
      && s.core.state == (if c.role == Client && c.state == Reactivating && s.out.Ok? then Established else c.state)
      && !SendsMsg(s, HelloReply) && !SendsMsg(s, HelloDone)
  {
    hide HandleTlvs, HandleMsrSignal;
    var pair := DecodePair(f.payload);
    if pair.Some? {
      var a := HandleTlvs(c, path, f.tlvs);
      TlvsChangeOnlyTimers(c, path, f.tlvs);
      TlvsSendStatus(c, path, f.tlvs);
      SignalMoves(a.core, now, path, pair.value.1, ControlMsrFrame);
      if a.out.Ok? {
        SendsTogether(a, HandleMsrSignal(a.core, now, path, pair.value.1, ControlMsrFrame), HelloReply);
        SendsTogether(a, HandleMsrSignal(a.core, now, path, pair.value.1, ControlMsrFrame), HelloDone);
      }
    }
  }

  lemma SendsTogether(a: Step, s: Step, m: Msg)
    requires a.out.Ok? && s.out.Ok?
    ensures SendsMsg(After(a.out.value, s), m) <==> SendsMsg(a, m) || SendsMsg(s, m)
  {
    var x, y := a.out.value.sends, s.out.value.sends;
    if SendsMsg(a, m) {
      var i :| 0 <= i < |x| && x[i].msg == m;
      assert (x + y)[i] == x[i];
    }
    if SendsMsg(s, m) {
      var i :| 0 <= i < |y| && y[i].msg == m;
      assert (x + y)[|x| + i] == y[i];
    }
  }

  lemma PartsMove(c: Core, payload: Bytes)
    ensures var s := HandleFragment(c, payload); s.core.state == c.state && (s.out.Ok? ==> s.out.value.sends == [])
  {
    hide AddFragment;
    PayloadTells(c, payload);
    if |payload| >= FRAGMENT_HEADER_LEN {
      FragmentTells(c, U64Value(payload[..8]), U16Value(payload[8..10]), U16Value(payload[10..12]),
                    payload[FRAGMENT_HEADER_LEN..]);
    }
  }

  lemma RangeMoves(c: Core, path: u32, payload: Bytes)
    ensures var s := HandleRequestRange(c, path, payload);
      s.core == c && !SendsMsg(s, HelloReply) && !SendsMsg(s, HelloDone)
  {
    hide RangeReplies;
    var range := DecodePair(payload);
    if range.Some? {
      RepliesAskNothing(c, range.value.0, range.value.1);
      var r := RangeReplies(c, range.value.0, range.value.1);
      assert r.Ok? ==> forall i :: 0 <= i < |r.value| ==> r.value[i] in r.value;
    }
  }

  /** Which greetings are answered, and which frames move the session. */
  lemma DispatchMoves(c: Core, now: nat, path: u32, f: Wire.WireFrame)
    ensures var s := Dispatch(c, now, path, f);
      && s.core.role == c.role
      && s.core.state == (if f.messageType == Wire.Msr then Moved(c, f, s.out.Ok?) else Moved(c, f.(tlvs := []), false))
      && (SendsMsg(s, HelloReply) <==> Greets(c, f)) && (SendsMsg(s, HelloDone) <==> Welcomes(c, f))
  {
    hide HandleMsr, HandleRequestRange, HandleData, HandleFragment;
    var s := Dispatch(c, now, path, f);
    match f.messageType
    case Msr =>
      MsrMoves(c, now, path, f);
      MsrKeeps(c, now, path, f);
    case RequestRange => RangeMoves(c, path, f.payload);
    case Data => DataTells(c, f.payload);
      DataIsSilent(c, f.payload);
    case Fragment => PartsMove(c, f.payload);
      PayloadTells(c, f.payload);
    case ClientHello =>
      assert s.out.value.sends != [] ==> s.out.value.sends[0].msg == HelloReply;
    case ServerHello =>
      assert s.out.value.sends != [] ==> s.out.value.sends[0].msg == HelloDone;
    case _ =>
  }

  lemma DataIsSilent(c: Core, payload: Bytes)
    ensures HandleData(c, payload).out.Ok? ==> HandleData(c, payload).out.value.sends == []
  {
    hide Accept;
  }

  /** On any bytes: what moves a session and where to, and that exactly the greeting that
      starts a session is answered. */
  lemma DatagramMoves(c: Core, now: nat, path: u32, bytes: Bytes)
    ensures var s := OnDatagram(c, now, path, bytes);
      if !Hears(c, bytes) then s.core.state == c.state
      else
        var f := Wire.Decode(bytes).value;
        && s.core.state == Moved(c, f, s.out.Ok?)
        && (SendsMsg(s, HelloReply) <==> Greets(c, f)) && (SendsMsg(s, HelloDone) <==> Welcomes(c, f))
  {
    hide Wire.Decode, Dispatch, FindSignalTlv, HandleMsrSignal, SendsMsg;
    if Hears(c, bytes) {
      var f := Wire.Decode(bytes).value;
      var a := Arrive(c, now, path);
      DispatchMoves(a, now, path, f);
      var d := Dispatch(a, now, path, f);
      DispatchSucceeds(a, now, path, f);
      var signal := if f.messageType == Wire.Msr then None else FindSignalTlv(f.tlvs);
      if d.out.Ok? {
        if signal.Some? {
          SignalMoves(d.core, now, path, signal.value.1, PiggybackTlv);
          var p := HandleMsrSignal(d.core, now, path, signal.value.1, PiggybackTlv);
          SendsTogether(d, p, HelloReply);
          SendsTogether(d, p, HelloDone);
        } else {
          AfterNothingMore(d);
        }
      }
    }
  }

  /** Greetings never fail. */
  lemma DispatchSucceeds(c: Core, now: nat, path: u32, f: Wire.WireFrame)
    ensures f.messageType == Wire.ClientHello || f.messageType == Wire.ServerHello || f.messageType == Wire.HelloAck ==>
      Dispatch(c, now, path, f).out.Ok?
    ensures FindSignalTlv([]) == None
  {
  }

  /** Timers report the end of a session, a proposal given up and a probe sent exactly when
      they happen, and nothing else. */
  lemma TimersTell(c: Core, now: nat, id: TimerId)
    ensures var s := OnTimer(c, now, id);
      && s.out.Ok?
      && (forall e :: e in s.out.value.events ==>
            e == Disconnected || e == ReactivationProbeSent || e.TimerRenegotiationRolledBack?)
      && (Disconnected in s.out.value.events <==> s.core.state == Lost && c.state != Lost)
      && (ReactivationProbeSent in s.out.value.events <==> c.role == Client && s.out.value.sends != [])
      && (forall pid :: TimerRenegotiationRolledBack(pid) in s.out.value.events <==>
            c.pendingLocal.Some? && c.pendingLocal.value.proposalId == pid && s.core.pendingLocal == None)
  {
  }
}
