/** What makes loss fatal: every message id is asked for by at most one request, ever, and a
    message reaches the receiver only if that request reached the sender. */
module Requests {
  import opened ByteOrder
  import opened Protocol
  import opened CoreSpec
  import opened Receiver
  import opened MachineRuns
  import opened MachineSafety
  import opened Delivery
  import opened Network
  import opened OrderedDelivery
  import opened Completeness

  predicate CarriesId(m: Msg, id: nat) {
    (m.Whole? || m.Part?) && m.msgId == id
  }

  /** Requests in the log lie behind one another, up to what has been requested. */
  ghost predicate Disjoint(log: seq<Msg>, end: nat) {
    && (forall j :: 0 <= j < |log| && log[j].Pull? ==> 1 <= log[j].start <= log[j].end <= end)
    && (forall j, k :: 0 <= j < k < |log| && log[j].Pull? && log[k].Pull? ==> log[j].end < log[k].start)
  }

  ghost predicate Asked(log: seq<Msg>, seen: set<nat>, id: nat) {
    exists j :: 0 <= j < |log| && j in seen && Covers(log[j], id)
  }

  /** Whatever `x` sent of a message, it sent on a request from `y` that it has seen. */
  ghost predicate SentOnRequest(x: Endpoint, yLog: seq<Msg>) {
    forall k :: 0 <= k < |x.log| && (x.log[k].Whole? || x.log[k].Part?) ==> Asked(yLog, x.seen, x.log[k].msgId)
  }

  ghost predicate SentFor(log: seq<Msg>, id: nat) {
    exists k :: 0 <= k < |log| && CarriesId(log[k], id)
  }

  /** Whatever `y` has of a message, it has from the log of `x`. */
  ghost predicate TakenFrom(xLog: seq<Msg>, c: Core) {
    forall id :: id in c.receivedIds || id in c.fragments ==> SentFor(xLog, id)
  }

  ghost predicate OnRequest(x: Endpoint, y: Endpoint) {
    && Disjoint(y.log, y.core.lastRequestedEnd)
    && SentOnRequest(x, y.log)
    && TakenFrom(x.log, y.core)
  }

  // ------------------------------------------------------------- requests of one step

  lemma {:induction false} PulledMember(sends: seq<Send>, k: nat)
    requires k < |sends| && sends[k].msg.Pull?
    ensures (sends[k].msg.start, sends[k].msg.end) in Pulled(sends)
  {
    if k > 0 {
      PulledMember(sends[1..], k - 1);
    }
  }

  lemma {:induction false} PulledTwice(sends: seq<Send>, j: nat, k: nat)
    requires j < k < |sends| && sends[j].msg.Pull? && sends[k].msg.Pull?
    ensures |Pulled(sends)| >= 2
  {
    if j > 0 {
      PulledTwice(sends[1..], j - 1, k - 1);
    } else {
      PulledMember(sends[1..], k - 1);
    }
  }

  lemma StepDisjoint(log: seq<Msg>, c: Core, s: Step)
    requires Disjoint(log, c.lastRequestedEnd) && PullsNext(c, s) && s.out.Ok?
    ensures Disjoint(log + Messages(s.out.value.sends), s.core.lastRequestedEnd)
  {
    var sends := s.out.value.sends;
    var all := log + Messages(sends);
    forall k | |log| <= k < |all| && all[k].Pull?
      ensures all[k].start == c.lastRequestedEnd + 1 && all[k].end == s.core.lastRequestedEnd >= all[k].start
    {
      PulledMember(sends, k - |log|);
    }
    forall j, k | 0 <= j < k < |all| && all[j].Pull? && all[k].Pull?
      ensures all[j].end < all[k].start
    {
      if j >= |log| {
        PulledTwice(sends, j - |log|, k - |log|);
      }
    }
  }

  lemma OnMsgPulls(c: Core, now: nat, path: u32, m: Msg)
    requires ReceiverInv(c) && WellFormed(m)
    ensures PullsNext(c, OnMsg(c, now, path, m))
    ensures OnMsg(c, now, path, m).out.Err? ==> OnMsg(c, now, path, m).core.lastRequestedEnd == c.lastRequestedEnd
  {
    hide OnMsg, OnFrame, ToFrame;
    FrameAsMsg(c, now, path, m);
    FrameSteps(c, now, path, ToFrame(c.cid, m));
  }

  lemma LocalPulls(c: Core, input: Input)
    requires Allowed(c, input) && !input.Datagram?
    ensures PullsNext(c, Apply(c, input))
  {
    hide ValidateTimerProposal, Pulled;
    LocalKeepsRequests(c, input);
    var s := Apply(c, input);
    if s.out.Ok? {
      PulledNone(s.out.value.sends);
    }
  }

  // --------------------------------------------------------------- data of one step

  lemma {:induction false} RepliesAreAsked(c: Core, start: nat, end: u64)
    ensures var r := RangeReplies(c, start, end);
      r.Ok? ==> forall i :: 0 <= i < |r.value| ==>
        (r.value[i].Whole? || r.value[i].Part?) && start <= r.value[i].msgId <= end
    decreases end + 1 - start
  {
    if start <= end {
      RepliesAreAsked(c, start + 1, end);
    }
  }

  /** A step sends data only for ids of the request it answers. */
  ghost predicate DataOnlyFor(s: Step, m: Msg) {
    s.out.Ok? ==> forall i :: 0 <= i < |s.out.value.sends| ==>
      (s.out.value.sends[i].msg.Whole? || s.out.value.sends[i].msg.Part?) ==> Covers(m, s.out.value.sends[i].msg.msgId)
  }

  lemma OnMsgData(c: Core, now: nat, path: u32, m: Msg)
    requires ReceiverInv(c)
    ensures DataOnlyFor(OnMsg(c, now, path, m), m)
  {
    hide HandleMsrSignal, RangeReplies, AddFragment, Accept;
    if m.Pull? {
      RepliesAreAsked(c, m.start, m.end);
    }
    if m.Part? {
      AddFragmentSilent(c, m.msgId, m.index, m.total, m.chunk);
    }
    var a := Handle(c, now, path, m);
    if CarriesSignal(m) {
      SignalSends(a.core, now, path, m.nextPending, if m.Status? then ControlMsrFrame else PiggybackTlv);
    }
  }

  lemma LocalData(c: Core, input: Input)
    requires Allowed(c, input) && !input.Datagram?
    ensures var s := Apply(c, input); s.out.Ok? ==> forall i :: 0 <= i < |s.out.value.sends| ==>
      !s.out.value.sends[i].msg.Whole? && !s.out.value.sends[i].msg.Part?
  {
    hide ValidateTimerProposal;
  }

  /** A step takes in nothing but the message it is given. */
  lemma OnMsgTakes(c: Core, now: nat, path: u32, m: Msg)
    requires ReceiverInv(c)
    ensures var d := OnMsg(c, now, path, m).core;
      forall id :: id in d.receivedIds || id in d.fragments ==>
        id in c.receivedIds || id in c.fragments || CarriesId(m, id)
  {
    hide HandleMsrSignal, Handle;
    HandleTakes(c, now, path, m);
    var a := Handle(c, now, path, m);
    if CarriesSignal(m) {
      SignalKeeps(a.core, now, path, m.nextPending, if m.Status? then ControlMsrFrame else PiggybackTlv);
    }
  }

  lemma HandleTakes(c: Core, now: nat, path: u32, m: Msg)
    requires ReceiverInv(c)
    ensures var d := Handle(c, now, path, m).core;
      forall id :: id in d.receivedIds || id in d.fragments ==>
        id in c.receivedIds || id in c.fragments || CarriesId(m, id)
  {
    hide RangeReplies, AddFragment, Accept, Incomplete;
    if m.Whole? && c.state == Established && m.msgId !in c.receivedIds {
      AcceptFields(c, m.msgId, m.payload);
    } else if m.Part? && c.state == Established {
      FragmentTakes(c, m.msgId, m.index, m.total, m.chunk);
    } else if !m.Whole? && !m.Part? {
      HandsNothing(c, now, path, m);
    }
  }

  lemma FragmentTakes(c: Core, id: u64, index: u16, total: u16, chunk: Bytes)
    requires ReceiverInv(c)
    ensures var d := AddFragment(c, id, index, total, chunk).core;
      && d.receivedIds <= c.receivedIds + {id}
      && forall k :: k in d.fragments ==> k in c.fragments || k == id
  {
    hide Accept, AddChunk;
    if id !in c.receivedIds && index < total {
      var acc := AddChunk(c, id, index, total, chunk);
      var held := c.(fragments := c.fragments[id := acc]);
      if acc.total == total && |acc.chunks| == acc.total && Merge(acc.chunks, acc.total).Some? {
        AcceptFields(held, id, Merge(acc.chunks, acc.total).value);
      }
    }
  }

  // ------------------------------------------------------------------------- actions

  lemma AskedGrows(log: seq<Msg>, more: seq<Msg>, seen: set<nat>, id: nat, i: nat)
    requires Asked(log, seen, id) || (i < |log| && Covers(log[i], id))
    ensures Asked(log + more, seen + {i}, id)
  {
    var all := log + more;
    if Asked(log, seen, id) {
      var j :| 0 <= j < |log| && j in seen && Covers(log[j], id);
      assert all[j] == log[j];
    } else {
      assert all[i] == log[i];
    }
  }

  lemma SentForGrows(log: seq<Msg>, more: seq<Msg>, id: nat)
    requires SentFor(log, id)
    ensures SentFor(log + more, id)
  {
    var k :| 0 <= k < |log| && CarriesId(log[k], id);
    assert (log + more)[k] == log[k];
  }

  /** A delivery at `y`: towards it, its requests stay disjoint and it takes from the log. */
  lemma TakerDelivers(x: Endpoint, y: Endpoint, i: nat, now: nat, path: u32)
    requires OnRequest(x, y) && ReceiverInv(y.core) && Possible(y, x.log, Deliver(i, now, path))
    ensures OnRequest(x, StepEnd(y, x.log, Deliver(i, now, path)))
  {
    hide OnMsg, StepEnd, ReceiverInv, Asked, SentFor, Disjoint, SentOnRequest;
    DeliverFields(y, x.log, i, now, path);
    var m := x.log[i];
    var c := Arrive(y.core, now, path);
    ReceiverInvTransfers(y.core, c);
    OnMsgPulls(c, now, path, m);
    OnMsgTakes(c, now, path, m);
    var s := OnMsg(c, now, path, m);
    var z := StepEnd(y, x.log, Deliver(i, now, path));
    if s.out.Ok? {
      StepDisjoint(y.log, c, s);
      LogGrowsOnRequest(x, y.log, Messages(s.out.value.sends));
    }
    forall id | id in z.core.receivedIds || id in z.core.fragments
      ensures SentFor(x.log, id)
    {
      if CarriesId(m, id) {
        CarriedIsSent(x.log, i, id);
      }
    }
  }

  lemma CarriedIsSent(log: seq<Msg>, i: nat, id: nat)
    requires i < |log| && CarriesId(log[i], id)
    ensures SentFor(log, id)
  {
  }

  lemma LogGrowsOnRequest(x: Endpoint, yLog: seq<Msg>, more: seq<Msg>)
    requires SentOnRequest(x, yLog)
    ensures SentOnRequest(x, yLog + more)
  {
    forall k | 0 <= k < |x.log| && (x.log[k].Whole? || x.log[k].Part?)
      ensures Asked(yLog + more, x.seen, x.log[k].msgId)
    {
      var j :| 0 <= j < |yLog| && j in x.seen && Covers(yLog[j], x.log[k].msgId);
      assert (yLog + more)[j] == yLog[j];
    }
  }

  /** A delivery at `x`: what it sends of a message, it was just asked for. */
  lemma GiverDelivers(x: Endpoint, y: Endpoint, i: nat, now: nat, path: u32)
    requires OnRequest(x, y) && ReceiverInv(x.core) && Possible(x, y.log, Deliver(i, now, path))
    ensures OnRequest(StepEnd(x, y.log, Deliver(i, now, path)), y)
  {
    hide OnMsg, StepEnd, ReceiverInv, Asked, SentFor, Disjoint;
    DeliverFields(x, y.log, i, now, path);
    var m := y.log[i];
    var c := Arrive(x.core, now, path);
    ReceiverInvTransfers(x.core, c);
    OnMsgData(c, now, path, m);
    var s := OnMsg(c, now, path, m);
    var z := StepEnd(x, y.log, Deliver(i, now, path));
    var more := if s.out.Ok? then Messages(s.out.value.sends) else [];
    assert z.log == x.log + more;
    forall k | 0 <= k < |z.log| && (z.log[k].Whole? || z.log[k].Part?)
      ensures Asked(y.log, z.seen, z.log[k].msgId)
    {
      assert k >= |x.log| ==> z.log[k] == more[k - |x.log|];
      AskedGrows(y.log, [], x.seen, z.log[k].msgId, i);
      assert y.log + [] == y.log;
    }
    forall id | id in y.core.receivedIds || id in y.core.fragments
      ensures SentFor(z.log, id)
    {
      SentForGrows(x.log, more, id);
    }
  }

  lemma LocalOnRequest(x: Endpoint, y: Endpoint, input: Input)
    requires OnRequest(x, y) && OnRequest(y, x) && Possible(x, y.log, Local(input))
    ensures OnRequest(StepEnd(x, y.log, Local(input)), y) && OnRequest(y, StepEnd(x, y.log, Local(input)))
  {
    hide Apply, Asked, SentFor;
    LocalPulls(x.core, input);
    LocalData(x.core, input);
    LocalReceivesNothing(x.core, input);
    LocalKeepsRequests(x.core, input);
    var s := Apply(x.core, input);
    var z := StepEnd(x, y.log, Local(input));
    var more := if s.out.Ok? then Messages(s.out.value.sends) else [];
    assert z.log == x.log + more;
    if s.out.Ok? {
      StepDisjoint(x.log, x.core, s);
    }
    LogGrowsOnRequest(y, x.log, more);
    forall id | id in y.core.receivedIds || id in y.core.fragments
      ensures SentFor(z.log, id)
    {
      SentForGrows(x.log, more, id);
    }
  }

  // ---------------------------------------------------------------------- whole runs

  ghost predicate Requested(s: System) {
    && ReceiverInv(s.client.core) && ReceiverInv(s.server.core)
    && OnRequest(s.client, s.server) && OnRequest(s.server, s.client)
  }

  lemma ActOnRequest(x: Endpoint, y: Endpoint, a: Act)
    requires OnRequest(x, y) && OnRequest(y, x) && ReceiverInv(x.core) && Possible(x, y.log, a)
    ensures OnRequest(StepEnd(x, y.log, a), y) && OnRequest(y, StepEnd(x, y.log, a))
  {
    hide OnRequest, StepEnd, Possible, ReceiverInv;
    match a
    case Deliver(i, now, path) =>
      GiverDelivers(x, y, i, now, path);
      TakerDelivers(y, x, i, now, path);
    case Local(input) => LocalOnRequest(x, y, input);
  }

  lemma NextRequested(s: System, side: Role, a: Act)
    requires Linked(s) && Requested(s)
    ensures Linked(Next(s, side, a)) && Requested(Next(s, side, a))
  {
    hide Link, OnRequest, StepEnd, Possible, ReceiverInv;
    NextLinked(s, side, a);
    var n := Next(s, side, a);
    LinkGivesReceiver(n.client, n.server);
    LinkGivesReceiver(n.server, n.client);
    if side == Client && Possible(s.client, s.server.log, a) {
      ActOnRequest(s.client, s.server, a);
    } else if side == Server && Possible(s.server, s.client.log, a) {
      ActOnRequest(s.server, s.client, a);
    }
  }

  lemma {:induction false} PlayRequested(s: System, acts: seq<(Role, Act)>)
    requires Linked(s) && Requested(s)
    ensures Requested(Play(s, acts))
    decreases |acts|
  {
    hide Linked, Requested, Next;
    if acts != [] {
      NextRequested(s, acts[0].0, acts[0].1);
      PlayRequested(Next(s, acts[0].0, acts[0].1), acts[1..]);
    }
  }

  /** A request that covers the id has arrived, and it is the only one there is. */
  ghost predicate OnlyRequestArrived(log: seq<Msg>, seen: set<nat>, id: nat) {
    exists j ::
      && 0 <= j < |log| && j in seen && Covers(log[j], id)
      && (forall k :: 0 <= k < |log| && Covers(log[k], id) ==> k == j)
  }

  lemma ReceivedNeedsRequest(x: Endpoint, y: Endpoint, id: u64)
    requires OnRequest(x, y) && id in y.core.receivedIds
    ensures OnlyRequestArrived(y.log, x.seen, id)
  {
    assert SentFor(x.log, id);
    var k :| 0 <= k < |x.log| && CarriesId(x.log[k], id);
    assert Asked(y.log, x.seen, x.log[k].msgId);
    var j :| 0 <= j < |y.log| && j in x.seen && Covers(y.log[j], id);
  }

  /** Over every run, lossy or not: an id is received only if the single request that covers
      it was sent and has arrived. So a request the network drops is never made good. */
  lemma LostRequestsAreNeverRepeated(cid: u64, clientCfg: Config, serverCfg: Config, acts: seq<(Role, Act)>, id: u64)
    ensures var s := Play(Boot(cid, clientCfg, serverCfg), acts);
      && (id in s.server.core.receivedIds ==> OnlyRequestArrived(s.server.log, s.client.seen, id))
      && (id in s.client.core.receivedIds ==> OnlyRequestArrived(s.client.log, s.server.seen, id))
  {
    hide OnRequest, Play, OnlyRequestArrived;
    BootLinked(cid, clientCfg, serverCfg);
    BootRequested(cid, clientCfg, serverCfg);
    PlayRequested(Boot(cid, clientCfg, serverCfg), acts);
    var s := Play(Boot(cid, clientCfg, serverCfg), acts);
    if id in s.server.core.receivedIds {
      ReceivedNeedsRequest(s.client, s.server, id);
    }
    if id in s.client.core.receivedIds {
      ReceivedNeedsRequest(s.server, s.client, id);
    }
  }

  lemma BootRequested(cid: u64, clientCfg: Config, serverCfg: Config)
    ensures Requested(Boot(cid, clientCfg, serverCfg))
  {
  }
}
