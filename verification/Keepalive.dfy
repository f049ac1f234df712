/** The two keepalive constants fit together: a client MSR for every fourth server MSR keeps
    the server's count of unanswered MSRs below its limit of eight. */
module Keepalive {
  import opened ByteOrder
  import opened Protocol
  import opened CoreSpec
  import opened MachineRuns
  import opened Delivery
  import opened Network
  import opened Completeness

  // ---------------------------------------------------------------- counting datagrams

  /** Datagrams not seen yet. */
  ghost function InFlight(log: seq<Msg>, seen: set<nat>): set<nat> {
    set i: nat | i < |log| && i !in seen
  }

  ghost function MsrsInFlight(log: seq<Msg>, seen: set<nat>): set<nat> {
    set i: nat | i < |log| && i !in seen && log[i].Status?
  }

  lemma {:induction false} InFlightGrows(log: seq<Msg>, more: seq<Msg>, seen: set<nat>)
    requires SeenInRange(seen, log)
    ensures |InFlight(log + more, seen)| == |InFlight(log, seen)| + |more|
    decreases |more|
  {
    if more == [] {
      assert log + more == log;
    } else {
      var front := more[..|more| - 1];
      InFlightGrows(log, front, seen);
      var last := |log| + |front|;
      assert InFlight(log + more, seen) == InFlight(log + front, seen) + {last};
    }
  }

  lemma MsrsGrow(log: seq<Msg>, more: seq<Msg>, seen: set<nat>)
    requires SeenInRange(seen, log)
    ensures |MsrsInFlight(log + more, seen)| >= |MsrsInFlight(log, seen)|
    ensures more != [] && more[0].Status? ==> |MsrsInFlight(log + more, seen)| > |MsrsInFlight(log, seen)|
  {
    var before, after := MsrsInFlight(log, seen), MsrsInFlight(log + more, seen);
    assert before <= after;
    Subset(before, after);
    if more != [] && more[0].Status? {
      assert (log + more)[|log|] == more[0];
      Subset(before + {|log|}, after);
    }
  }

  lemma {:induction false} Subset(a: set<nat>, b: set<nat>)
    requires a <= b
    ensures |a| <= |b|
  {
    if a != {} {
      var x :| x in a;
      Subset(a - {x}, b - {x});
    }
  }

  lemma OneArrives(log: seq<Msg>, seen: set<nat>, i: nat)
    requires i < |log|
    ensures |InFlight(log, seen + {i})| >= |InFlight(log, seen)| - 1
    ensures |MsrsInFlight(log, seen + {i})| >= |MsrsInFlight(log, seen)| - (if log[i].Status? then 1 else 0)
  {
    assert InFlight(log, seen) - {i} == InFlight(log, seen + {i});
    assert MsrsInFlight(log, seen) - {i} == MsrsInFlight(log, seen + {i});
  }

  // ------------------------------------------------------------------- single steps

  function SentCount(s: Step): nat {
    if s.out.Ok? then |s.out.value.sends| else 0
  }

  /** A client pays for every server MSR it takes in: by counting it, or, at the fourth, by
      sending one. */
  lemma ClientCounts(c: Core, now: nat, path: u32, m: Msg)
    requires c.role == Client && c.clientMsrRx < CLIENT_KEEPALIVE_EVERY_SERVER_MSR
    ensures var s := OnMsg(c, now, path, m);
      && s.core.role == Client && s.core.clientMsrRx < CLIENT_KEEPALIVE_EVERY_SERVER_MSR
      && 4 * SentCount(s) + s.core.clientMsrRx >= c.clientMsrRx + (if m.Status? then 1 else 0)
  {
    hide Handle, HandleMsrSignal;
    HandleCounts(c, now, path, m);
    var a := Handle(c, now, path, m);
    if CarriesSignal(m) && a.out.Ok? {
      SignalCounts(a.core, now, path, m.nextPending, if m.Status? then ControlMsrFrame else PiggybackTlv);
    }
  }

  lemma HandleCounts(c: Core, now: nat, path: u32, m: Msg)
    requires c.role == Client && c.clientMsrRx < CLIENT_KEEPALIVE_EVERY_SERVER_MSR
    ensures var s := Handle(c, now, path, m);
      && s.core.role == Client
      && (if m.HelloReply? then s.core.clientMsrRx == c.clientMsrRx || (s.core.clientMsrRx == 0 && SentCount(s) == 1)
          else s.core.clientMsrRx == c.clientMsrRx)
      && (m.Status? ==> s.out.Ok?)
  {
    hide RangeReplies, AddFragment, Accept;
    if m.Whole? {
      AcceptFrame(c, m.msgId, m.payload);
    } else if m.Part? {
      FragmentFrame(c, m.msgId, m.index, m.total, m.chunk);
    }
  }

  lemma SignalCounts(c: Core, now: nat, path: u32, next: u64, source: MsrSource)
    requires c.role == Client && c.clientMsrRx < CLIENT_KEEPALIVE_EVERY_SERVER_MSR
    ensures var s := HandleMsrSignal(c, now, path, next, source);
      && s.core.role == Client && s.core.clientMsrRx < CLIENT_KEEPALIVE_EVERY_SERVER_MSR
      && (source == PiggybackTlv ==> s.core.clientMsrRx == c.clientMsrRx)
      && (source == ControlMsrFrame ==> 4 * |s.out.value.sends| + s.core.clientMsrRx >= c.clientMsrRx + 1)
  {
  }

  /** The count a server may carry: none before it is Established, any after it is Lost. */
  ghost predicate ServerShape(c: Core) {
    c.role == Server && c.state != Reactivating && (c.state == PreHandshake ==> c.serverMsrRun == 0)
  }

  /** Whatever a server takes in from its client clears its count. */
  lemma ServerClears(c: Core, now: nat, path: u32, m: Msg)
    requires ServerShape(c) && (c.state == Established ==> c.serverMsrRun == 0)
    ensures var d := OnMsg(c, now, path, m).core;
      ServerShape(d) && (d.state == Established ==> d.serverMsrRun == 0)
  {
    hide Handle, HandleMsrSignal;
    HandleClears(c, now, path, m);
    var a := Handle(c, now, path, m);
    if CarriesSignal(m) && a.out.Ok? {
      var source := if m.Status? then ControlMsrFrame else PiggybackTlv;
      SignalClears(a.core, now, path, m.nextPending, source);
      SignalKeeps(a.core, now, path, m.nextPending, source);
    }
  }

  lemma SignalClears(c: Core, now: nat, path: u32, next: u64, source: MsrSource)
    requires c.role == Server
    ensures HandleMsrSignal(c, now, path, next, source).core.serverMsrRun == 0
  {
  }

  lemma HandleClears(c: Core, now: nat, path: u32, m: Msg)
    requires ServerShape(c) && (c.state == Established ==> c.serverMsrRun == 0)
    ensures var d := Handle(c, now, path, m).core;
      ServerShape(d) && (d.state == Established ==> d.serverMsrRun == 0)
  {
    hide RangeReplies, AddFragment, Accept;
    if m.Whole? {
      AcceptFrame(c, m.msgId, m.payload);
    } else if m.Part? {
      FragmentFrame(c, m.msgId, m.index, m.total, m.chunk);
    }
  }

  lemma ClientLocal(c: Core, input: Input)
    requires Allowed(c, input) && !input.Datagram? && c.role == Client
    ensures var d := Apply(c, input).core; d.role == Client && d.clientMsrRx == c.clientMsrRx
  {
    hide ValidateTimerProposal, MaxKey;
  }

  predicate SendsMsrFirst(s: Step) {
    s.out.Ok? && s.out.value.sends != [] && s.out.value.sends[0].msg.Status?
  }

  /** On its own a server raises its count only by sending an MSR. */
  lemma ServerLocal(c: Core, input: Input)
    requires Allowed(c, input) && !input.Datagram? && ServerShape(c)
    ensures var s := Apply(c, input);
      && ServerShape(s.core)
      && (s.core.state == Established ==> c.state == Established)
      && (s.core.serverMsrRun == c.serverMsrRun || s.core.state == Lost
          || (s.core.serverMsrRun == c.serverMsrRun + 1 && SendsMsrFirst(s)))
  {
    hide ValidateTimerProposal, MaxKey;
  }

  // ------------------------------------------------------------------------ whole runs

  /** Client datagrams in flight, server MSRs in flight. */
  ghost function ClientInFlight(s: System): nat {
    |InFlight(s.client.log, s.server.seen)|
  }

  ghost function ServerMsrsInFlight(s: System): nat {
    |MsrsInFlight(s.server.log, s.client.seen)|
  }

  ghost predicate Alive(s: System) {
    && SeenInRange(s.server.seen, s.client.log) && SeenInRange(s.client.seen, s.server.log)
    && s.client.core.role == Client && s.client.core.clientMsrRx < CLIENT_KEEPALIVE_EVERY_SERVER_MSR
    && ServerShape(s.server.core)
    && (s.server.core.state == Established ==>
          s.server.core.serverMsrRun <= 4 * ClientInFlight(s) + s.client.core.clientMsrRx + ServerMsrsInFlight(s))
  }

  lemma ClientDelivers(s: System, i: nat, now: nat, path: u32)
    requires Alive(s) && Possible(s.client, s.server.log, Deliver(i, now, path))
    ensures Alive(s.(client := StepEnd(s.client, s.server.log, Deliver(i, now, path))))
  {
    hide OnMsg, StepEnd, InFlight, MsrsInFlight;
    DeliverFields(s.client, s.server.log, i, now, path);
    var m := s.server.log[i];
    var c := Arrive(s.client.core, now, path);
    ClientCounts(c, now, path, m);
    var step := OnMsg(c, now, path, m);
    OneArrives(s.server.log, s.client.seen, i);
    if step.out.Ok? {
      InFlightGrows(s.client.log, Messages(step.out.value.sends), s.server.seen);
    }
  }

  lemma ServerDelivers(s: System, i: nat, now: nat, path: u32)
    requires Alive(s) && Possible(s.server, s.client.log, Deliver(i, now, path))
    ensures Alive(s.(server := StepEnd(s.server, s.client.log, Deliver(i, now, path))))
  {
    hide OnMsg, StepEnd, InFlight, MsrsInFlight;
    DeliverFields(s.server, s.client.log, i, now, path);
    ServerClears(Arrive(s.server.core, now, path), now, path, s.client.log[i]);
  }

  lemma ClientActs(s: System, input: Input)
    requires Alive(s) && Possible(s.client, s.server.log, Local(input))
    ensures Alive(s.(client := StepEnd(s.client, s.server.log, Local(input))))
  {
    hide Apply, InFlight, MsrsInFlight;
    ClientLocal(s.client.core, input);
    var step := Apply(s.client.core, input);
    if step.out.Ok? {
      InFlightGrows(s.client.log, Messages(step.out.value.sends), s.server.seen);
    }
  }

  lemma ServerActs(s: System, input: Input)
    requires Alive(s) && Possible(s.server, s.client.log, Local(input))
    ensures Alive(s.(server := StepEnd(s.server, s.client.log, Local(input))))
  {
    hide Apply, InFlight, MsrsInFlight;
    ServerLocal(s.server.core, input);
    var step := Apply(s.server.core, input);
    if step.out.Ok? {
      MsrsGrow(s.server.log, Messages(step.out.value.sends), s.client.seen);
    }
  }

  lemma NextAlive(s: System, side: Role, a: Act)
    requires Alive(s)
    ensures Alive(Next(s, side, a))
  {
    hide Alive, StepEnd, Possible;
    if side == Client && Possible(s.client, s.server.log, a) {
      match a
      case Deliver(i, now, path) => ClientDelivers(s, i, now, path);
      case Local(input) => ClientActs(s, input);
    } else if side == Server && Possible(s.server, s.client.log, a) {
      match a
      case Deliver(i, now, path) => ServerDelivers(s, i, now, path);
      case Local(input) => ServerActs(s, input);
    }
  }

  lemma {:induction false} PlayAlive(s: System, acts: seq<(Role, Act)>)
    requires Alive(s)
    ensures Alive(Play(s, acts))
    decreases |acts|
  {
    hide Alive, Next;
    if acts != [] {
      NextAlive(s, acts[0].0, acts[0].1);
      PlayAlive(Next(s, acts[0].0, acts[0].1), acts[1..]);
    }
  }

  /** In every reachable state the server's count is at most four times the client datagrams
      in flight, plus what the client has counted, plus the server MSRs in flight. */
  lemma CountIsBounded(cid: u64, clientCfg: Config, serverCfg: Config, acts: seq<(Role, Act)>)
    ensures var s := Play(Boot(cid, clientCfg, serverCfg), acts);
      && s.client.core.clientMsrRx < CLIENT_KEEPALIVE_EVERY_SERVER_MSR
      && (s.server.core.state == Established ==>
            s.server.core.serverMsrRun <= 4 * ClientInFlight(s) + s.client.core.clientMsrRx + ServerMsrsInFlight(s))
  {
    hide Play, InFlight, MsrsInFlight;
    BootAlive(cid, clientCfg, serverCfg);
    PlayAlive(Boot(cid, clientCfg, serverCfg), acts);
  }

  lemma BootAlive(cid: u64, clientCfg: Config, serverCfg: Config)
    ensures Alive(Boot(cid, clientCfg, serverCfg))
  {
  }

  /** So a server MSR timer never makes a live session lost while four times the client
      datagrams in flight plus the server MSRs in flight are at most four. */
  lemma FiringKeepsSession(cid: u64, clientCfg: Config, serverCfg: Config, acts: seq<(Role, Act)>, now: nat)
    ensures var s := Play(Boot(cid, clientCfg, serverCfg), acts);
      s.server.core.state == Established && 4 * ClientInFlight(s) + ServerMsrsInFlight(s) <= 4 ==>
        OnTimer(s.server.core, now, ServerMsr).core.state == Established
  {
    hide Play, InFlight, MsrsInFlight;
    CountIsBounded(cid, clientCfg, serverCfg, acts);
    BootAlive(cid, clientCfg, serverCfg);
    PlayAlive(Boot(cid, clientCfg, serverCfg), acts);
  }
}
