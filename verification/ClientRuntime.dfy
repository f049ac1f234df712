/** The client runtime (v3-client-runtime): one machine and the wheel of its timers. The first
    part says what each call makes of the two; the class does it in place. */
module ClientRuntime {
  import opened ByteOrder
  import opened Wrappers
  import opened Protocol
  import opened CoreSpec
  import opened MachineRuns
  import opened TimerWheel
  import opened CoreTimers
  import M = CoreMachine

  datatype ClientState = ClientState(core: Core, timers: Wheel<TimerId>)

  /** Scheduling an entry the wheel already has does nothing. */
  function Ingest(w: Wheel<TimerId>, actions: seq<TimerAction>): Wheel<TimerId> {
    if actions == [] then w
    else
      var last := actions[|actions| - 1];
      PushOnce(Ingest(w, actions[..|actions| - 1]), last.deadlineMs, last.id)
  }

  /** A call that fails leaves the wheel alone. */
  function Finish(timers: Wheel<TimerId>, s: Step): ClientState {
    ClientState(s.core, if s.out.Ok? then Ingest(timers, s.out.value.timers) else timers)
  }

  function Drive(c: ClientState, i: Input): ClientState
    requires Allowed(c.core, i)
  {
    Finish(c.timers, Apply(c.core, i))
  }

  /** Take one due entry out and fire it. */
  function Fire(c: ClientState, now: nat, e: (nat, TimerId)): (ClientState, Out) {
    TimerRules(c.core, now, e.1);
    var s := OnTimer(c.core, now, e.1);
    (Finish(Without(c.timers, e.0, e.1), s), s.out.value)
  }

  function FireAll(c: ClientState, now: nat, due: seq<(nat, TimerId)>): (ClientState, Out) {
    if due == [] then (c, NOTHING)
    else
      var front := FireAll(c, now, due[..|due| - 1]);
      var last := Fire(front.0, now, due[|due| - 1]);
      (last.0, Plus(front.1, last.1))
  }

  /** A poll first settles which entries are due, then fires them one by one; what they
      schedule waits for the next poll. */
  function Poll(c: ClientState, now: nat, limit: nat): (ClientState, Out) {
    FireAll(c, now, Due(c.timers, now, limit))
  }

  // --------------------------------------------------------------------- the runtime

  datatype Output = Output(datagrams: seq<OutboundDatagram>, events: seq<Event>)

  /** What the caller sees of a machine's output. */
  ghost predicate Shows(cid: u64, o: Out, r: Output) {
    M.Renders(cid, o.sends, r.datagrams) && r.events == o.events
  }

  ghost predicate Reports(cid: u64, s: Step, r: Result<Output, CoreError>) {
    if s.out.Err? then r == Err(s.out.error) else r.Ok? && Shows(cid, s.out.value, r.value)
  }

  lemma ShowsNothing(cid: u64)
    ensures Shows(cid, NOTHING, Output([], []))
  {
  }

  lemma ShowsPlus(cid: u64, a: Out, b: Out, x: Output, y: Output)
    requires Shows(cid, a, x) && Shows(cid, b, y)
    ensures Shows(cid, Plus(a, b), Output(x.datagrams + y.datagrams, x.events + y.events))
  {
  }

  class ClientRuntime {
    const core: M.CoreMachine
    var timers: Wheel<TimerId>

    ghost function View(): ClientState
      reads this, core
    {
      ClientState(core.View(), timers)
    }

    constructor (cid: u64, cfg: Config)
      ensures View() == ClientState(Init(Role.Client, cid, cfg), map[])
      ensures fresh(core)
    {
      core := new M.CoreMachine(Role.Client, cid, cfg);
      timers := map[];
    }

    method IngestTimers(actions: seq<TimerAction>)
      modifies this`timers
      ensures timers == Ingest(old(timers), actions)
    {
      var i := 0;
      while i < |actions|
        invariant 0 <= i <= |actions|
        invariant timers == Ingest(old(timers), actions[..i])
      {
        var a := actions[i];
        assert actions[..i + 1][..i] == actions[..i];
        var slot := if a.deadlineMs in timers then timers[a.deadlineMs] else [];
        if a.id !in slot {
          timers := timers[a.deadlineMs := slot + [a.id]];
        }
        i := i + 1;
      }
      assert actions[..i] == actions;
    }

    method ApplyCoreOutput(out: CoreOutput) returns (r: Output)
      modifies this`timers
      ensures timers == Ingest(old(timers), out.timers)
      ensures r == Output(out.datagrams, out.events)
    {
      IngestTimers(out.timers);
      return Output(out.datagrams, out.events);
    }

    method Relay(ghost s: Step, result: Result<CoreOutput, CoreError>) returns (r: Result<Output, CoreError>)
      requires core.View() == s.core && M.Returns(core.cid, s, result)
      modifies this`timers
      ensures View() == Finish(old(timers), s) && Reports(core.cid, s, r)
    {
      hide Wire.Encode, Wire.Decode, Render, Ingest;
      if result.Err? {
        return Err(result.error);
      }
      var shown := ApplyCoreOutput(result.value);
      return Ok(shown);
    }

    method BeginHandshake() returns (r: Result<Output, CoreError>)
      modifies this`timers, core
      ensures View() == Drive(old(View()), Begin)
      ensures Reports(core.cid, Apply(old(core.View()), Begin), r)
    {
      hide CoreSpec.BeginHandshake;
      var result := core.BeginHandshake();
      r := Relay(Apply(old(core.View()), Begin), result);
    }

    method OnDatagram(now: nat, srcPathId: u32, bytes: Bytes) returns (r: Result<Output, CoreError>)
      modifies this`timers, core
      ensures View() == Drive(old(View()), Datagram(now, srcPathId, bytes))
      ensures Reports(core.cid, Apply(old(core.View()), Datagram(now, srcPathId, bytes)), r)
    {
      hide CoreSpec.OnDatagram;
      var result := core.OnDatagram(now, srcPathId, bytes);
      r := Relay(Apply(old(core.View()), Datagram(now, srcPathId, bytes)), result);
    }

    method SendMessage(payload: Bytes) returns (r: Result<Output, CoreError>)
      requires core.nextOutboundId < U64_MAX
      modifies this`timers, core
      ensures View() == Drive(old(View()), Input.SendMessage(payload))
      ensures Reports(core.cid, Apply(old(core.View()), Input.SendMessage(payload)), r)
    {
      hide OnApiSend;
      var result := core.OnApiSend(payload);
      r := Relay(Apply(old(core.View()), Input.SendMessage(payload)), result);
    }

    method CloseSession() returns (r: Result<Output, CoreError>)
      modifies this`timers, core
      ensures View() == Drive(old(View()), Input.CloseSession)
      ensures Reports(core.cid, Apply(old(core.View()), Input.CloseSession), r)
    {
      hide OnApiClose;
      var result := core.OnApiClose();
      r := Relay(Apply(old(core.View()), Input.CloseSession), result);
    }

    method ProposeTimers(now: u64, proposal: TimerProposal) returns (r: Result<Output, CoreError>)
      modifies this`timers, core
      ensures View() == Drive(old(View()), Input.ProposeTimers(now, proposal))
      ensures Reports(core.cid, Apply(old(core.View()), Input.ProposeTimers(now, proposal)), r)
    {
      hide OnApiProposeTimers;
      var result := core.OnApiProposeTimers(now, proposal);
      r := Relay(Apply(old(core.View()), Input.ProposeTimers(now, proposal)), result);
    }

    method OnPathChanged(pathId: u32) returns (r: Result<Output, CoreError>)
      modifies this`timers, core
      ensures View() == Drive(old(View()), PathChanged(pathId))
      ensures Reports(core.cid, Apply(old(core.View()), PathChanged(pathId)), r)
    {
      hide CoreSpec.OnPathChanged;
      var result := core.OnPathEvent(pathId);
      r := Relay(Apply(old(core.View()), PathChanged(pathId)), result);
    }

    method FireEntry(now: nat, entry: (nat, TimerId)) returns (r: Result<Output, CoreError>)
      modifies this`timers, core
      ensures View() == Fire(old(View()), now, entry).0
      ensures r.Ok? && Shows(core.cid, Fire(old(View()), now, entry).1, r.value)
    {
      hide CoreSpec.OnTimer, Without, Ingest, Wire.Encode, Wire.Decode, Render;
      TimerRules(core.View(), now, entry.1);
      timers := Pop(timers, entry.0, entry.1);
      var result := core.OnTimer(now, entry.1);
      r := Relay(OnTimer(old(core.View()), now, entry.1), result);
    }

    method PollTimers(now: nat, limit: nat) returns (r: Result<Output, CoreError>)
      modifies this`timers, core
      ensures View() == Poll(old(View()), now, limit).0
      ensures r.Ok? && Shows(core.cid, Poll(old(View()), now, limit).1, r.value)
    {
      hide Fire, Shows, Due;
      var output := Output([], []);
      var due := CollectDue(timers, now, limit);
      var i := 0;
      ShowsNothing(core.cid);
      while i < |due|
        invariant 0 <= i <= |due|
        invariant View() == FireAll(old(View()), now, due[..i]).0
        invariant Shows(core.cid, FireAll(old(View()), now, due[..i]).1, output)
      {
        assert due[..i + 1][..i] == due[..i];
        ghost var before := FireAll(old(View()), now, due[..i]);
        var partial := FireEntry(now, due[i]);
        if partial.Err? {
          return partial;
        }
        ShowsPlus(core.cid, before.1, Fire(before.0, now, due[i]).1, output, partial.value);
        output := Output(output.datagrams + partial.value.datagrams, output.events + partial.value.events);
        i := i + 1;
      }
      assert due[..i] == due;
      return Ok(output);
    }
  }
}
