/** The server's wheel over whole runs: a poll takes out what it fires and adds what that
    schedules, nothing else; and each established session has exactly one keepalive entry. */
module ServerTimers {
  import opened ByteOrder
  import opened Protocol
  import opened CoreSpec
  import opened TimerWheel
  import opened CoreTimers
  import opened ServerRuntime
  import Mem = MemoryStore
  import Wire

  // ------------------------------------------------------------------- conservation

  lemma {:induction false} IngestCounts(w: Wheel<Entry>, cid: u64, actions: seq<TimerAction>, deadline: nat, x: Entry)
    ensures Count(Ingest(w, cid, actions), deadline, x)
         == Count(w, deadline, x) + multiset(Scheduled(cid, actions))[(deadline, x)]
  {
    if actions != [] {
      var n := |actions| - 1;
      IngestCounts(w, cid, actions[..n], deadline, x);
      assert Scheduled(cid, actions) == Scheduled(cid, actions[..n]) + [(actions[n].deadlineMs, (cid, actions[n].id))];
      PushCounts(Ingest(w, cid, actions[..n]), actions[n].deadlineMs, (cid, actions[n].id), deadline, x);
    }
  }

  lemma ConcludeWheel(s: ServerState, cid: u64, path: u32, now: u64, step: Step)
    requires cid in s.sessions
    ensures var r := Conclude(s, cid, path, now, step);
      && r.0.timers == (if step.out.Ok? then Ingest(s.timers, cid, step.out.value.timers) else s.timers)
      && (step.out.Ok? ==> r.1.value.scheduled == Scheduled(cid, step.out.value.timers))
      && r.0.cfg == s.cfg
  {
    hide Ingest, Reported, Routed, Mem.Upserted, RecordOf;
  }

  /** Firing an entry takes it out once and adds what its session schedules. */
  lemma FireCounts(s: ServerState, now: u64, e: (nat, Entry), deadline: nat, x: Entry)
    ensures var f := Fire(s, now, e);
      Count(f.0.timers, deadline, x) ==
        (if e == (deadline, x) && Count(s.timers, deadline, x) > 0 then Count(s.timers, deadline, x) - 1
         else Count(s.timers, deadline, x)) + multiset(f.1.scheduled)[(deadline, x)]
  {
    hide Conclude, Without, OnTimer;
    var taken := s.(timers := Without(s.timers, e.0, e.1));
    WithoutCounts(s.timers, e.0, e.1, deadline, x);
    var cid := e.1.0;
    if cid in s.sessions {
      TimerRules(s.sessions[cid].core, now, e.1.1);
      var step := OnTimer(s.sessions[cid].core, now, e.1.1);
      ConcludeWheel(taken, cid, 0, now, step);
      IngestCounts(taken.timers, cid, step.out.value.timers, deadline, x);
    }
  }

  /** Each entry is in the wheel at least as often as it is listed. */
  ghost predicate Present(w: Wheel<Entry>, due: seq<(nat, Entry)>) {
    forall deadline: nat, x :: multiset(due)[(deadline, x)] <= Count(w, deadline, x)
  }

  lemma {:induction false} FireAllCounts(s: ServerState, now: u64, due: seq<(nat, Entry)>, deadline: nat, x: Entry)
    requires Present(s.timers, due)
    ensures var f := FireAll(s, now, due);
      Count(f.0.timers, deadline, x)
        == Count(s.timers, deadline, x) - multiset(due)[(deadline, x)] + multiset(f.1.scheduled)[(deadline, x)]
    decreases |due|
  {
    hide Fire;
    if due != [] {
      var n := |due| - 1;
      assert due == due[..n] + [due[n]];
      PresentPrefix(s.timers, due, n);
      FireAllCounts(s, now, due[..n], deadline, x);
      FireCounts(FireAll(s, now, due[..n]).0, now, due[n], deadline, x);
      assert multiset(due)[(deadline, x)] <= Count(s.timers, deadline, x);
    }
  }

  lemma PresentPrefix(w: Wheel<Entry>, due: seq<(nat, Entry)>, n: nat)
    requires Present(w, due) && n <= |due|
    ensures Present(w, due[..n])
  {
    assert due == due[..n] + due[n..];
    forall deadline: nat, x
      ensures multiset(due[..n])[(deadline, x)] <= Count(w, deadline, x)
    {
      assert multiset(due)[(deadline, x)] <= Count(w, deadline, x);
    }
  }

  lemma DueIsPresent(w: Wheel<Entry>, now: nat, limit: nat)
    ensures Present(w, Due(w, now, limit))
  {
    hide Due, Count;
    var due := Due(w, now, limit);
    forall deadline: nat, x: Entry
      ensures multiset(due)[(deadline, x)] <= Count(w, deadline, x)
    {
      TakenOrBehind(w, now, limit, deadline, x);
    }
  }

  /** After a poll each entry is in the wheel as often as before, less what was taken, plus
      what was scheduled; and an entry is still there when its turn to fire comes. */
  lemma PollConservesWheel(s: ServerState, now: u64, limit: nat, deadline: nat, x: Entry)
    ensures var due := Due(s.timers, now, limit);
      var p := Poll(s, now, limit);
      Count(p.0.timers, deadline, x)
        == Count(s.timers, deadline, x) - multiset(due)[(deadline, x)] + multiset(p.1.scheduled)[(deadline, x)]
    ensures var due := Due(s.timers, now, limit);
      forall k :: 0 <= k < |due| ==> FindsEntry(s, now, due, k)
  {
    hide FireAll, Due, FindsEntry, Count, Present;
    var due := Due(s.timers, now, limit);
    DueIsPresent(s.timers, now, limit);
    FireAllCounts(s, now, due, deadline, x);
    forall k | 0 <= k < |due|
      ensures FindsEntry(s, now, due, k)
    {
      EntryStillThere(s, now, due, k);
    }
  }

  ghost predicate FindsEntry(s: ServerState, now: u64, due: seq<(nat, Entry)>, k: nat)
    requires k < |due|
  {
    Count(FireAll(s, now, due[..k]).0.timers, due[k].0, due[k].1) > 0
  }

  lemma EntryStillThere(s: ServerState, now: u64, due: seq<(nat, Entry)>, k: nat)
    requires Present(s.timers, due) && k < |due|
    ensures FindsEntry(s, now, due, k)
  {
    hide FireAll, Count;
    PresentPrefix(s.timers, due, k);
    FireAllCounts(s, now, due[..k], due[k].0, due[k].1);
    OneMoreLater(due, k);
    assert multiset(due)[(due[k].0, due[k].1)] <= Count(s.timers, due[k].0, due[k].1);
  }

  lemma OneMoreLater(due: seq<(nat, Entry)>, k: nat)
    requires k < |due|
    ensures multiset(due[..k])[(due[k].0, due[k].1)] < multiset(due)[(due[k].0, due[k].1)]
  {
    assert due == due[..k] + due[k..];
    assert due[k..][0] == due[k];
  }

  // ----------------------------------------------------------- one keepalive per session

  ghost predicate NoEntry(w: Wheel<Entry>, x: Entry) {
    forall deadline: nat :: Count(w, deadline, x) == 0
  }

  ghost predicate OnlyAt(w: Wheel<Entry>, x: Entry, deadline: nat) {
    Count(w, deadline, x) == 1 && forall d: nat :: d != deadline ==> Count(w, d, x) == 0
  }

  ghost predicate OneEntry(w: Wheel<Entry>, x: Entry) {
    exists deadline: nat :: OnlyAt(w, x, deadline)
  }

  /** An established session has one keepalive entry; one that has not begun, or an id that
      never had a session, has none. `gone` says the id had a session that ended. */
  ghost predicate Paced(s: ServerState, cid: u64, gone: bool) {
    if cid in s.sessions then
      && !gone
      && s.sessions[cid].core.role == Server
      && (if s.sessions[cid].core.state == Established then OneEntry(s.timers, (cid, ServerMsr))
          else s.sessions[cid].core.state == PreHandshake && NoEntry(s.timers, (cid, ServerMsr)))
    else gone || NoEntry(s.timers, (cid, ServerMsr))
  }

  /** The number of keepalive timers a call asks for. */
  ghost predicate AsksOnce(actions: seq<TimerAction>, deadline: nat) {
    |actions| == 2 && actions[0] == Schedule(ServerMsr, deadline) && actions[1].id == Disconnect
  }

  ghost predicate AsksNever(actions: seq<TimerAction>) {
    forall i :: 0 <= i < |actions| ==> actions[i].id != ServerMsr
  }

  lemma NeverCounts(cid: u64, actions: seq<TimerAction>, deadline: nat)
    requires AsksNever(actions)
    ensures multiset(Scheduled(cid, actions))[(deadline, (cid, ServerMsr))] == 0
  {
    assert forall i :: 0 <= i < |actions| ==> Scheduled(cid, actions)[i] != (deadline, (cid, ServerMsr));
  }

  lemma OnceCounts(cid: u64, actions: seq<TimerAction>, at: nat, deadline: nat)
    requires AsksOnce(actions, at)
    ensures multiset(Scheduled(cid, actions))[(deadline, (cid, ServerMsr))] == if deadline == at then 1 else 0
  {
    assert Scheduled(cid, actions) == [(at, (cid, ServerMsr)), (actions[1].deadlineMs, (cid, Disconnect))];
  }

  lemma OthersCount(cid: u64, actions: seq<TimerAction>, deadline: nat, x: Entry)
    requires x.0 != cid
    ensures multiset(Scheduled(cid, actions))[(deadline, x)] == 0
  {
    assert forall i :: 0 <= i < |actions| ==> Scheduled(cid, actions)[i] != (deadline, x);
  }

  lemma NeverKeeps(w: Wheel<Entry>, cid: u64, actions: seq<TimerAction>)
    requires AsksNever(actions)
    ensures NoEntry(w, (cid, ServerMsr)) ==> NoEntry(Ingest(w, cid, actions), (cid, ServerMsr))
    ensures OneEntry(w, (cid, ServerMsr)) ==> OneEntry(Ingest(w, cid, actions), (cid, ServerMsr))
  {
    forall deadline: nat
      ensures Count(Ingest(w, cid, actions), deadline, (cid, ServerMsr)) == Count(w, deadline, (cid, ServerMsr))
    {
      IngestCounts(w, cid, actions, deadline, (cid, ServerMsr));
      NeverCounts(cid, actions, deadline);
    }
    if OneEntry(w, (cid, ServerMsr)) {
      var at: nat :| OnlyAt(w, (cid, ServerMsr), at);
      assert OnlyAt(Ingest(w, cid, actions), (cid, ServerMsr), at);
    }
  }

  lemma OnceStarts(w: Wheel<Entry>, cid: u64, actions: seq<TimerAction>, at: nat)
    requires AsksOnce(actions, at) && NoEntry(w, (cid, ServerMsr))
    ensures OneEntry(Ingest(w, cid, actions), (cid, ServerMsr))
  {
    forall deadline: nat
      ensures Count(Ingest(w, cid, actions), deadline, (cid, ServerMsr)) == if deadline == at then 1 else 0
    {
      IngestCounts(w, cid, actions, deadline, (cid, ServerMsr));
      OnceCounts(cid, actions, at, deadline);
    }
    assert OnlyAt(Ingest(w, cid, actions), (cid, ServerMsr), at);
  }

  /** What a machine in a paced session may do in one step. */
  ghost predicate PacedStep(c: Core, step: Step, entryTaken: bool) {
    && step.core.role == Server
    && (step.core.state == Lost || step.core.state == Established
        || (step.core.state == PreHandshake && c.state == PreHandshake))
    && (step.out.Err? ==> step.core.state == c.state && !entryTaken)
    && (step.out.Ok? ==>
          if step.core.state == Established && (c.state == PreHandshake || entryTaken)
          then exists at: nat :: AsksOnce(step.out.value.timers, at)
          else AsksNever(step.out.value.timers))
  }

  /** Handing on such a step keeps the session paced, or ends it. */
  lemma ConcludeKeepsPace(s: ServerState, cid: u64, path: u32, now: u64, step: Step, entryTaken: bool)
    requires cid in s.sessions && PacedStep(s.sessions[cid].core, step, entryTaken)
    requires entryTaken ==> s.sessions[cid].core.state == Established && NoEntry(s.timers, (cid, ServerMsr))
    requires !entryTaken ==> Paced(s, cid, false)
    ensures var after := Conclude(s, cid, path, now, step).0; Paced(after, cid, cid !in after.sessions)
  {
    hide Ingest, Reported, Routed, Mem.Upserted, RecordOf, NoEntry, OneEntry, AsksNever, AsksOnce, Scheduled;
    if step.out.Ok? && step.core.state != Lost {
      var actions := step.out.value.timers;
      if step.core.state == Established && (s.sessions[cid].core.state == PreHandshake || entryTaken) {
        var at: nat :| AsksOnce(actions, at);
        OnceStarts(s.timers, cid, actions, at);
      } else {
        NeverKeeps(s.timers, cid, actions);
      }
    }
  }

  /** Another session's step does not touch this one. */
  lemma ConcludeElsewhere(s: ServerState, other: u64, path: u32, now: u64, step: Step, cid: u64, gone: bool)
    requires other in s.sessions && other != cid && Paced(s, cid, gone)
    ensures Paced(Conclude(s, other, path, now, step).0, cid, gone)
  {
    hide Ingest, Reported, Routed, Mem.Upserted, RecordOf;
    var after := Conclude(s, other, path, now, step).0;
    forall deadline: nat
      ensures Count(after.timers, deadline, (cid, ServerMsr)) == Count(s.timers, deadline, (cid, ServerMsr))
    {
      if step.out.Ok? {
        IngestCounts(s.timers, other, step.out.value.timers, deadline, (cid, ServerMsr));
        OthersCount(other, step.out.value.timers, deadline, (cid, ServerMsr));
      }
    }
    if OneEntry(s.timers, (cid, ServerMsr)) {
      var at: nat :| OnlyAt(s.timers, (cid, ServerMsr), at);
      assert OnlyAt(after.timers, (cid, ServerMsr), at);
    }
  }

  lemma DatagramIsPaced(c: Core, now: nat, path: u32, bytes: Bytes)
    requires c.role == Server && (c.state == Established || c.state == PreHandshake)
    ensures PacedStep(c, OnDatagram(c, now, path, bytes), false)
  {
    hide OnDatagram;
    DatagramTimers(c, now, path, bytes);
    var s := OnDatagram(c, now, path, bytes);
    if s.out.Ok? && s.core.state == Established && c.state == PreHandshake {
      assert AsksOnce(s.out.value.timers, now + c.cfg.msrIntervalMs);
    }
  }

  lemma TimerIsPaced(c: Core, now: nat, id: TimerId)
    requires c.role == Server && (c.state == Established || c.state == PreHandshake)
    ensures PacedStep(c, OnTimer(c, now, id), id == ServerMsr && c.state == Established)
  {
    var s := OnTimer(c, now, id);
    if id == ServerMsr && c.state == Established && s.core.state == Established {
      assert AsksOnce(s.out.value.timers, now + c.cfg.msrIntervalMs);
    }
  }

  lemma SendIsPaced(c: Core, payload: Bytes)
    requires c.role == Server && (c.state == Established || c.state == PreHandshake) && c.nextOutboundId < U64_MAX
    ensures PacedStep(c, OnApiSend(c, payload), false)
  {
  }

  lemma LoadKeepsPace(s: ServerState, cid: u64, path: u32, now: u64, who: u64, gone: bool)
    requires Paced(s, who, gone) && (who == cid ==> !gone)
    ensures Paced(EnsureLoaded(s, cid, path, now), who, gone)
    ensures who != cid ==> (who in EnsureLoaded(s, cid, path, now).sessions <==> who in s.sessions)
  {
    hide Origin, NoEntry, OneEntry;
  }

  predicate IsFor(bytes: Bytes, cid: u64) {
    Wire.Decode(bytes).Ok? && Wire.Decode(bytes).value.cid == cid
  }

  lemma ReceiveKeepsPace(s: ServerState, now: u64, path: u32, bytes: Bytes, cid: u64, gone: bool)
    requires Paced(s, cid, gone)
    requires IsFor(bytes, cid) ==> !gone
    ensures var after := Receive(s, now, path, bytes).0;
      Paced(after, cid, gone || (cid !in after.sessions && (cid in s.sessions || IsFor(bytes, cid))))
  {
    hide Conclude, EnsureLoaded, OnDatagram, Paced, Wire.Decode, PacedStep;
    var f := Wire.Decode(bytes);
    if f.Ok? {
      var l := EnsureLoaded(s, f.value.cid, path, now);
      LoadKeepsPace(s, f.value.cid, path, now, cid, gone);
      var step := OnDatagram(l.sessions[f.value.cid].core, now, path, bytes);
      if f.value.cid == cid {
        PacedCore(l, cid);
        DatagramIsPaced(l.sessions[cid].core, now, path, bytes);
        ConcludeKeepsPace(l, cid, path, now, step, false);
      } else {
        ConcludeElsewhere(l, f.value.cid, path, now, step, cid, gone);
        ConcludeSessions(l, f.value.cid, path, now, step, cid);
      }
    }
  }

  lemma PacedCore(s: ServerState, cid: u64)
    requires cid in s.sessions && Paced(s, cid, false)
    ensures var c := s.sessions[cid].core; c.role == Server && (c.state == Established || c.state == PreHandshake)
  {
  }

  lemma ConcludeSessions(s: ServerState, other: u64, path: u32, now: u64, step: Step, cid: u64)
    requires other in s.sessions && other != cid
    ensures var after := Conclude(s, other, path, now, step).0;
      && (cid in after.sessions <==> cid in s.sessions)
      && (cid in s.sessions ==> after.sessions[cid] == s.sessions[cid])
  {
    hide Ingest, Reported, Routed, Mem.Upserted, RecordOf;
  }

  lemma SubmitKeepsPace(s: ServerState, to: u64, payload: Bytes, now: u64, cid: u64, gone: bool)
    requires Paced(s, cid, gone) && CanSubmit(s, to)
    ensures var after := Submit(s, to, payload, now).0;
      Paced(after, cid, gone || (cid !in after.sessions && cid in s.sessions))
  {
    hide Conclude, OnApiSend, Paced, PacedStep;
    if to in s.sessions {
      var step := OnApiSend(s.sessions[to].core, payload);
      if to == cid {
        assert !gone by {
          InSessionNotGone(s, cid, gone);
        }
        PacedCore(s, cid);
        SendIsPaced(s.sessions[cid].core, payload);
        ConcludeKeepsPace(s, cid, 0, now, step, false);
      } else {
        ConcludeElsewhere(s, to, 0, now, step, cid, gone);
        ConcludeSessions(s, to, 0, now, step, cid);
      }
    }
  }

  lemma InSessionNotGone(s: ServerState, cid: u64, gone: bool)
    requires Paced(s, cid, gone) && cid in s.sessions
    ensures !gone
  {
  }

  /** Taking out any entry but this session's keepalive changes nothing for it. */
  lemma TakenElsewhere(s: ServerState, e: (nat, Entry), cid: u64, gone: bool)
    requires Paced(s, cid, gone) && e.1 != (cid, ServerMsr)
    ensures Paced(s.(timers := Without(s.timers, e.0, e.1)), cid, gone)
  {
    hide Without;
    var w := Without(s.timers, e.0, e.1);
    forall deadline: nat
      ensures Count(w, deadline, (cid, ServerMsr)) == Count(s.timers, deadline, (cid, ServerMsr))
    {
      WithoutCounts(s.timers, e.0, e.1, deadline, (cid, ServerMsr));
    }
    if OneEntry(s.timers, (cid, ServerMsr)) {
      var at: nat :| OnlyAt(s.timers, (cid, ServerMsr), at);
      assert OnlyAt(w, (cid, ServerMsr), at);
    }
  }

  /** Taking out the keepalive entry of an established session leaves none. */
  lemma KeepaliveTaken(s: ServerState, e: (nat, Entry), cid: u64)
    requires Paced(s, cid, false) && cid in s.sessions && e.1 == (cid, ServerMsr)
    requires Count(s.timers, e.0, e.1) > 0
    ensures s.sessions[cid].core.state == Established
    ensures NoEntry(Without(s.timers, e.0, e.1), (cid, ServerMsr))
  {
    hide Without;
    forall deadline: nat
      ensures Count(Without(s.timers, e.0, e.1), deadline, (cid, ServerMsr)) == 0
    {
      WithoutCounts(s.timers, e.0, e.1, deadline, (cid, ServerMsr));
      assert Count(s.timers, e.0, (cid, ServerMsr)) > 0;
    }
  }

  /** Without a session an id's own entries may go but none comes. */
  lemma NoSessionTaken(s: ServerState, e: (nat, Entry), cid: u64, gone: bool)
    requires Paced(s, cid, gone) && cid !in s.sessions
    ensures Paced(s.(timers := Without(s.timers, e.0, e.1)), cid, gone)
  {
    hide Without;
    forall deadline: nat
      ensures Count(Without(s.timers, e.0, e.1), deadline, (cid, ServerMsr))
           <= Count(s.timers, deadline, (cid, ServerMsr))
    {
      WithoutCounts(s.timers, e.0, e.1, deadline, (cid, ServerMsr));
    }
  }

  lemma FireKeepsPace(s: ServerState, now: u64, e: (nat, Entry), cid: u64, gone: bool)
    requires Paced(s, cid, gone) && Count(s.timers, e.0, e.1) > 0
    ensures var after := Fire(s, now, e).0;
      && Paced(after, cid, gone || (cid !in after.sessions && cid in s.sessions))
      && (cid in after.sessions ==> cid in s.sessions)
  {
    hide Conclude, OnTimer, Paced, PacedStep, Without, NoEntry;
    var taken := s.(timers := Without(s.timers, e.0, e.1));
    var owner := e.1.0;
    if cid !in s.sessions {
      NoSessionTaken(s, e, cid, gone);
    }
    if owner in s.sessions {
      var step := OnTimer(s.sessions[owner].core, now, e.1.1);
      if owner == cid {
        InSessionNotGone(s, cid, gone);
        PacedCore(s, cid);
        TimerIsPaced(s.sessions[cid].core, now, e.1.1);
        if e.1 == (cid, ServerMsr) {
          KeepaliveTaken(s, e, cid);
        } else {
          TakenElsewhere(s, e, cid, gone);
        }
        ConcludeKeepsPace(taken, cid, 0, now, step, e.1.1 == ServerMsr && s.sessions[cid].core.state == Established);
      } else {
        TakenElsewhere(s, e, cid, gone);
        ConcludeElsewhere(taken, owner, 0, now, step, cid, gone);
        ConcludeSessions(taken, owner, 0, now, step, cid);
      }
    } else if cid in s.sessions {
      TakenElsewhere(s, e, cid, gone);
    }
  }

  lemma {:induction false} FireAllKeepsPace(s: ServerState, now: u64, due: seq<(nat, Entry)>, cid: u64, gone: bool)
    requires Paced(s, cid, gone) && Present(s.timers, due)
    ensures var after := FireAll(s, now, due).0;
      && Paced(after, cid, gone || (cid !in after.sessions && cid in s.sessions))
      && (cid in after.sessions ==> cid in s.sessions)
    decreases |due|
  {
    hide Fire, Paced, Present, Count, FindsEntry;
    if due != [] {
      var n := |due| - 1;
      PresentPrefix(s.timers, due, n);
      FireAllKeepsPace(s, now, due[..n], cid, gone);
      var front := FireAll(s, now, due[..n]).0;
      EntryStillThere(s, now, due, n);
      assert Count(front.timers, due[n].0, due[n].1) > 0 by {
        FoundCounts(s, now, due, n);
      }
      FireKeepsPace(front, now, due[n], cid, gone || (cid !in front.sessions && cid in s.sessions));
    }
  }

  lemma FoundCounts(s: ServerState, now: u64, due: seq<(nat, Entry)>, k: nat)
    requires k < |due| && FindsEntry(s, now, due, k)
    ensures Count(FireAll(s, now, due[..k]).0.timers, due[k].0, due[k].1) > 0
  {
  }

  // ----------------------------------------------------------------------- whole runs

  datatype Call =
    | Receives(now: u64, path: u32, bytes: Bytes)
    | Submits(cid: u64, payload: Bytes, now: u64)
    | Polls(now: u64, limit: nat)

  function Next(s: ServerState, c: Call): ServerState {
    match c
    case Receives(now, path, bytes) => Receive(s, now, path, bytes).0
    case Submits(cid, payload, now) => if CanSubmit(s, cid) then Submit(s, cid, payload, now).0 else s
    case Polls(now, limit) => Poll(s, now, limit).0
  }

  function Play(s: ServerState, calls: seq<Call>): ServerState
    decreases |calls|
  {
    if calls == [] then s else Play(Next(s, calls[0]), calls[1..])
  }

  /** The call ends the session of `cid`, or starts and ends it at once. */
  predicate Ends(s: ServerState, c: Call, cid: u64) {
    cid !in Next(s, c).sessions && (cid in s.sessions || (c.Receives? && IsFor(c.bytes, cid)))
  }

  /** No datagram bears `cid` once its session has ended. */
  predicate NoReuse(s: ServerState, calls: seq<Call>, cid: u64, gone: bool)
    decreases |calls|
  {
    calls == [] || (
      && (calls[0].Receives? && IsFor(calls[0].bytes, cid) ==> !gone)
      && NoReuse(Next(s, calls[0]), calls[1..], cid, gone || Ends(s, calls[0], cid)))
  }

  lemma NextKeepsPace(s: ServerState, c: Call, cid: u64, gone: bool)
    requires Paced(s, cid, gone) && (c.Receives? && IsFor(c.bytes, cid) ==> !gone)
    ensures Paced(Next(s, c), cid, gone || Ends(s, c, cid))
  {
    hide Receive, Submit, FireAll, Paced, IsFor, Due;
    match c
    case Receives(now, path, bytes) => ReceiveKeepsPace(s, now, path, bytes, cid, gone);
    case Submits(to, payload, now) =>
      if CanSubmit(s, to) {
        SubmitKeepsPace(s, to, payload, now, cid, gone);
      }
    case Polls(now, limit) =>
      DueIsPresent(s.timers, now, limit);
      FireAllKeepsPace(s, now, Due(s.timers, now, limit), cid, gone);
  }

  lemma {:induction false} PlayKeepsPace(s: ServerState, calls: seq<Call>, cid: u64, gone: bool)
    requires Paced(s, cid, gone) && NoReuse(s, calls, cid, gone)
    ensures cid in Play(s, calls).sessions ==> Paced(Play(s, calls), cid, false)
    decreases |calls|
  {
    hide Next, Paced, IsFor;
    if calls != [] {
      NextKeepsPace(s, calls[0], cid, gone);
      PlayKeepsPace(Next(s, calls[0]), calls[1..], cid, gone || Ends(s, calls[0], cid));
    } else if cid in s.sessions {
      InSessionNotGone(s, cid, gone);
    }
  }

  /** Whatever arrives for whichever session, as long as an ended session's id is not used
      again, its session while established has exactly one keepalive entry in the wheel, and
      none before that. */
  lemma OneKeepalivePerSession(cfg: Config, calls: seq<Call>, cid: u64)
    requires NoReuse(Boot(cfg), calls, cid, false)
    requires cid in Play(Boot(cfg), calls).sessions
    ensures var s := Play(Boot(cfg), calls);
      && (s.sessions[cid].core.state == Established ==> OneEntry(s.timers, (cid, ServerMsr)))
      && (s.sessions[cid].core.state != Established ==> NoEntry(s.timers, (cid, ServerMsr)))
  {
    hide Next, NoReuse;
    PlayKeepsPace(Boot(cfg), calls, cid, false);
  }
}
