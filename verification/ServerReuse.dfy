/** What reusing the id of an ended session does to its keepalives. The wheel keeps the timers
    of a session that ended; a new session under the id adds its own, and while it lives the
    number of entries stays what was left over plus one. */
module ServerReuse {
  import opened ByteOrder
  import opened Protocol
  import opened CoreSpec
  import opened Delivery
  import opened TimerWheel
  import opened CoreTimers
  import opened ServerRuntime
  import opened ServerTimers
  import Mem = MemoryStore
  import Wire

  // ---------------------------------------------------------------- counting keepalives

  ghost function Keepalives(s: ServerState, cid: u64): nat {
    Total(s.timers, (cid, ServerMsr))
  }

  lemma NoneExactly(w: Wheel<Entry>, x: Entry)
    ensures Total(w, x) == 0 <==> NoEntry(w, x)
  {
    if NoEntry(w, x) {
      SumOfNone(w, x, w.Keys);
    } else {
      var d: nat :| Count(w, d, x) != 0;
      CountWithinTotal(w, x, d);
    }
  }

  lemma OneExactly(w: Wheel<Entry>, x: Entry)
    ensures Total(w, x) == 1 <==> OneEntry(w, x)
  {
    if NoEntry(w, x) {
      NoneExactly(w, x);
    } else {
      var d: nat :| Count(w, d, x) != 0;
      SumSplits(w, x, w.Keys, d);
      if OneEntry(w, x) {
        SumOfNone(w, x, w.Keys - {d});
      }
      if Total(w, x) == 1 {
        forall e: nat | e != d
          ensures Count(w, e, x) == 0
        {
          if e in w {
            SumSplits(w, x, w.Keys - {d}, e);
          }
        }
        assert OnlyAt(w, x, d);
      }
    }
  }

  lemma SameCounts(v: Wheel<Entry>, w: Wheel<Entry>, x: Entry)
    requires forall d: nat :: Count(v, d, x) == Count(w, d, x)
    ensures Total(v, x) == Total(w, x)
  {
    TotalMoves(v, w, x, 0);
  }

  lemma IngestOnceAdds(w: Wheel<Entry>, cid: u64, actions: seq<TimerAction>, at: nat)
    requires AsksOnce(actions, at)
    ensures Total(Ingest(w, cid, actions), (cid, ServerMsr)) == Total(w, (cid, ServerMsr)) + 1
  {
    hide AsksOnce, Ingest, Count, Scheduled;
    var v := Ingest(w, cid, actions);
    forall d: nat
      ensures Count(v, d, (cid, ServerMsr)) == Count(w, d, (cid, ServerMsr)) + (if d == at then 1 else 0)
    {
      IngestCounts(w, cid, actions, d, (cid, ServerMsr));
      OnceCounts(cid, actions, at, d);
    }
    TotalMoves(w, v, (cid, ServerMsr), at);
  }

  lemma IngestNeverAdds(w: Wheel<Entry>, cid: u64, actions: seq<TimerAction>)
    requires AsksNever(actions)
    ensures Total(Ingest(w, cid, actions), (cid, ServerMsr)) == Total(w, (cid, ServerMsr))
  {
    hide AsksNever, Ingest, Count, Scheduled;
    forall d: nat
      ensures Count(Ingest(w, cid, actions), d, (cid, ServerMsr)) == Count(w, d, (cid, ServerMsr))
    {
      IngestCounts(w, cid, actions, d, (cid, ServerMsr));
      NeverCounts(cid, actions, d);
    }
    SameCounts(w, Ingest(w, cid, actions), (cid, ServerMsr));
  }

  lemma IngestElsewhere(w: Wheel<Entry>, other: u64, actions: seq<TimerAction>, cid: u64)
    requires other != cid
    ensures Total(Ingest(w, other, actions), (cid, ServerMsr)) == Total(w, (cid, ServerMsr))
  {
    hide Ingest, Count, Scheduled;
    forall d: nat
      ensures Count(Ingest(w, other, actions), d, (cid, ServerMsr)) == Count(w, d, (cid, ServerMsr))
    {
      IngestCounts(w, other, actions, d, (cid, ServerMsr));
      OthersCount(other, actions, d, (cid, ServerMsr));
    }
    SameCounts(w, Ingest(w, other, actions), (cid, ServerMsr));
  }

  lemma TakingOut(w: Wheel<Entry>, e: (nat, Entry), x: Entry)
    ensures Total(Without(w, e.0, e.1), x)
         == if e.1 == x && Count(w, e.0, x) > 0 then Total(w, x) - 1 else Total(w, x)
  {
    hide Without, Count;
    forall d: nat
      ensures Count(Without(w, e.0, e.1), d, x)
           == if e == (d, x) && Count(w, d, x) > 0 then Count(w, d, x) - 1 else Count(w, d, x)
    {
      WithoutCounts(w, e.0, e.1, d, x);
    }
    TotalMoves(w, Without(w, e.0, e.1), x, e.0);
  }

  // ------------------------------------------------------------------------ single calls

  ghost predicate InSessionNow(s: ServerState, cid: u64) {
    cid in s.sessions && s.sessions[cid].core.state == Established
  }

  /** A session in memory is a server's, before or after its handshake. */
  ghost predicate Hosted(s: ServerState, cid: u64) {
    cid in s.sessions ==>
      var c := s.sessions[cid].core;
      c.role == Server && (c.state == Established || c.state == PreHandshake)
  }

  /** The session's own step: one entry more if it begins, or if one was taken for it. */
  lemma ConcludeAdds(s: ServerState, cid: u64, path: u32, now: u64, step: Step, entryTaken: bool)
    requires Hosted(s, cid) && cid in s.sessions && PacedStep(s.sessions[cid].core, step, entryTaken)
    ensures var after := Conclude(s, cid, path, now, step).0;
      && Hosted(after, cid)
      && (cid in after.sessions ==>
            && after.sessions[cid].core == step.core
            && Keepalives(after, cid) == Keepalives(s, cid)
               + (if InSessionNow(after, cid) && (s.sessions[cid].core.state == PreHandshake || entryTaken)
                  then 1 else 0))
  {
    hide Ingest, Reported, Routed, Mem.Upserted, RecordOf, AsksNever, AsksOnce, Scheduled, Total;
    if step.out.Ok? && step.core.state != Lost {
      var actions := step.out.value.timers;
      if step.core.state == Established && (s.sessions[cid].core.state == PreHandshake || entryTaken) {
        var at: nat :| AsksOnce(actions, at);
        IngestOnceAdds(s.timers, cid, actions, at);
      } else {
        IngestNeverAdds(s.timers, cid, actions);
      }
    }
  }

  lemma ConcludeAddsElsewhere(s: ServerState, other: u64, path: u32, now: u64, step: Step, cid: u64)
    requires other in s.sessions && other != cid
    ensures Keepalives(Conclude(s, other, path, now, step).0, cid) == Keepalives(s, cid)
  {
    hide Ingest, Total;
    ConcludeWheel(s, other, path, now, step);
    if step.out.Ok? {
      IngestElsewhere(s.timers, other, step.out.value.timers, cid);
    }
  }

  /** A datagram adds a keepalive entry exactly when it establishes the session. */
  lemma ReceiveAdds(s: ServerState, now: u64, path: u32, bytes: Bytes, cid: u64)
    requires Hosted(s, cid)
    ensures var after := Receive(s, now, path, bytes).0;
      && Hosted(after, cid)
      && (cid in after.sessions ==>
            Keepalives(after, cid) == Keepalives(s, cid)
              + (if InSessionNow(after, cid) && !InSessionNow(s, cid) then 1 else 0))
      && (InSessionNow(s, cid) && cid in after.sessions ==> InSessionNow(after, cid))
  {
    hide Conclude, OnDatagram, Wire.Decode, PacedStep, Origin, Keepalives;
    var f := Wire.Decode(bytes);
    if f.Ok? {
      var owner := f.value.cid;
      var l := EnsureLoaded(s, owner, path, now);
      assert Keepalives(l, cid) == Keepalives(s, cid) by {
        SameWheel(s, l, cid);
      }
      var step := OnDatagram(l.sessions[owner].core, now, path, bytes);
      if owner == cid {
        DatagramIsPaced(l.sessions[cid].core, now, path, bytes);
        ConcludeAdds(l, cid, path, now, step, false);
        if InSessionNow(s, cid) {
          PacedStays(l.sessions[cid].core, step, false);
        }
      } else {
        ConcludeAddsElsewhere(l, owner, path, now, step, cid);
        ConcludeSessions(l, owner, path, now, step, cid);
      }
    }
  }

  lemma SameWheel(s: ServerState, t: ServerState, cid: u64)
    requires s.timers == t.timers
    ensures Keepalives(s, cid) == Keepalives(t, cid)
  {
  }

  lemma PacedStays(c: Core, step: Step, entryTaken: bool)
    requires PacedStep(c, step, entryTaken) && c.state == Established
    ensures step.core.state == Established || step.core.state == Lost
  {
  }

  lemma SubmitAdds(s: ServerState, to: u64, payload: Bytes, now: u64, cid: u64)
    requires Hosted(s, cid) && CanSubmit(s, to)
    ensures var after := Submit(s, to, payload, now).0;
      && Hosted(after, cid)
      && (InSessionNow(s, cid) && cid in after.sessions ==>
            InSessionNow(after, cid) && Keepalives(after, cid) == Keepalives(s, cid))
  {
    hide Conclude, OnApiSend, PacedStep, Keepalives;
    if to in s.sessions {
      var step := OnApiSend(s.sessions[to].core, payload);
      if to == cid {
        SendIsPaced(s.sessions[cid].core, payload);
        ConcludeAdds(s, cid, 0, now, step, false);
        if InSessionNow(s, cid) {
          PacedStays(s.sessions[cid].core, step, false);
        }
      } else {
        ConcludeAddsElsewhere(s, to, 0, now, step, cid);
        ConcludeSessions(s, to, 0, now, step, cid);
      }
    }
  }

  /** Firing an entry of an established session takes one keepalive and puts one back, or
      leaves them alone, or ends the session. */
  lemma FireAdds(s: ServerState, now: u64, e: (nat, Entry), cid: u64)
    requires Hosted(s, cid) && Count(s.timers, e.0, e.1) > 0
    ensures var after := Fire(s, now, e).0;
      && Hosted(after, cid)
      && (cid in after.sessions ==> cid in s.sessions)
      && (InSessionNow(s, cid) && cid in after.sessions ==>
            InSessionNow(after, cid) && Keepalives(after, cid) == Keepalives(s, cid))
  {
    hide Conclude, OnTimer, PacedStep, Without, Total, Count;
    var taken := s.(timers := Without(s.timers, e.0, e.1));
    var owner := e.1.0;
    TakingOut(s.timers, e, (cid, ServerMsr));
    if owner in s.sessions {
      var step := OnTimer(s.sessions[owner].core, now, e.1.1);
      TimerRules(s.sessions[owner].core, now, e.1.1);
      if owner == cid {
        TimerIsPaced(s.sessions[cid].core, now, e.1.1);
        var entryTaken := e.1.1 == ServerMsr && s.sessions[cid].core.state == Established;
        ConcludeAdds(taken, cid, 0, now, step, entryTaken);
        if InSessionNow(s, cid) {
          PacedStays(s.sessions[cid].core, step, entryTaken);
        }
      } else {
        ConcludeAddsElsewhere(taken, owner, 0, now, step, cid);
        ConcludeSessions(taken, owner, 0, now, step, cid);
      }
    }
  }

  lemma {:induction false} FireAllAdds(s: ServerState, now: u64, due: seq<(nat, Entry)>, cid: u64)
    requires Hosted(s, cid) && Present(s.timers, due)
    ensures var after := FireAll(s, now, due).0;
      && Hosted(after, cid)
      && (cid in after.sessions ==> cid in s.sessions)
      && (InSessionNow(s, cid) && cid in after.sessions ==>
            InSessionNow(after, cid) && Keepalives(after, cid) == Keepalives(s, cid))
    decreases |due|
  {
    hide Fire, Present, Count, FindsEntry, Hosted, Keepalives;
    if due != [] {
      var n := |due| - 1;
      PresentPrefix(s.timers, due, n);
      FireAllAdds(s, now, due[..n], cid);
      var front := FireAll(s, now, due[..n]).0;
      EntryStillThere(s, now, due, n);
      FoundCounts(s, now, due, n);
      FireAdds(front, now, due[n], cid);
    }
  }

  lemma NextAdds(s: ServerState, c: Call, cid: u64)
    requires Hosted(s, cid)
    ensures var after := Next(s, c);
      && Hosted(after, cid)
      && (InSessionNow(s, cid) && cid in after.sessions ==>
            InSessionNow(after, cid) && Keepalives(after, cid) == Keepalives(s, cid))
  {
    hide Receive, Submit, FireAll, Hosted, Keepalives, Due;
    match c
    case Receives(now, path, bytes) => ReceiveAdds(s, now, path, bytes, cid);
    case Submits(to, payload, now) =>
      if CanSubmit(s, to) {
        SubmitAdds(s, to, payload, now, cid);
      }
    case Polls(now, limit) =>
      DueIsPresent(s.timers, now, limit);
      FireAllAdds(s, now, Due(s.timers, now, limit), cid);
  }

  // -------------------------------------------------------------------------- whole runs

  /** The session of `cid` is there after each call. */
  ghost predicate LivesThrough(s: ServerState, calls: seq<Call>, cid: u64)
    decreases |calls|
  {
    calls == [] || (cid in Next(s, calls[0]).sessions && LivesThrough(Next(s, calls[0]), calls[1..], cid))
  }

  lemma {:induction false} PlayAdds(s: ServerState, calls: seq<Call>, cid: u64)
    requires Hosted(s, cid)
    ensures Hosted(Play(s, calls), cid)
    ensures InSessionNow(s, cid) && LivesThrough(s, calls, cid) ==>
      InSessionNow(Play(s, calls), cid) && Keepalives(Play(s, calls), cid) == Keepalives(s, cid)
    decreases |calls|
  {
    hide Next, Hosted, Keepalives;
    if calls != [] {
      NextAdds(s, calls[0], cid);
      PlayAdds(Next(s, calls[0]), calls[1..], cid);
    }
  }

  /** Whatever happened before, ids used again included: from the datagram that establishes a
      session on, while the session lives, the wheel holds as many keepalive entries as were
      left over, plus one. So the session has exactly one if and only if none was left over
      when it began. */
  lemma KeepalivesAreStalePlusOne(cfg: Config, before: seq<Call>, now: u64, path: u32, bytes: Bytes,
                                  calls: seq<Call>, cid: u64)
    requires var s := Play(Boot(cfg), before);
      var begun := Next(s, Receives(now, path, bytes));
      !InSessionNow(s, cid) && InSessionNow(begun, cid) && LivesThrough(begun, calls, cid)
    ensures var s := Play(Boot(cfg), before);
      var end := Play(Next(s, Receives(now, path, bytes)), calls);
      && InSessionNow(end, cid)
      && Keepalives(end, cid) == Keepalives(s, cid) + 1
      && (OneEntry(end.timers, (cid, ServerMsr)) <==> NoEntry(s.timers, (cid, ServerMsr)))
  {
    hide Play, Receive, Total, LivesThrough, OneEntry, NoEntry;
    PlayAdds(Boot(cfg), before, cid);
    var s := Play(Boot(cfg), before);
    ReceiveAdds(s, now, path, bytes, cid);
    var begun := Next(s, Receives(now, path, bytes));
    PlayAdds(begun, calls, cid);
    NoneExactly(s.timers, (cid, ServerMsr));
    OneExactly(Play(begun, calls).timers, (cid, ServerMsr));
  }

  /** In one step: a greeting that starts a session leaves it one keepalive entry if and only
      if the wheel held none for its id. */
  lemma GreetingLeavesOneExactly(s: ServerState, cid: u64, now: u64, path: u32)
    requires cid !in s.sessions
    ensures var r := Receive(s, now, path, Render(cid, Hello)).0;
      && InSessionNow(r, cid)
      && Keepalives(r, cid) == Keepalives(s, cid) + 1
      && (OneEntry(r.timers, (cid, ServerMsr)) <==> NoEntry(s.timers, (cid, ServerMsr)))
  {
    hide Receive, OnDatagram, Render, Wire.Encode, Wire.Decode, ToFrame, Total, OneEntry, NoEntry;
    GreetingEstablishes(s, cid, now, path);
    ReceiveAdds(s, now, path, Render(cid, Hello), cid);
    NoneExactly(s.timers, (cid, ServerMsr));
    OneExactly(Receive(s, now, path, Render(cid, Hello)).0.timers, (cid, ServerMsr));
  }

  lemma GreetingEstablishes(s: ServerState, cid: u64, now: u64, path: u32)
    requires cid !in s.sessions
    ensures var r := Receive(s, now, path, Render(cid, Hello)).0;
      InSessionNow(r, cid) && r.sessions[cid].core.cid == cid
  {
    hide OnDatagram, Render, Wire.Encode, Wire.Decode, ToFrame, Ingest, Reported, Routed, Mem.Upserted, RecordOf;
    hide Scheduled, PeerOfPath, Origin;
    ReceiveIs(s, cid, now, path, Hello);
    var c := EnsureLoaded(s, cid, path, now).sessions[cid].core;
    HelloStarts(c, now, path);
    DatagramTimers(c, now, path, Render(cid, Hello));
  }

  // ------------------------------------------------- what a poll without a session removes

  lemma FireSchedulesElsewhere(s: ServerState, now: u64, e: (nat, Entry), deadline: nat, x: Entry)
    requires x.0 !in s.sessions
    ensures var f := Fire(s, now, e); x.0 !in f.0.sessions && multiset(f.1.scheduled)[(deadline, x)] == 0
  {
    hide Conclude, OnTimer, Without;
    var owner := e.1.0;
    var taken := s.(timers := Without(s.timers, e.0, e.1));
    if owner in s.sessions {
      TimerRules(s.sessions[owner].core, now, e.1.1);
      var step := OnTimer(s.sessions[owner].core, now, e.1.1);
      ConcludeWheel(taken, owner, 0, now, step);
      ConcludeSessions(taken, owner, 0, now, step, x.0);
      OthersCount(owner, step.out.value.timers, deadline, x);
    }
  }

  lemma {:induction false} FireAllSchedulesElsewhere(s: ServerState, now: u64, due: seq<(nat, Entry)>,
                                                     deadline: nat, x: Entry)
    requires x.0 !in s.sessions
    ensures var f := FireAll(s, now, due); x.0 !in f.0.sessions && multiset(f.1.scheduled)[(deadline, x)] == 0
    decreases |due|
  {
    hide Fire;
    if due != [] {
      var front := FireAll(s, now, due[..|due| - 1]);
      FireAllSchedulesElsewhere(s, now, due[..|due| - 1], deadline, x);
      FireSchedulesElsewhere(front.0, now, due[|due| - 1], deadline, x);
    }
  }

  /** A large enough poll while an id has no session removes exactly what was left over for it
      and is due; nothing comes back. */
  lemma PollClearsLeftOvers(s: ServerState, now: u64, limit: nat, cid: u64, deadline: nat)
    requires cid !in s.sessions && limit >= |Entries(s.timers, DueKeys(s.timers, now))|
    ensures Count(Poll(s, now, limit).0.timers, deadline, (cid, ServerMsr))
         == if deadline <= now then 0 else Count(s.timers, deadline, (cid, ServerMsr))
  {
    hide FireAll, Entries, Count;
    var x := (cid, ServerMsr);
    PollConservesWheel(s, now, limit, deadline, x);
    FireAllSchedulesElsewhere(s, now, Due(s.timers, now, limit), deadline, x);
    EntriesCount(s.timers, DueKeys(s.timers, now), deadline, x);
    assert deadline in DueKeys(s.timers, now) || Count(s.timers, deadline, x) == 0 || deadline > now by {
      AbsentCounts(s.timers, deadline, x);
    }
  }

  lemma AbsentCounts(w: Wheel<Entry>, deadline: nat, x: Entry)
    ensures deadline !in w ==> Count(w, deadline, x) == 0
  {
  }

  // ---------------------------------------------------------------------- a run that shows it

  lemma HelloStarts(c: Core, now: nat, path: u32)
    requires c.role == Server && c.state == PreHandshake
    ensures var s := OnDatagram(c, now, path, Render(c.cid, Hello));
      s.core.state == Established && s.out.Ok? && s.out.value.timers == HandshakeTimers(c, now)
  {
    hide OnDatagram, Render, Wire.Encode, Wire.Decode, ToFrame;
    DeliverMsg(c, now, path, Hello);
  }

  lemma GoodbyeEnds(c: Core, now: nat, path: u32)
    ensures var s := OnDatagram(c, now, path, Render(c.cid, Goodbye));
      s.core.state == Lost && s.out.Ok? && s.out.value.timers == []
  {
    hide OnDatagram, Render, Wire.Encode, Wire.Decode, ToFrame;
    DeliverMsg(c, now, path, Goodbye);
  }

  lemma ReceiveIs(s: ServerState, cid: u64, now: u64, path: u32, m: Msg)
    requires WellFormed(m)
    ensures var bytes := Render(cid, m);
      var l := EnsureLoaded(s, cid, path, now);
      && IsFor(bytes, cid)
      && Receive(s, now, path, bytes)
         == Conclude(l, cid, path, now, OnDatagram(l.sessions[cid].core, now, path, bytes))
  {
    hide Conclude, EnsureLoaded, OnDatagram;
    CidOfFrame(cid, m);
  }

  /** Closing ends the session and leaves the wheel alone. */
  lemma SessionEnds(s: ServerState, cid: u64, now: u64, path: u32)
    requires cid in s.sessions && s.sessions[cid].core.cid == cid
    ensures var r := Receive(s, now, path, Render(cid, Goodbye)).0;
      cid !in r.sessions && cid !in r.store && r.timers == s.timers && r.cfg == s.cfg
  {
    hide OnDatagram, Render, Wire.Encode, Wire.Decode, ToFrame, Reported, Routed, Mem.Upserted, RecordOf;
    hide Scheduled, PeerOfPath;
    ReceiveIs(s, cid, now, path, Goodbye);
    GoodbyeEnds(s.sessions[cid].core, now, path);
  }

  function ReuseRun(cid: u64, path: u32): seq<Call> {
    [ Receives(0, path, Render(cid, Hello)), Receives(1, path, Render(cid, Goodbye)),
      Receives(2, path, Render(cid, Hello)) ]
  }

  lemma NextReceives(s: ServerState, now: u64, path: u32, bytes: Bytes)
    ensures Next(s, Receives(now, path, bytes)) == Receive(s, now, path, bytes).0
  {
  }

  lemma BearsId(cid: u64, m: Msg)
    requires WellFormed(m)
    ensures IsFor(Render(cid, m), cid)
  {
    CidOfFrame(cid, m);
  }

  lemma PlayThree(s: ServerState, a: Call, b: Call, c: Call)
    ensures Play(s, [a, b, c]) == Next(Next(Next(s, a), b), c)
  {
    hide Next;
    assert [a, b, c][1..] == [b, c] && [b, c][1..] == [c] && [c][1..] == [];
    assert Play(Next(s, a), [b, c]) == Play(Next(Next(s, a), b), [c]);
  }

  lemma ReuseIsNoticed(s: ServerState, a: Call, b: Call, c: Call, cid: u64)
    requires Ends(Next(s, a), b, cid) && c.Receives? && IsFor(c.bytes, cid)
    ensures !NoReuse(s, [a, b, c], cid, false)
  {
    hide Next, IsFor, Ends;
    assert [a, b, c][1..] == [b, c] && [b, c][1..] == [c];
    var gone := Ends(s, a, cid);
    assert !NoReuse(Next(Next(s, a), b), [c], cid, gone || Ends(Next(s, a), b, cid));
    assert !NoReuse(Next(s, a), [b, c], cid, gone);
  }

  /** After opening and closing, the wheel still holds the keepalive entry. */
  lemma OpenedAndClosed(cfg: Config, cid: u64, path: u32)
    ensures var run := ReuseRun(cid, path);
      var s1 := Next(Boot(cfg), run[0]);
      var s2 := Next(s1, run[1]);
      && cid !in s2.sessions && Keepalives(s2, cid) == 1 && Ends(s1, run[1], cid)
  {
    hide Receive, Render, Wire.Encode, Wire.Decode, ToFrame, Total, OneEntry, IsFor, Next;
    var s0 := Boot(cfg);
    assert Keepalives(s0, cid) == 0 by {
      NoneExactly(s0.timers, (cid, ServerMsr));
    }
    GreetingEstablishes(s0, cid, 0, path);
    GreetingLeavesOneExactly(s0, cid, 0, path);
    NextReceives(s0, 0, path, Render(cid, Hello));
    var s1 := Next(s0, ReuseRun(cid, path)[0]);
    SessionEnds(s1, cid, 1, path);
    NextReceives(s1, 1, path, Render(cid, Goodbye));
  }

  /** Open, close and open again under one id: the session is established, with two keepalive
      entries. */
  lemma ReusedIdHasTwoKeepalives(cfg: Config, cid: u64, path: u32)
    ensures var s := Play(Boot(cfg), ReuseRun(cid, path));
      && InSessionNow(s, cid) && Keepalives(s, cid) == 2
      && !NoReuse(Boot(cfg), ReuseRun(cid, path), cid, false)
  {
    hide Receive, Render, Wire.Encode, Wire.Decode, ToFrame, Keepalives, IsFor, Play, NoReuse, OneEntry, NoEntry;
    hide Next, Ends, Boot;
    var run := ReuseRun(cid, path);
    OpenedAndClosed(cfg, cid, path);
    PlayThree(Boot(cfg), run[0], run[1], run[2]);
    BearsId(cid, Hello);
    ReuseIsNoticed(Boot(cfg), run[0], run[1], run[2], cid);
    var s2 := Next(Next(Boot(cfg), run[0]), run[1]);
    GreetingLeavesOneExactly(s2, cid, 2, path);
    NextReceives(s2, 2, path, Render(cid, Hello));
  }
}
