/** Sessions on one server do not interfere: what a session goes through among others is what
    it would go through alone, and its machine is a lone machine fed its own events. */
module ServerIsolation {
  import opened ByteOrder
  import opened Wrappers
  import opened Protocol
  import opened CoreSpec
  import opened MachineRuns
  import opened TimerWheel
  import opened CoreTimers
  import opened ServerRuntime
  import opened ServerTimers
  import Mem = MemoryStore
  import Wire

  // ------------------------------------------------------------------- own parts of lists

  function Keep<T>(s: seq<T>, owner: T -> Option<u64>, cid: u64): seq<T> {
    if s == [] then []
    else if owner(s[0]) == Some(cid) then [s[0]] + Keep(s[1..], owner, cid)
    else Keep(s[1..], owner, cid)
  }

  function OfEntry(x: Entry): Option<u64> {
    Some(x.0)
  }

  function OfDue(e: (nat, Entry)): Option<u64> {
    Some(e.1.0)
  }

  function OfSend(s: (u64, Send)): Option<u64> {
    Some(s.0)
  }

  function OfEvent(e: RuntimeEvent): Option<u64> {
    if e.UnreadableDatagram? then None else Some(e.cid)
  }

  lemma {:induction false} KeepConcat<T>(a: seq<T>, b: seq<T>, owner: T -> Option<u64>, cid: u64)
    ensures Keep(a + b, owner, cid) == Keep(a, owner, cid) + Keep(b, owner, cid)
  {
    if a == [] {
      assert a + b == b;
    } else {
      assert (a + b)[1..] == a[1..] + b;
      KeepConcat(a[1..], b, owner, cid);
    }
  }

  lemma {:induction false} KeepAll<T>(s: seq<T>, owner: T -> Option<u64>, cid: u64)
    requires forall i :: 0 <= i < |s| ==> owner(s[i]) == Some(cid)
    ensures Keep(s, owner, cid) == s
  {
    if s != [] {
      KeepAll(s[1..], owner, cid);
    }
  }

  lemma {:induction false} KeepNone<T>(s: seq<T>, owner: T -> Option<u64>, cid: u64)
    requires forall i :: 0 <= i < |s| ==> owner(s[i]) != Some(cid)
    ensures Keep(s, owner, cid) == []
  {
    if s != [] {
      KeepNone(s[1..], owner, cid);
    }
  }

  lemma {:induction false} KeepRemoves(s: seq<Entry>, x: Entry, cid: u64)
    ensures Keep(RemoveFirst(s, x), OfEntry, cid)
         == if x.0 == cid then RemoveFirst(Keep(s, OfEntry, cid), x) else Keep(s, OfEntry, cid)
  {
    if s != [] {
      var tail := s[1..];
      if s[0].0 == cid {
        assert Keep(s, OfEntry, cid)[1..] == Keep(tail, OfEntry, cid);
      }
      if s[0] != x {
        KeepRemoves(tail, x, cid);
        var r := RemoveFirst(s, x);
        assert r[0] == s[0] && r[1..] == RemoveFirst(tail, x);
      }
    }
  }

  // -------------------------------------------------------------------------- own wheel

  function Own(w: Wheel<Entry>, cid: u64): Wheel<Entry> {
    map d | d in w && Keep(w[d], OfEntry, cid) != [] :: Keep(w[d], OfEntry, cid)
  }

  lemma SlotOfOwn(w: Wheel<Entry>, cid: u64, d: nat)
    ensures Slot(Own(w, cid), d) == Keep(Slot(w, d), OfEntry, cid)
    ensures d in Own(w, cid) ==> Own(w, cid)[d] != []
  {
  }

  /** Two wheels without empty slots are equal when all their slots are. */
  lemma SameSlots(a: Wheel<Entry>, b: Wheel<Entry>)
    requires forall d: nat :: Slot(a, d) == Slot(b, d)
    requires forall d: nat :: (d in a ==> a[d] != []) && (d in b ==> b[d] != [])
    ensures a == b
  {
    forall d: nat
      ensures d in a <==> d in b
      ensures d in a ==> a[d] == b[d]
    {
      assert Slot(a, d) == Slot(b, d);
    }
  }

  lemma KeepOne(x: Entry, cid: u64)
    ensures Keep([x], OfEntry, cid) == if x.0 == cid then [x] else []
    ensures Keep([], OfEntry, cid) == [] && RemoveFirst([], x) == []
  {
  }

  lemma OwnWithout(w: Wheel<Entry>, d: nat, x: Entry, cid: u64)
    ensures Own(Without(w, d, x), cid) == if x.0 == cid then Without(Own(w, cid), d, x) else Own(w, cid)
  {
    var a := Own(Without(w, d, x), cid);
    var b := if x.0 == cid then Without(Own(w, cid), d, x) else Own(w, cid);
    hide Own, Keep, RemoveFirst;
    forall k: nat
      ensures Slot(a, k) == Slot(b, k)
      ensures (k in a ==> a[k] != []) && (k in b ==> b[k] != [])
    {
      SlotOfOwn(Without(w, d, x), cid, k);
      SlotOfOwn(w, cid, k);
      KeepRemoves(Slot(w, d), x, cid);
      KeepOne(x, cid);
    }
    SameSlots(a, b);
  }

  lemma OwnPush(w: Wheel<Entry>, d: nat, x: Entry, cid: u64)
    ensures Own(Push(w, d, x), cid) == if x.0 == cid then Push(Own(w, cid), d, x) else Own(w, cid)
  {
    var a := Own(Push(w, d, x), cid);
    var b := if x.0 == cid then Push(Own(w, cid), d, x) else Own(w, cid);
    hide Own, Keep, RemoveFirst;
    forall k: nat
      ensures Slot(a, k) == Slot(b, k)
      ensures (k in a ==> a[k] != []) && (k in b ==> b[k] != [])
    {
      SlotOfOwn(Push(w, d, x), cid, k);
      SlotOfOwn(w, cid, k);
      KeepConcat(Slot(w, d), [x], OfEntry, cid);
      KeepOne(x, cid);
    }
    SameSlots(a, b);
  }

  lemma {:induction false} OwnIngest(w: Wheel<Entry>, owner: u64, actions: seq<TimerAction>, cid: u64)
    ensures Own(Ingest(w, owner, actions), cid)
         == if owner == cid then Ingest(Own(w, cid), owner, actions) else Own(w, cid)
  {
    if actions != [] {
      var n := |actions| - 1;
      OwnIngest(w, owner, actions[..n], cid);
      OwnPush(Ingest(w, owner, actions[..n]), actions[n].deadlineMs, (owner, actions[n].id), cid);
    }
  }

  lemma {:induction false} KeepTagged(d: nat, ids: seq<Entry>, cid: u64)
    ensures Keep(Tag(d, ids), OfDue, cid) == Tag(d, Keep(ids, OfEntry, cid))
  {
    if ids != [] {
      KeepTagged(d, ids[1..], cid);
      assert Tag(d, ids)[1..] == Tag(d, ids[1..]);
    }
  }

  /** A session's entries among all, in order, are the entries of its own wheel. */
  lemma {:induction false} OwnEntries(w: Wheel<Entry>, keys: set<nat>, cid: u64)
    requires keys <= w.Keys
    ensures Keep(Entries(w, keys), OfDue, cid) == Entries(Own(w, cid), keys * Own(w, cid).Keys)
    decreases |keys|
  {
    var own := Own(w, cid);
    if keys == {} {
      assert keys * own.Keys == {};
    } else {
      var k := First(keys);
      OwnEntries(w, keys - {k}, cid);
      KeepConcat(Tag(k, w[k]), Entries(w, keys - {k}), OfDue, cid);
      KeepTagged(k, w[k], cid);
      SlotOfOwn(w, cid, k);
      if k in own {
        assert (keys - {k}) * own.Keys == keys * own.Keys - {k};
        assert First(keys * own.Keys) == k;
      } else {
        assert (keys - {k}) * own.Keys == keys * own.Keys;
      }
    }
  }

  /** What a poll takes for one session is what a poll of its own wheel takes, with the room
      the other sessions left it. */
  lemma OwnDue(w: Wheel<Entry>, now: nat, limit: nat, cid: u64)
    ensures Keep(Due(w, now, limit), OfDue, cid)
         == Due(Own(w, cid), now, |Keep(Due(w, now, limit), OfDue, cid)|)
  {
    var all := Entries(w, DueKeys(w, now));
    var taken := Due(w, now, limit);
    TakeSplits(all, limit);
    KeepConcat(taken, all[|taken|..], OfDue, cid);
    OwnEntries(w, DueKeys(w, now), cid);
    assert DueKeys(w, now) * Own(w, cid).Keys == DueKeys(Own(w, cid), now);
  }

  // -------------------------------------------------------------------- own part of a server

  function Only<V>(m: map<u64, V>, cid: u64): map<u64, V> {
    if cid in m then map[cid := m[cid]] else map[]
  }

  /** The server as it would be with this one session: its record, its machine, its timers. */
  function Alone(s: ServerState, cid: u64): ServerState {
    ServerState(s.cfg, Only(s.store, cid), Only(s.sessions, cid), Own(s.timers, cid))
  }

  function OwnOut(o: ServerOut, cid: u64): ServerOut {
    ServerOut(Keep(o.sends, OfSend, cid), Keep(o.events, OfEvent, cid), Keep(o.scheduled, OfDue, cid))
  }

  lemma OwnAppend(a: ServerOut, b: ServerOut, cid: u64)
    ensures OwnOut(Append(a, b), cid) == Append(OwnOut(a, cid), OwnOut(b, cid))
  {
    KeepConcat(a.sends, b.sends, OfSend, cid);
    KeepConcat(a.events, b.events, OfEvent, cid);
    KeepConcat(a.scheduled, b.scheduled, OfDue, cid);
  }

  lemma AppendNothing(a: ServerOut)
    ensures Append(a, NO_OUTPUT) == a && Append(NO_OUTPUT, a) == a
  {
    assert a.sends + [] == a.sends == [] + a.sends;
    assert a.events + [] == a.events == [] + a.events;
    assert a.scheduled + [] == a.scheduled == [] + a.scheduled;
  }

  lemma {:induction false} ReportedBy(owner: u64, events: seq<Event>)
    ensures forall i :: 0 <= i < |Reported(owner, events)| ==> OfEvent(Reported(owner, events)[i]) == Some(owner)
  {
    if events != [] {
      ReportedBy(owner, events[..|events| - 1]);
    }
  }

  /** A session's step gives out its own things only. */
  lemma OutputOf(owner: u64, path: u32, o: Out, cid: u64)
    ensures var out := ServerOut(Routed(owner, path, o.sends), Reported(owner, o.events), Scheduled(owner, o.timers));
      OwnOut(out, cid) == if owner == cid then out else NO_OUTPUT
  {
    ReportedBy(owner, o.events);
    if owner == cid {
      KeepAll(Routed(owner, path, o.sends), OfSend, cid);
      KeepAll(Reported(owner, o.events), OfEvent, cid);
      KeepAll(Scheduled(owner, o.timers), OfDue, cid);
    } else {
      KeepNone(Routed(owner, path, o.sends), OfSend, cid);
      KeepNone(Reported(owner, o.events), OfEvent, cid);
      KeepNone(Scheduled(owner, o.timers), OfDue, cid);
    }
  }

  lemma SettleAlone(s: ServerState, owner: u64, now: u64, cid: u64)
    requires owner in s.sessions
    ensures Alone(Settle(s, owner, now), cid)
         == if owner == cid then Settle(Alone(s, cid), owner, now) else Alone(s, cid)
  {
    hide Own;
  }

  /** Handing on a session's step looks the same with and without the other sessions; handing
      on another's changes nothing here. */
  lemma ConcludeAlone(s: ServerState, owner: u64, path: u32, now: u64, step: Step, cid: u64)
    requires owner in s.sessions
    ensures var r := Conclude(s, owner, path, now, step);
      && Alone(r.0, cid) == (if owner == cid then Conclude(Alone(s, cid), owner, path, now, step).0 else Alone(s, cid))
      && (owner == cid ==> Conclude(Alone(s, cid), owner, path, now, step).1 == r.1)
      && (r.1.Ok? ==> OwnOut(r.1.value, cid) == if owner == cid then r.1.value else NO_OUTPUT)
  {
    hide Own, Settle, Ingest, Keep;
    var moved := WithCore(s, owner, step.core);
    assert Alone(moved, cid) == if owner == cid then WithCore(Alone(s, cid), owner, step.core) else Alone(s, cid);
    if step.out.Ok? {
      var o := step.out.value;
      var scheduled := moved.(timers := Ingest(moved.timers, owner, o.timers));
      OwnIngest(moved.timers, owner, o.timers, cid);
      SettleAlone(scheduled, owner, now, cid);
      OutputOf(owner, path, o, cid);
    }
  }

  lemma LoadAlone(s: ServerState, owner: u64, path: u32, now: u64, cid: u64)
    ensures Alone(EnsureLoaded(s, owner, path, now), cid)
         == if owner == cid then EnsureLoaded(Alone(s, cid), owner, path, now) else Alone(s, cid)
    ensures owner == cid ==>
      EnsureLoaded(Alone(s, cid), owner, path, now).sessions[cid] == EnsureLoaded(s, owner, path, now).sessions[cid]
  {
    hide Own, OnPathChanged, PeerOfPath;
    var a, b := Origin(s.cfg, s.store, cid, path, now), Origin(s.cfg, Only(s.store, cid), cid, path, now);
    assert a == b;
  }

  // ------------------------------------------------------------------------- the calls

  lemma ReceiveAlone(s: ServerState, now: u64, path: u32, bytes: Bytes, cid: u64)
    ensures var r := Receive(s, now, path, bytes);
      if IsFor(bytes, cid) then Receive(Alone(s, cid), now, path, bytes) == (Alone(r.0, cid), r.1)
      else Alone(r.0, cid) == Alone(s, cid)
  {
    hide Conclude, EnsureLoaded, OnDatagram, Wire.Decode, Own;
    var f := Wire.Decode(bytes);
    if f.Ok? {
      var owner := f.value.cid;
      var l := EnsureLoaded(s, owner, path, now);
      LoadAlone(s, owner, path, now, cid);
      ConcludeAlone(l, owner, path, now, OnDatagram(l.sessions[owner].core, now, path, bytes), cid);
    }
  }

  lemma SubmitAlone(s: ServerState, to: u64, payload: Bytes, now: u64, cid: u64)
    requires CanSubmit(s, to)
    ensures var r := Submit(s, to, payload, now);
      if to == cid
      then CanSubmit(Alone(s, cid), to) && Submit(Alone(s, cid), to, payload, now) == (Alone(r.0, cid), r.1)
      else Alone(r.0, cid) == Alone(s, cid)
  {
    hide Conclude, OnApiSend, Own;
    if to in s.sessions {
      ConcludeAlone(s, to, 0, now, OnApiSend(s.sessions[to].core, payload), cid);
    }
  }

  lemma FireAlone(s: ServerState, now: u64, e: (nat, Entry), cid: u64)
    ensures var f := Fire(s, now, e);
      if e.1.0 == cid then Fire(Alone(s, cid), now, e) == (Alone(f.0, cid), OwnOut(f.1, cid))
      else Alone(f.0, cid) == Alone(s, cid) && OwnOut(f.1, cid) == NO_OUTPUT
  {
    hide Conclude, OnTimer, Own, Without;
    var owner := e.1.0;
    var taken := s.(timers := Without(s.timers, e.0, e.1));
    OwnWithout(s.timers, e.0, e.1, cid);
    if owner in s.sessions {
      TimerRules(s.sessions[owner].core, now, e.1.1);
      ConcludeAlone(taken, owner, 0, now, OnTimer(s.sessions[owner].core, now, e.1.1), cid);
    }
  }

  lemma {:induction false} FireAllAlone(s: ServerState, now: u64, due: seq<(nat, Entry)>, cid: u64)
    ensures var f := FireAll(s, now, due);
      FireAll(Alone(s, cid), now, Keep(due, OfDue, cid)) == (Alone(f.0, cid), OwnOut(f.1, cid))
    decreases |due|
  {
    hide Fire, Alone, Own;
    if due != [] {
      var n := |due| - 1;
      var front := FireAll(s, now, due[..n]);
      FireAllAlone(s, now, due[..n], cid);
      assert due == due[..n] + [due[n]];
      KeepConcat(due[..n], [due[n]], OfDue, cid);
      FireAlone(front.0, now, due[n], cid);
      OwnAppend(front.1, Fire(front.0, now, due[n]).1, cid);
      AppendNothing(OwnOut(front.1, cid));
      if due[n].1.0 == cid {
        assert Keep([due[n]], OfDue, cid) == [due[n]];
        var own := Keep(due, OfDue, cid);
        assert own[..|own| - 1] == Keep(due[..n], OfDue, cid);
      } else {
        assert Keep([due[n]], OfDue, cid) == [];
        assert Keep(due, OfDue, cid) == Keep(due[..n], OfDue, cid);
      }
    }
  }

  /** A poll does to one session what a poll of that session alone does, with the room the
      other sessions' entries left. */
  lemma PollAlone(s: ServerState, now: u64, limit: nat, cid: u64)
    ensures var share := |Keep(Due(s.timers, now, limit), OfDue, cid)|;
      var p := Poll(s, now, limit);
      share <= limit && Poll(Alone(s, cid), now, share) == (Alone(p.0, cid), OwnOut(p.1, cid))
  {
    hide FireAll, Own, Due;
    var due := Due(s.timers, now, limit);
    OwnDue(s.timers, now, limit, cid);
    FireAllAlone(s, now, due, cid);
    KeepShortens(due, cid);
    DueIsShort(s.timers, now, limit);
  }

  lemma {:induction false} KeepShortens(due: seq<(nat, Entry)>, cid: u64)
    ensures |Keep(due, OfDue, cid)| <= |due|
  {
    if due != [] {
      KeepShortens(due[1..], cid);
    }
  }

  lemma DueIsShort(w: Wheel<Entry>, now: nat, limit: nat)
    ensures |Due(w, now, limit)| <= limit
  {
  }

  // ---------------------------------------------------------------------- whole runs

  /** The calls a session would see on a server of its own. */
  function OwnCalls(s: ServerState, calls: seq<Call>, cid: u64): seq<Call>
    decreases |calls|
  {
    if calls == [] then []
    else OwnCall(s, calls[0], cid) + OwnCalls(Next(s, calls[0]), calls[1..], cid)
  }

  function OwnCall(s: ServerState, c: Call, cid: u64): seq<Call> {
    match c
    case Receives(_, _, bytes) => if IsFor(bytes, cid) then [c] else []
    case Submits(to, _, _) => if to == cid then [c] else []
    case Polls(now, limit) => [Polls(now, |Keep(Due(s.timers, now, limit), OfDue, cid)|)]
  }

  lemma NextAlone(s: ServerState, c: Call, cid: u64)
    ensures Play(Alone(s, cid), OwnCall(s, c, cid)) == Alone(Next(s, c), cid)
  {
    hide Receive, Submit, Poll, Own, IsFor, Due;
    match c
    case Receives(now, path, bytes) =>
      ReceiveAlone(s, now, path, bytes, cid);
      PlayOne(Alone(s, cid), c);
    case Submits(to, payload, now) =>
      PlayOne(Alone(s, cid), c);
      if CanSubmit(s, to) {
        SubmitAlone(s, to, payload, now, cid);
      }
    case Polls(now, limit) =>
      PollAlone(s, now, limit, cid);
      PlayOne(Alone(s, cid), Polls(now, |Keep(Due(s.timers, now, limit), OfDue, cid)|));
  }

  lemma PlayOne(s: ServerState, c: Call)
    ensures Play(s, [c]) == Next(s, c) && Play(s, []) == s
  {
    assert [c][1..] == [];
  }

  lemma {:induction false} PlayConcat(s: ServerState, a: seq<Call>, b: seq<Call>)
    ensures Play(s, a + b) == Play(Play(s, a), b)
    decreases |a|
  {
    hide Next;
    if a == [] {
      assert a + b == b;
    } else {
      assert (a + b)[1..] == a[1..] + b;
      PlayConcat(Next(s, a[0]), a[1..], b);
    }
  }

  /** Whatever else the server handles in between, each session ends up with the machine, the
      record and the timers it would have on a server of its own. */
  lemma {:induction false} SessionsAreIsolated(s: ServerState, calls: seq<Call>, cid: u64)
    ensures Alone(Play(s, calls), cid) == Play(Alone(s, cid), OwnCalls(s, calls, cid))
    decreases |calls|
  {
    hide Next, Alone, OwnCall;
    if calls != [] {
      NextAlone(s, calls[0], cid);
      SessionsAreIsolated(Next(s, calls[0]), calls[1..], cid);
      PlayConcat(Alone(s, cid), OwnCall(s, calls[0], cid), OwnCalls(Next(s, calls[0]), calls[1..], cid));
    }
  }

  // ------------------------------------------------------------------- the lone machine

  function TimerInputs(due: seq<(nat, Entry)>, cid: u64, now: u64): seq<Input> {
    if due == [] then []
    else
      var last := due[|due| - 1];
      TimerInputs(due[..|due| - 1], cid, now) + (if last.1.0 == cid then [Timer(now, last.1.1)] else [])
  }

  /** The inputs a call gives to one session's machine. */
  function Feed(s: ServerState, c: Call, cid: u64): seq<Input> {
    match c
    case Receives(now, path, bytes) =>
      if !IsFor(bytes, cid) then []
      else (if cid in s.sessions then [] else [PathChanged(path)]) + [Datagram(now, path, bytes)]
    case Submits(to, payload, _) =>
      if to == cid && cid in s.sessions && CanSubmit(s, cid) then [SendMessage(payload)] else []
    case Polls(now, limit) => TimerInputs(Due(s.timers, now, limit), cid, now)
  }

  function After(c: Core, inputs: seq<Input>): Core {
    Run(Trace(c, NOTHING), inputs).core
  }

  lemma AfterConcat(c: Core, a: seq<Input>, b: seq<Input>)
    ensures After(c, a + b) == After(After(c, a), b)
  {
    RunConcat(Trace(c, NOTHING), a, b);
    OutputsDoNotMatter(Run(Trace(c, NOTHING), a), Trace(After(c, a), NOTHING), b);
  }

  lemma AfterOne(c: Core, i: Input)
    requires Allowed(c, i)
    ensures After(c, [i]) == Apply(c, i).core && After(c, []) == c
  {
    hide Apply;
    var t := Trace(c, NOTHING);
    assert [i][1..] == [];
    assert Run(t, [i]) == Run(MachineRuns.Advance(t, i), []) == MachineRuns.Advance(t, i);
  }

  /** A session's machine after handing on a step is the machine of the step. */
  lemma ConcludeCore(s: ServerState, owner: u64, path: u32, now: u64, step: Step, cid: u64)
    requires owner in s.sessions
    ensures var after := Conclude(s, owner, path, now, step).0;
      cid in after.sessions ==>
        cid in s.sessions && after.sessions[cid].core == if owner == cid then step.core else s.sessions[cid].core
  {
    hide Ingest, Reported, Routed, Mem.Upserted, RecordOf;
  }

  lemma FireDrives(s: ServerState, now: u64, e: (nat, Entry), cid: u64)
    ensures var after := Fire(s, now, e).0;
      cid in after.sessions ==>
        cid in s.sessions && after.sessions[cid].core
          == (if e.1.0 == cid then OnTimer(s.sessions[cid].core, now, e.1.1).core else s.sessions[cid].core)
  {
    hide Conclude, OnTimer, Without;
    var owner := e.1.0;
    var taken := s.(timers := Without(s.timers, e.0, e.1));
    if owner in s.sessions {
      TimerRules(s.sessions[owner].core, now, e.1.1);
      ConcludeCore(taken, owner, 0, now, OnTimer(s.sessions[owner].core, now, e.1.1), cid);
    }
  }

  lemma {:induction false} FireAllDrives(s: ServerState, now: u64, due: seq<(nat, Entry)>, cid: u64)
    ensures var after := FireAll(s, now, due).0;
      cid in after.sessions ==>
        cid in s.sessions && after.sessions[cid].core == After(s.sessions[cid].core, TimerInputs(due, cid, now))
    decreases |due|
  {
    hide Fire, OnTimer, After;
    if cid in FireAll(s, now, due).0.sessions {
      if due == [] {
        AfterOne(s.sessions[cid].core, Begin);
      } else {
        var last := due[|due| - 1];
        var front := FireAll(s, now, due[..|due| - 1]).0;
        FireDrives(front, now, last, cid);
        FireAllDrives(s, now, due[..|due| - 1], cid);
        var inputs := TimerInputs(due[..|due| - 1], cid, now);
        if last.1.0 == cid {
          AfterConcat(s.sessions[cid].core, inputs, [Timer(now, last.1.1)]);
          AfterOne(front.sessions[cid].core, Timer(now, last.1.1));
        } else {
          assert inputs + [] == inputs;
        }
      }
    }
  }

  /** Every record in the store belongs to a session in memory. */
  ghost predicate Recorded(s: ServerState) {
    s.store.Keys <= s.sessions.Keys
  }

  /** The machine a session starts from, given no record of it. */
  function Origins(s: ServerState, cid: u64): Core {
    if cid in s.sessions then s.sessions[cid].core else Init(Role.Server, cid, s.cfg)
  }

  lemma ConcludeRecorded(s: ServerState, owner: u64, path: u32, now: u64, step: Step)
    requires owner in s.sessions && Recorded(s)
    ensures Recorded(Conclude(s, owner, path, now, step).0)
  {
    hide Ingest, Reported, Routed, RecordOf;
  }

  lemma ReceiveDrives(s: ServerState, now: u64, path: u32, bytes: Bytes, cid: u64)
    requires Recorded(s)
    ensures var after := Receive(s, now, path, bytes).0;
      && Recorded(after) && after.cfg == s.cfg
      && (cid in after.sessions ==> cid in s.sessions || IsFor(bytes, cid))
      && (cid in after.sessions ==>
            after.sessions[cid].core == After(Origins(s, cid), Feed(s, Receives(now, path, bytes), cid)))
  {
    hide Conclude, OnDatagram, Wire.Decode, After, PeerOfPath;
    var f := Wire.Decode(bytes);
    AfterOne(Origins(s, cid), Begin);
    if f.Ok? {
      var owner := f.value.cid;
      var l := EnsureLoaded(s, owner, path, now);
      var step := OnDatagram(l.sessions[owner].core, now, path, bytes);
      ConcludeWheel(l, owner, path, now, step);
      ConcludeRecorded(l, owner, path, now, step);
      ConcludeCore(l, owner, path, now, step, cid);
      if owner == cid {
        var started := l.sessions[cid].core;
        AfterOne(started, Datagram(now, path, bytes));
        if cid !in s.sessions {
          AfterOne(Origins(s, cid), PathChanged(path));
          AfterConcat(Origins(s, cid), [PathChanged(path)], [Datagram(now, path, bytes)]);
        } else {
          assert [] + [Datagram(now, path, bytes)] == [Datagram(now, path, bytes)];
        }
      }
    }
  }

  lemma SubmitDrives(s: ServerState, to: u64, payload: Bytes, now: u64, cid: u64)
    requires Recorded(s) && CanSubmit(s, to)
    ensures var after := Submit(s, to, payload, now).0;
      && Recorded(after) && after.cfg == s.cfg
      && (cid in after.sessions ==> cid in s.sessions)
      && (cid in after.sessions ==>
            after.sessions[cid].core == After(s.sessions[cid].core, Feed(s, Submits(to, payload, now), cid)))
  {
    hide Conclude, OnApiSend, After;
    AfterOne(Origins(s, cid), Begin);
    if to in s.sessions {
      var step := OnApiSend(s.sessions[to].core, payload);
      ConcludeWheel(s, to, 0, now, step);
      ConcludeRecorded(s, to, 0, now, step);
      ConcludeCore(s, to, 0, now, step, cid);
      if to == cid {
        AfterOne(s.sessions[cid].core, SendMessage(payload));
      }
    }
  }

  lemma FireRecorded(s: ServerState, now: u64, e: (nat, Entry))
    requires Recorded(s)
    ensures Recorded(Fire(s, now, e).0) && Fire(s, now, e).0.cfg == s.cfg
  {
    hide Conclude, OnTimer, Without;
    var taken := s.(timers := Without(s.timers, e.0, e.1));
    if e.1.0 in s.sessions {
      TimerRules(s.sessions[e.1.0].core, now, e.1.1);
      var step := OnTimer(s.sessions[e.1.0].core, now, e.1.1);
      ConcludeWheel(taken, e.1.0, 0, now, step);
      ConcludeRecorded(taken, e.1.0, 0, now, step);
    }
  }

  lemma {:induction false} FireAllRecorded(s: ServerState, now: u64, due: seq<(nat, Entry)>)
    requires Recorded(s)
    ensures Recorded(FireAll(s, now, due).0) && FireAll(s, now, due).0.cfg == s.cfg
    decreases |due|
  {
    hide Fire, Recorded;
    if due != [] {
      FireAllRecorded(s, now, due[..|due| - 1]);
      FireRecorded(FireAll(s, now, due[..|due| - 1]).0, now, due[|due| - 1]);
    }
  }

  lemma NextDrives(s: ServerState, c: Call, cid: u64)
    requires Recorded(s)
    ensures var after := Next(s, c);
      && Recorded(after) && after.cfg == s.cfg
      && (cid in after.sessions ==> after.sessions[cid].core == After(Origins(s, cid), Feed(s, c, cid)))
  {
    hide Receive, Submit, FireAll, IsFor, Due, After, Recorded;
    match c
    case Receives(now, path, bytes) => ReceiveDrives(s, now, path, bytes, cid);
    case Submits(to, payload, now) =>
      AfterOne(Origins(s, cid), Begin);
      if CanSubmit(s, to) {
        SubmitDrives(s, to, payload, now, cid);
      } else {
        AfterNothingFed(s, c, cid);
      }
    case Polls(now, limit) =>
      FireAllRecorded(s, now, Due(s.timers, now, limit));
      FireAllDrives(s, now, Due(s.timers, now, limit), cid);
  }

  lemma AfterNothingFed(s: ServerState, c: Call, cid: u64)
    requires c.Submits? && !CanSubmit(s, c.cid)
    ensures Feed(s, c, cid) == []
  {
  }

  /** Everything fed to the machine of `cid` since its session last started. */
  function Fed(s: ServerState, calls: seq<Call>, cid: u64, sofar: seq<Input>): seq<Input>
    decreases |calls|
  {
    if calls == [] then sofar
    else
      var after := Next(s, calls[0]);
      var now := if cid in after.sessions then sofar + Feed(s, calls[0], cid) else [];
      Fed(after, calls[1..], cid, now)
  }

  lemma {:induction false} PlayDrives(s: ServerState, calls: seq<Call>, cid: u64, sofar: seq<Input>)
    requires Recorded(s)
    requires cid in s.sessions ==> s.sessions[cid].core == After(Init(Role.Server, cid, s.cfg), sofar)
    requires cid !in s.sessions ==> sofar == []
    ensures var end := Play(s, calls);
      cid in end.sessions ==>
        end.sessions[cid].core == After(Init(Role.Server, cid, s.cfg), Fed(s, calls, cid, sofar))
    decreases |calls|
  {
    hide Next, After, Feed, Recorded;
    if calls != [] {
      var after := Next(s, calls[0]);
      var fed := Feed(s, calls[0], cid);
      NextDrives(s, calls[0], cid);
      AfterConcat(Init(Role.Server, cid, s.cfg), sofar, fed);
      assert [] + fed == fed;
      PlayDrives(after, calls[1..], cid, if cid in after.sessions then sofar + fed else []);
    }
  }

  /** From an empty store, the machine of every session on the server is a lone machine, run on
      the datagrams that bear its id, the messages submitted to it and its own timers. */
  lemma EachSessionIsALoneMachine(cfg: Config, calls: seq<Call>, cid: u64)
    requires cid in Play(Boot(cfg), calls).sessions
    ensures Play(Boot(cfg), calls).sessions[cid].core
         == Run(Start(Role.Server, cid, cfg), Fed(Boot(cfg), calls, cid, [])).core
  {
    hide Play, Fed, Run;
    PlayDrives(Boot(cfg), calls, cid, []);
  }
}
