/** What the server's records are good for: at each moment every session that was served has a
    record of it that lives one window longer, and a server started anew over the store gives
    it back its peer and the timers the records carry. */
module Restart {
  import opened ByteOrder
  import opened Wrappers
  import opened Protocol
  import opened CoreSpec
  import opened MachineRuns
  import opened TimerWheel
  import opened CoreTimers
  import opened Delivery
  import opened ServerRuntime
  import opened ServerTimers
  import opened RecordLife
  import S = SessionStore
  import Mem = MemoryStore
  import Wire

  /** A server that has just been started over a store. */
  function Started(cfg: Config, store: S.Table): ServerState {
    ServerState(cfg, store, map[], map[])
  }

  // ------------------------------------------------------------------- single calls

  /** A failed datagram delivers nothing. */
  lemma FailureDeliversNothing(c: Core, now: nat, path: u32, bytes: Bytes)
    ensures var s := OnDatagram(c, now, path, bytes);
      s.out.Err? ==> s.core.lastOrderedRx == c.lastOrderedRx && s.core.state == c.state
  {
    hide Wire.Decode, Dispatch, Piggyback, FrameRules;
    if Hears(c, bytes) {
      var f := Wire.Decode(bytes).value;
      var a := Arrive(c, now, path);
      FailedDispatch(a, now, path, f);
      PiggybackIsQuiet(Dispatch(a, now, path, f).core, now, path, f);
    }
  }

  lemma FailedDispatch(c: Core, now: nat, path: u32, f: Wire.WireFrame)
    ensures var s := Dispatch(c, now, path, f);
      s.out.Err? ==> s.core.lastOrderedRx == c.lastOrderedRx && s.core.state == c.state
  {
    hide HandleTlvs, HandleMsrSignal, RangeReplies, Accept, AddChunk, Merge;
    match f.messageType
    case Msr => TlvsChangeOnlyTimers(c, path, f.tlvs);
    case _ =>
  }

  /** The entry says who the peer is and where the session stands, and lives until then. */
  ghost predicate IsRecordOf(e: S.VersionedRecord, cid: u64, session: Session, cfg: Config, until: u64) {
    && e.record.cid == cid && e.record.peerId == session.peerId
    && e.record.negotiatedMsrIntervalMs == cfg.msrIntervalMs && e.record.disconnectWindowMs == cfg.disconnectWindowMs
    && e.record.lastOrderedRx == session.core.lastOrderedRx
    && e.expiresAtMs == until
  }

  lemma ConcludeRecords(s: ServerState, owner: u64, path: u32, now: u64, step: Step, cid: u64)
    requires owner in s.sessions
    ensures var r := Conclude(s, owner, path, now, step).0;
      && r.cfg == s.cfg
      && (owner != cid ==> SameSession(s, r, cid))
      && (owner == cid && step.out.Err? ==>
            && cid in r.sessions && r.sessions[cid] == s.sessions[cid].(core := step.core)
            && (cid in r.store <==> cid in s.store) && (cid in s.store ==> r.store[cid] == s.store[cid]))
      && (owner == cid && step.out.Ok? && step.core.state == Lost ==> cid !in r.sessions && cid !in r.store)
      && (owner == cid && step.out.Ok? && step.core.state != Lost ==>
            && cid in r.sessions && r.sessions[cid] == s.sessions[cid].(core := step.core)
            && cid in r.store
            && IsRecordOf(r.store[cid], cid, r.sessions[cid], s.cfg, EndOfLife(now, s.cfg.disconnectWindowMs)))
  {
    hide Ingest, Reported, Routed, Scheduled;
  }

  /** Nothing about this session differs. */
  ghost predicate SameSession(s: ServerState, r: ServerState, cid: u64) {
    && (cid in r.sessions <==> cid in s.sessions) && (cid in s.sessions ==> r.sessions[cid] == s.sessions[cid])
    && (cid in r.store <==> cid in s.store) && (cid in s.store ==> r.store[cid] == s.store[cid])
  }

  // -------------------------------------------------------------------- the invariant

  /** `served` is when a call last succeeded for the session in memory. A session served has a
      record of that moment; any other record is one the server was started with. */
  ghost predicate Booked(s: ServerState, store: S.Table, cid: u64, served: Option<u64>) {
    && (served.Some? ==>
          && cid in s.sessions && cid in s.store
          && IsRecordOf(s.store[cid], cid, s.sessions[cid], s.cfg, EndOfLife(served.value, s.cfg.disconnectWindowMs)))
    && (served.None? && cid in s.store ==>
          && cid in store && s.store[cid] == store[cid]
          && (cid in s.sessions ==> s.sessions[cid].peerId == store[cid].record.peerId))
  }

  /** When the session was last served, one call later. */
  function ServedAfter(s: ServerState, c: Call, cid: u64, served: Option<u64>): Option<u64> {
    if cid !in Next(s, c).sessions then None
    else
      match c
      case Receives(now, path, bytes) =>
        if IsFor(bytes, cid) && Receive(s, now, path, bytes).1.Ok? then Some(now) else served
      case Submits(to, _, now) => if to == cid && CanSubmit(s, to) then Some(now) else served
      case Polls(now, limit) => if HasEntry(Due(s.timers, now, limit), cid) then Some(now) else served
  }

  /** When the session of `cid` in memory, if there is one, was last served in the run. */
  function Served(s: ServerState, calls: seq<Call>, cid: u64, served: Option<u64>): Option<u64>
    decreases |calls|
  {
    if calls == [] then served else Served(Next(s, calls[0]), calls[1..], cid, ServedAfter(s, calls[0], cid, served))
  }

  predicate HasEntry(due: seq<(nat, Entry)>, cid: u64) {
    exists i :: 0 <= i < |due| && due[i].1.0 == cid
  }

  lemma LoadBooks(s: ServerState, store: S.Table, owner: u64, path: u32, now: u64, cid: u64, served: Option<u64>)
    requires Booked(s, store, cid, served)
    ensures var l := EnsureLoaded(s, owner, path, now);
      Booked(l, store, cid, served) && l.cfg == s.cfg && (owner != cid ==> SameSession(s, l, cid))
  {
    hide PeerOfPath, OnPathChanged;
  }

  lemma ReceiveBooks(s: ServerState, store: S.Table, now: u64, path: u32, bytes: Bytes, cid: u64, served: Option<u64>)
    requires Booked(s, store, cid, served)
    ensures var r := Receive(s, now, path, bytes).0;
      Booked(r, store, cid, ServedAfter(s, Receives(now, path, bytes), cid, served)) && r.cfg == s.cfg
  {
    hide Conclude, EnsureLoaded, OnDatagram, Wire.Decode;
    var f := Wire.Decode(bytes);
    if f.Ok? {
      var owner := f.value.cid;
      var l := EnsureLoaded(s, owner, path, now);
      LoadBooks(s, store, owner, path, now, cid, served);
      var step := OnDatagram(l.sessions[owner].core, now, path, bytes);
      FailureDeliversNothing(l.sessions[owner].core, now, path, bytes);
      ConcludeRecords(l, owner, path, now, step, cid);
    }
  }

  lemma SubmitBooks(s: ServerState, store: S.Table, to: u64, payload: Bytes, now: u64, cid: u64, served: Option<u64>)
    requires Booked(s, store, cid, served) && CanSubmit(s, to)
    ensures var r := Submit(s, to, payload, now).0;
      Booked(r, store, cid, ServedAfter(s, Submits(to, payload, now), cid, served)) && r.cfg == s.cfg
  {
    hide Conclude, OnApiSend;
    if to in s.sessions {
      var step := OnApiSend(s.sessions[to].core, payload);
      SendSucceeds(s.sessions[to].core, payload);
      ConcludeRecords(s, to, 0, now, step, cid);
    }
  }

  lemma SendSucceeds(c: Core, payload: Bytes)
    requires c.nextOutboundId < U64_MAX
    ensures OnApiSend(c, payload).out.Ok?
  {
  }

  /** When the session was last served, one fired entry later. */
  function ServedByFire(s: ServerState, now: u64, e: (nat, Entry), cid: u64, served: Option<u64>): Option<u64> {
    if cid !in Fire(s, now, e).0.sessions then None else if e.1.0 == cid then Some(now) else served
  }

  lemma FireBooks(s: ServerState, store: S.Table, now: u64, e: (nat, Entry), cid: u64, served: Option<u64>)
    requires Booked(s, store, cid, served)
    ensures var f := Fire(s, now, e).0;
      && Booked(f, store, cid, ServedByFire(s, now, e, cid, served)) && f.cfg == s.cfg
      && (cid !in s.sessions ==> cid !in f.sessions)
  {
    hide Conclude, OnTimer, Without;
    var owner := e.1.0;
    var taken := s.(timers := Without(s.timers, e.0, e.1));
    if owner in s.sessions {
      TimerRules(s.sessions[owner].core, now, e.1.1);
      ConcludeRecords(taken, owner, 0, now, OnTimer(s.sessions[owner].core, now, e.1.1), cid);
    }
  }

  lemma HasEntrySplits(due: seq<(nat, Entry)>, cid: u64)
    requires due != []
    ensures HasEntry(due, cid) <==> HasEntry(due[..|due| - 1], cid) || due[|due| - 1].1.0 == cid
  {
    var n := |due| - 1;
    if HasEntry(due[..n], cid) {
      var i :| 0 <= i < n && due[..n][i].1.0 == cid;
      assert due[i].1.0 == cid;
    }
    if i :| 0 <= i < |due| && due[i].1.0 == cid {
      assert i < n ==> due[..n][i].1.0 == cid;
    }
  }

  lemma {:induction false} FireAllBooks(s: ServerState, store: S.Table, now: u64, due: seq<(nat, Entry)>, cid: u64,
                                        served: Option<u64>)
    requires Booked(s, store, cid, served)
    ensures var f := FireAll(s, now, due).0;
      && f.cfg == s.cfg
      && Booked(f, store, cid, if cid !in f.sessions then None else if HasEntry(due, cid) then Some(now) else served)
      && (cid !in s.sessions ==> cid !in f.sessions)
    decreases |due|
  {
    hide Fire, Booked, HasEntry;
    if due != [] {
      var n := |due| - 1;
      FireAllBooks(s, store, now, due[..n], cid, served);
      var front := FireAll(s, now, due[..n]).0;
      HasEntrySplits(due, cid);
      FireBooks(front, store, now, due[n], cid,
                if cid !in front.sessions then None else if HasEntry(due[..n], cid) then Some(now) else served);
    } else {
      assert !HasEntry(due, cid) by {
        NothingHasEntry(cid);
      }
      if cid !in s.sessions {
        NotInMemoryNotServed(s, store, cid, served);
      }
    }
  }

  lemma NothingHasEntry(cid: u64)
    ensures !HasEntry([], cid)
  {
  }

  lemma NotInMemoryNotServed(s: ServerState, store: S.Table, cid: u64, served: Option<u64>)
    requires Booked(s, store, cid, served) && cid !in s.sessions
    ensures served == None
  {
  }

  lemma NextBooks(s: ServerState, store: S.Table, c: Call, cid: u64, served: Option<u64>)
    requires Booked(s, store, cid, served)
    ensures Booked(Next(s, c), store, cid, ServedAfter(s, c, cid, served)) && Next(s, c).cfg == s.cfg
  {
    hide Receive, Submit, FireAll, IsFor, Due, HasEntry, Booked;
    match c
    case Receives(now, path, bytes) => ReceiveBooks(s, store, now, path, bytes, cid, served);
    case Submits(to, payload, now) =>
      if CanSubmit(s, to) {
        SubmitBooks(s, store, to, payload, now, cid, served);
      } else if cid !in s.sessions {
        NotInMemoryNotServed(s, store, cid, served);
      }
    case Polls(now, limit) => FireAllBooks(s, store, now, Due(s.timers, now, limit), cid, served);
  }

  lemma {:induction false} PlayBooks(s: ServerState, store: S.Table, calls: seq<Call>, cid: u64, served: Option<u64>)
    requires Booked(s, store, cid, served)
    ensures Booked(Play(s, calls), store, cid, Served(s, calls, cid, served)) && Play(s, calls).cfg == s.cfg
    decreases |calls|
  {
    hide Next, Booked, ServedAfter;
    if calls != [] {
      NextBooks(s, store, calls[0], cid, served);
      PlayBooks(Next(s, calls[0]), store, calls[1..], cid, ServedAfter(s, calls[0], cid, served));
    }
  }
  // ------------------------------------------------------------------------ peer names

  /** The number a string of digits stands for. */
  function NumberOf(digits: string): int {
    if digits == "" then 0 else 10 * NumberOf(digits[..|digits| - 1]) + (digits[|digits| - 1] as int - '0' as int)
  }

  lemma {:induction false} DecimalReadsBack(n: nat)
    ensures NumberOf(Decimal(n)) == n && Decimal(n) != ""
  {
    var last := [('0' as int + n % 10) as char];
    if n < 10 {
      assert Decimal(n)[..0] == "";
    } else {
      DecimalReadsBack(n / 10);
      assert Decimal(n) == Decimal(n / 10) + last;
      assert Decimal(n)[..|Decimal(n)| - 1] == Decimal(n / 10);
    }
  }

  /** A peer without a record is named after the path it came by, and told from any other. */
  lemma PeerNamesPath(path: u32)
    ensures |PeerOfPath(path)| > 5 && PeerOfPath(path)[..5] == "path:" && NumberOf(PeerOfPath(path)[5..]) == path
  {
    DecimalReadsBack(path);
    assert PeerOfPath(path)[5..] == Decimal(path);
  }

  // ------------------------------------------------------------------- starting anew

  /** What the first greeting makes of a session that starts with this configuration: its two
      timers an interval and a window ahead, and nothing else scheduled. */
  ghost predicate Begins(r: (ServerState, Result<ServerOut, CoreError>), cid: u64, cfg: Config, peer: string,
                         now: u64) {
    && cid in r.0.sessions && r.0.sessions[cid].core.state == Established
    && r.0.sessions[cid].core.cfg == cfg && r.0.sessions[cid].peerId == peer
    && r.1.Ok?
    && r.1.value.scheduled
       == [(now + cfg.msrIntervalMs, (cid, ServerMsr)), (now + cfg.disconnectWindowMs, (cid, Disconnect))]
  }

  /** The first greeting after a start: the session runs on the record that still lives, with
      the miss count of the server, else on the server's own timers. */
  lemma GreetingRestores(cfg: Config, store: S.Table, cid: u64, now: u64, path: u32)
    ensures var r := Receive(Started(cfg, store), now, path, Render(cid, Hello));
      if cid in store && now < store[cid].expiresAtMs
      then
        var record := store[cid].record;
        Begins(r, cid, Config(record.negotiatedMsrIntervalMs, cfg.missWindowCount, record.disconnectWindowMs),
               record.peerId, now)
      else Begins(r, cid, cfg, PeerOfPath(path), now)
  {
    hide OnDatagram, Render, Wire.Encode, Wire.Decode, ToFrame, Reported, Routed, Mem.Upserted, Ingest, PeerOfPath;
    var s := Started(cfg, store);
    var l := EnsureLoaded(s, cid, path, now);
    CidOfFrame(cid, Hello);
    var c := l.sessions[cid].core;
    DeliverMsg(c, now, path, Hello);
  }

  /** The two timers a record carries. */
  predicate SameTimers(a: Config, b: Config) {
    a.msrIntervalMs == b.msrIntervalMs && a.disconnectWindowMs == b.disconnectWindowMs
  }

  /** Over every run of a server, from whatever store, and for every later moment: a server
      started anew over the store that run left gives a session its peer's name and the old
      server's interval and window if the session was last served less than a window before,
      else it starts from nothing. So a session gets back the timers it ran on if and only if
      those were the server's own. */
  lemma RestartRestoresExactly(cfg: Config, store: S.Table, calls: seq<Call>, cid: u64,
                               again: Config, now: u64, path: u32)
    requires Served(Started(cfg, store), calls, cid, None).Some?
    ensures var s := Play(Started(cfg, store), calls);
      var served := Served(Started(cfg, store), calls, cid, None).value;
      var r := Receive(Started(again, s.store), now, path, Render(cid, Hello));
      && cid in s.sessions
      && (if now < EndOfLife(served, cfg.disconnectWindowMs)
          then
            && Begins(r, cid, Config(cfg.msrIntervalMs, again.missWindowCount, cfg.disconnectWindowMs),
                      s.sessions[cid].peerId, now)
            && (SameTimers(r.0.sessions[cid].core.cfg, s.sessions[cid].core.cfg) <==>
                  SameTimers(s.sessions[cid].core.cfg, cfg))
          else Begins(r, cid, again, PeerOfPath(path), now))
  {
    hide Play, Served, Receive, PeerOfPath, Render;
    PlayBooks(Started(cfg, store), store, calls, cid, None);
    GreetingRestores(again, Play(Started(cfg, store), calls).store, cid, now, path);
  }

  /** A record the server was started with and has not replaced is given back as it is. */
  lemma RestartKeepsOlderRecords(cfg: Config, store: S.Table, calls: seq<Call>, cid: u64,
                                 again: Config, now: u64, path: u32)
    requires Served(Started(cfg, store), calls, cid, None).None?
    requires cid in Play(Started(cfg, store), calls).store
    ensures cid in store
    ensures var s := Play(Started(cfg, store), calls);
      var r := Receive(Started(again, s.store), now, path, Render(cid, Hello));
      var record := store[cid].record;
      && (cid in s.sessions ==> s.sessions[cid].peerId == record.peerId)
      && (if now < store[cid].expiresAtMs
          then Begins(r, cid, Config(record.negotiatedMsrIntervalMs, again.missWindowCount, record.disconnectWindowMs),
                      record.peerId, now)
          else Begins(r, cid, again, PeerOfPath(path), now))
  {
    hide Play, Served, Receive, PeerOfPath, Render, Begins;
    PlayBooks(Started(cfg, store), store, calls, cid, None);
    GreetingRestores(again, Play(Started(cfg, store), calls).store, cid, now, path);
  }

  // --------------------------------------------------- negotiated timers are not recorded

  /** A session opens, and its client has a proposal accepted. */
  function NegotiatedRun(cid: u64, path: u32, p: TimerProposal): seq<Call> {
    [Receives(0, path, Render(cid, Hello)), Receives(1, path, Render(cid, Status(0, 0, Propose(1, p))))]
  }

  lemma PlayTwo(s: ServerState, a: Call, b: Call)
    ensures Play(s, [a, b]) == Next(Next(s, a), b)
  {
    hide Next;
    assert [a, b][1..] == [b] && [b][1..] == [];
    assert Play(Next(s, a), [b]) == Play(Next(Next(s, a), b), []);
  }
  lemma GreetingServes(cfg: Config, cid: u64, path: u32)
    ensures var s := Next(Boot(cfg), Receives(0, path, Render(cid, Hello)));
      && cid in s.sessions && s.cfg == cfg
      && s.sessions[cid].core.cid == cid && s.sessions[cid].core.state == Established
      && s.sessions[cid].core.role == Role.Server && s.sessions[cid].core.cfg == cfg
      && s.sessions[cid].peerId == PeerOfPath(path)
  {
    hide OnDatagram, Render, Wire.Encode, Wire.Decode, ToFrame, Reported, Routed, Mem.Upserted, Ingest, PeerOfPath;
    CidOfFrame(cid, Hello);
    DeliverMsg(EnsureLoaded(Boot(cfg), cid, path, 0).sessions[cid].core, 0, path, Hello);
  }

  lemma ProposalServes(s: ServerState, cid: u64, path: u32, p: TimerProposal)
    requires cid in s.sessions && s.sessions[cid].core.cid == cid && s.sessions[cid].core.state == Established
    requires s.sessions[cid].core.role == Role.Server && ValidateTimerProposal(s.sessions[cid].core.cfg, p).Ok?
    ensures var c := Receives(1, path, Render(cid, Status(0, 0, Propose(1, p))));
      var r := Next(s, c);
      && cid in r.sessions && r.sessions[cid].core.cfg == p.ToConfig()
      && r.sessions[cid].peerId == s.sessions[cid].peerId
      && ServedAfter(s, c, cid, None) == Some(1)
  {
    hide OnDatagram, Render, Wire.Encode, Wire.Decode, ToFrame, Reported, Routed, Mem.Upserted, Ingest;
    hide ValidateTimerProposal, HandleMsrSignal;
    var m := Status(0, 0, Propose(1, p));
    CidOfFrame(cid, m);
    var c := s.sessions[cid].core;
    DeliverMsg(c, 1, path, m);
    var a := Arrive(c, 1, path);
    var h := HandleReneg(a, path, m.reneg);
    SignalKeeps(h.core, 1, path, 0, ControlMsrFrame);
  }

  /** For every valid proposal: the session runs on it, and after a restart in time it runs on
      the old server's interval and window again. */
  lemma NegotiatedTimersAreNotRestored(cfg: Config, cid: u64, path: u32, p: TimerProposal, again: Config, now: u64)
    requires ValidateTimerProposal(cfg, p).Ok? && now < EndOfLife(1, cfg.disconnectWindowMs)
    ensures var s := Play(Boot(cfg), NegotiatedRun(cid, path, p));
      var r := Receive(Started(again, s.store), now, path, Render(cid, Hello));
      && cid in s.sessions && s.sessions[cid].core.cfg == p.ToConfig()
      && Begins(r, cid, Config(cfg.msrIntervalMs, again.missWindowCount, cfg.disconnectWindowMs), PeerOfPath(path), now)
  {
    hide Next, Receive, Render, PeerOfPath, Begins, ServedAfter, Play, Served, ValidateTimerProposal;
    var run := NegotiatedRun(cid, path, p);
    GreetingServes(cfg, cid, path);
    var s1 := Next(Boot(cfg), run[0]);
    ProposalServes(s1, cid, path, p);
    PlayTwo(Boot(cfg), run[0], run[1]);
    ServedTwo(Boot(cfg), run[0], run[1], cid);
    RestartRestoresExactly(cfg, map[], run, cid, again, now, path);
  }

  lemma ServedTwo(s: ServerState, a: Call, b: Call, cid: u64)
    requires ServedAfter(Next(s, a), b, cid, None) == Some(1)
    requires b.Receives? && b.now == 1
    ensures Served(s, [a, b], cid, None) == Some(1)
  {
    hide Next, Receive, IsFor;
    assert [a, b][1..] == [b] && [b][1..] == [];
    var first := ServedAfter(s, a, cid, None);
    assert Served(s, [a, b], cid, None) == Served(Next(s, a), [b], cid, first);
    assert Served(Next(s, a), [b], cid, first) == ServedAfter(Next(s, a), b, cid, first);
  }
}
