/** What the client runtime guarantees about its timers over whole runs: no entry twice, none
    lost, a disconnect entry for every session, a timeout entry for every proposal. */
module ClientWatchdog {
  import opened ByteOrder
  import opened Wrappers
  import opened Protocol
  import opened CoreSpec
  import opened MachineRuns
  import opened TimerWheel
  import opened CoreTimers
  import opened ClientRuntime
  import opened Delivery
  import Wire

  // ---------------------------------------------------------------------- the wheel

  ghost predicate Schedules(actions: seq<TimerAction>, deadline: nat, id: TimerId) {
    Schedule(id, deadline) in actions
  }

  /** After scheduling, an entry is in the wheel if it was or was asked for; it is there twice
      only if it was. */
  lemma {:induction false} IngestCounts(w: Wheel<TimerId>, actions: seq<TimerAction>, deadline: nat, id: TimerId)
    ensures Count(Ingest(w, actions), deadline, id)
         == if Count(w, deadline, id) == 0 && Schedules(actions, deadline, id) then 1 else Count(w, deadline, id)
  {
    if actions != [] {
      var front := actions[..|actions| - 1];
      var last := actions[|actions| - 1];
      IngestCounts(w, front, deadline, id);
      assert actions == front + [last];
      PushOnceCounts(Ingest(w, front), last.deadlineMs, last.id, deadline, id);
    }
  }

  ghost predicate NoDuplicates(w: Wheel<TimerId>) {
    forall deadline: nat, id :: Count(w, deadline, id) <= 1
  }

  ghost predicate NoneTwice(due: seq<(nat, TimerId)>) {
    forall i, j :: 0 <= i < j < |due| ==> due[i] != due[j]
  }

  lemma FireCounts(c: ClientState, now: nat, e: (nat, TimerId), deadline: nat, id: TimerId)
    requires NoDuplicates(c.timers)
    ensures var f := Fire(c, now, e);
      Count(f.0.timers, deadline, id) ==
        if Schedules(f.1.timers, deadline, id) || ((deadline, id) != e && Count(c.timers, deadline, id) == 1)
        then 1 else 0
  {
    hide OnTimer;
    TimerRules(c.core, now, e.1);
    WithoutCounts(c.timers, e.0, e.1, deadline, id);
    IngestCounts(Without(c.timers, e.0, e.1), OnTimer(c.core, now, e.1).out.value.timers, deadline, id);
    assert Count(c.timers, deadline, id) <= 1;
  }

  lemma FireKeepsNoDuplicates(c: ClientState, now: nat, e: (nat, TimerId))
    requires NoDuplicates(c.timers)
    ensures NoDuplicates(Fire(c, now, e).0.timers)
  {
    forall deadline: nat, id
      ensures Count(Fire(c, now, e).0.timers, deadline, id) <= 1
    {
      FireCounts(c, now, e, deadline, id);
    }
  }

  /** Firing a list of entries: what was not fired stays, what is new was scheduled. */
  lemma {:induction false} FireAllCounts(c: ClientState, now: nat, due: seq<(nat, TimerId)>, deadline: nat, id: TimerId)
    requires NoDuplicates(c.timers)
    ensures var f := FireAll(c, now, due);
      && NoDuplicates(f.0.timers)
      && (Count(c.timers, deadline, id) == 1 && (deadline, id) !in due ==> Count(f.0.timers, deadline, id) == 1)
      && (Count(f.0.timers, deadline, id) == 1 ==>
            (Count(c.timers, deadline, id) == 1 && (deadline, id) !in due) || Schedules(f.1.timers, deadline, id))
    decreases |due|
  {
    hide Fire;
    if due != [] {
      var n := |due| - 1;
      FireAllCounts(c, now, due[..n], deadline, id);
      var front := FireAll(c, now, due[..n]);
      assert due == due[..n] + [due[n]];
      FireCounts(front.0, now, due[n], deadline, id);
      FireKeepsNoDuplicates(front.0, now, due[n]);
    }
  }

  lemma OnceInSequence<T>(s: seq<T>, i: nat, j: nat)
    requires i < j < |s| && s[i] == s[j]
    ensures multiset(s)[s[i]] >= 2
  {
    assert s == s[..j] + s[j..];
    assert s[i] in s[..j] && s[j] in s[j..];
  }

  /** A poll takes each entry once, and finds it in the wheel when its turn comes, whatever the
      entries before it scheduled. */
  lemma EachTakenOnce(c: ClientState, now: nat, limit: nat, k: nat)
    requires NoDuplicates(c.timers) && k < |Due(c.timers, now, limit)|
    ensures NoneTwice(Due(c.timers, now, limit))
    ensures var due := Due(c.timers, now, limit);
      Count(FireAll(c, now, due[..k]).0.timers, due[k].0, due[k].1) == 1
  {
    hide FireAll, Due;
    var due := Due(c.timers, now, limit);
    DueIsEarliest(c.timers, now, limit);
    forall i, j | 0 <= i < j < |due|
      ensures due[i] != due[j]
    {
      assert multiset(due)[(due[i].0, due[i].1)] <= Count(c.timers, due[i].0, due[i].1) <= 1;
      if due[i] == due[j] {
        OnceInSequence(due, i, j);
      }
    }
    assert multiset(due)[(due[k].0, due[k].1)] <= Count(c.timers, due[k].0, due[k].1);
    FireAllCounts(c, now, due[..k], due[k].0, due[k].1);
  }

  // -------------------------------------------------------------- pending proposals

  /** Every pending proposal has a timeout entry at its expiry. */
  ghost predicate PendingTimed(c: ClientState) {
    c.core.pendingLocal.Some? ==> Count(c.timers, c.core.pendingLocal.value.expiresAtMs, RenegotiationTimeout) > 0
  }

  ghost predicate Sound(c: ClientState) {
    NoDuplicates(c.timers) && PendingTimed(c)
  }

  /** What the calls other than polls do to a pending proposal. */
  lemma InputAndPending(c: Core, i: Input)
    requires Allowed(c, i) && !i.Timer?
    ensures var s := Apply(c, i);
      && (s.core.pendingLocal.Some? && s.core.pendingLocal != c.pendingLocal ==>
            s.out.Ok? && Schedules(s.out.value.timers, s.core.pendingLocal.value.expiresAtMs, RenegotiationTimeout))
  {
    hide OnDatagram;
    match i
    case Datagram(now, path, bytes) => DatagramTimers(c, now, path, bytes);
    case _ =>
  }

  lemma DriveIsSound(c: ClientState, i: Input)
    requires Sound(c) && Allowed(c.core, i) && !i.Timer?
    ensures Sound(Drive(c, i))
  {
    hide Apply;
    var s := Apply(c.core, i);
    InputAndPending(c.core, i);
    if s.out.Ok? {
      forall deadline: nat, id
        ensures Count(Drive(c, i).timers, deadline, id) <= 1
        ensures Count(Drive(c, i).timers, deadline, id) >= Count(c.timers, deadline, id)
      {
        IngestCounts(c.timers, s.out.value.timers, deadline, id);
      }
      if s.core.pendingLocal.Some? {
        IngestCounts(c.timers, s.out.value.timers, s.core.pendingLocal.value.expiresAtMs, RenegotiationTimeout);
      }
    }
  }

  lemma FireIsSound(c: ClientState, now: nat, e: (nat, TimerId))
    requires Sound(c) && e.0 <= now
    ensures var d := Fire(c, now, e).0;
      && Sound(d)
      && (c.core.pendingLocal == None ==> d.core.pendingLocal == None)
      && (e.1 == RenegotiationTimeout && c.core.pendingLocal.Some? && c.core.pendingLocal.value.expiresAtMs == e.0 ==>
            d.core.pendingLocal == None)
      && (d.core.pendingLocal == None || d.core.pendingLocal == c.core.pendingLocal)
  {
    FireKeepsNoDuplicates(c, now, e);
    PendingUnderTimer(c.core, now, e.1);
    if c.core.pendingLocal.Some? {
      hide OnTimer;
      FireCounts(c, now, e, c.core.pendingLocal.value.expiresAtMs, RenegotiationTimeout);
    }
  }

  lemma PendingUnderTimer(c: Core, now: nat, id: TimerId)
    ensures var d := OnTimer(c, now, id).core.pendingLocal;
      d == if id == RenegotiationTimeout && c.pendingLocal.Some? && now >= c.pendingLocal.value.expiresAtMs then None
           else c.pendingLocal
  {
  }

  lemma {:induction false} FireAllIsSound(c: ClientState, now: nat, due: seq<(nat, TimerId)>)
    requires Sound(c) && forall i :: 0 <= i < |due| ==> due[i].0 <= now
    ensures var d := FireAll(c, now, due).0;
      && Sound(d)
      && (d.core.pendingLocal == None || d.core.pendingLocal == c.core.pendingLocal)
      && (c.core.pendingLocal.Some? && (c.core.pendingLocal.value.expiresAtMs as nat, RenegotiationTimeout) in due ==>
            d.core.pendingLocal == None)
    decreases |due|
  {
    hide Fire, Sound;
    if due != [] {
      var n := |due| - 1;
      FireAllIsSound(c, now, due[..n]);
      assert due == due[..n] + [due[n]];
      FireIsSound(FireAll(c, now, due[..n]).0, now, due[n]);
    }
  }

  /** A poll with room enough at or after its expiry clears a pending proposal. */
  lemma ExpiredProposalGoes(c: ClientState, now: nat, limit: nat)
    requires Sound(c) && c.core.pendingLocal.Some? && now >= c.core.pendingLocal.value.expiresAtMs
    requires limit >= |Entries(c.timers, DueKeys(c.timers, now))|
    ensures Poll(c, now, limit).0.core.pendingLocal == None
  {
    hide FireAll, Entries, Sound;
    DueIsEarliest(c.timers, now, limit);
    assert Count(c.timers, c.core.pendingLocal.value.expiresAtMs, RenegotiationTimeout) > 0 by {
      SoundMeans(c);
    }
    LargePollTakesAll(c.timers, now, limit, c.core.pendingLocal.value.expiresAtMs, RenegotiationTimeout);
    FireAllIsSound(c, now, Due(c.timers, now, limit));
  }

  lemma SoundMeans(c: ClientState)
    requires Sound(c)
    ensures NoDuplicates(c.timers) && PendingTimed(c)
  {
  }

  // -------------------------------------------------------------------- whole runs

  datatype Call = Drives(input: Input) | Polls(now: nat, limit: nat)

  /** A runtime, when its machine last heard a datagram, and the clock. */
  datatype Life = Life(client: ClientState, heard: Option<nat>, clock: nat)

  /** Timers fire through polls only. */
  predicate Proper(l: Life, c: Call) {
    c.Drives? ==> !c.input.Timer? && Allowed(l.client.core, c.input)
  }

  function TimeOf(c: Call, otherwise: nat): nat {
    match c
    case Polls(now, _) => now
    case Drives(Datagram(now, _, _)) => now
    case Drives(ProposeTimers(now, _)) => now
    case Drives(_) => otherwise
  }

  function Advance(l: Life, c: Call): Life {
    if !Proper(l, c) then l
    else
      var client := if c.Polls? then Poll(l.client, c.now, c.limit).0 else Drive(l.client, c.input);
      var hears := c.Drives? && c.input.Datagram? && Hears(l.client.core, c.input.bytes);
      var heard := if hears then Some(c.input.now) else l.heard;
      Life(client, heard, TimeOf(c, l.clock))
  }

  function Live(l: Life, calls: seq<Call>): Life
    decreases |calls|
  {
    if calls == [] then l else Live(Advance(l, calls[0]), calls[1..])
  }

  function Birth(cid: u64, cfg: Config): Life {
    Life(ClientState(Init(Client, cid, cfg), map[]), None, 0)
  }

  lemma AdvanceIsSound(l: Life, c: Call)
    requires Sound(l.client)
    ensures Sound(Advance(l, c).client)
  {
    hide Sound, FireAll, Drive;
    if Proper(l, c) {
      if c.Polls? {
        DueIsEarliest(l.client.timers, c.now, c.limit);
        FireAllIsSound(l.client, c.now, Due(l.client.timers, c.now, c.limit));
      } else {
        DriveIsSound(l.client, c.input);
      }
    }
  }

  /** Whatever arrives and whatever the clock does, no entry is ever in the wheel twice and
      every pending proposal has its timeout entry. */
  lemma {:induction false} EveryLifeIsSound(l: Life, calls: seq<Call>)
    requires Sound(l.client)
    ensures Sound(Live(l, calls).client)
    decreases |calls|
  {
    hide Advance, Sound;
    if calls != [] {
      AdvanceIsSound(l, calls[0]);
      EveryLifeIsSound(Advance(l, calls[0]), calls[1..]);
    }
  }

  // ---------------------------------------------------------------- the watchdog

  /** The clock does not go back and the configuration stays what it was. */
  ghost predicate Steady(l: Life, calls: seq<Call>)
    decreases |calls|
  {
    calls == [] ||
    (var next := Advance(l, calls[0]);
     l.clock <= next.clock && next.client.core.cfg == l.client.core.cfg && Steady(next, calls[1..]))
  }

  ghost predicate HasBy(w: Wheel<TimerId>, id: TimerId, latest: nat) {
    exists deadline: nat :: deadline <= latest && Count(w, deadline, id) > 0
  }

  /** The disconnect deadline is one window after the last datagram heard, and a session has a
      disconnect entry no later than that. */
  ghost predicate Watched(l: Life) {
    var c := l.client.core;
    && c.role == Client
    && c.disconnectDeadlineMs == (if l.heard.None? then None else Some(l.heard.value + c.cfg.disconnectWindowMs))
    && (l.heard.Some? ==> l.heard.value <= l.clock)
    && (InSession(c) ==> l.heard.Some? && HasBy(l.client.timers, Disconnect, l.heard.value + c.cfg.disconnectWindowMs))
  }

  lemma OtherInputs(c: Core, i: Input)
    requires Allowed(c, i) && !i.Timer? && !i.Datagram?
    ensures var s := Apply(c, i);
      && s.core.role == c.role && s.core.disconnectDeadlineMs == c.disconnectDeadlineMs
      && (InSession(s.core) ==> InSession(c))
  {
  }

  lemma IngestKeeps(w: Wheel<TimerId>, actions: seq<TimerAction>, id: TimerId, latest: nat, later: nat)
    requires HasBy(w, id, latest) && latest <= later
    ensures HasBy(Ingest(w, actions), id, later)
  {
    var deadline: nat :| deadline <= latest && Count(w, deadline, id) > 0;
    IngestCounts(w, actions, deadline, id);
  }

  lemma FinishKeeps(w: Wheel<TimerId>, s: Step, id: TimerId, latest: nat, later: nat)
    requires HasBy(w, id, latest) && latest <= later
    ensures HasBy(Finish(w, s).timers, id, later)
  {
    if s.out.Ok? {
      IngestKeeps(w, s.out.value.timers, id, latest, later);
    }
  }

  lemma DatagramKeepsWatch(l: Life, now: nat, path: u32, bytes: Bytes)
    requires Watched(l) && l.clock <= now
    requires var next := Advance(l, Drives(Datagram(now, path, bytes))); next.client.core.cfg == l.client.core.cfg
    ensures Watched(Advance(l, Drives(Datagram(now, path, bytes))))
  {
    hide OnDatagram, Ingest, HasBy;
    var c := l.client.core;
    var s := OnDatagram(c, now, path, bytes);
    DatagramTimers(c, now, path, bytes);
    if Hears(c, bytes) {
      if InSession(c) {
        var window := c.cfg.disconnectWindowMs;
        FinishKeeps(l.client.timers, s, Disconnect, l.heard.value + window, now + window);
      } else if InSession(s.core) {
        StartsWatched(l.client.timers, c, now);
      }
    } else if InSession(c) {
      var latest := l.heard.value + c.cfg.disconnectWindowMs;
      FinishKeeps(l.client.timers, s, Disconnect, latest, latest);
    }
  }

  lemma StartsWatched(w: Wheel<TimerId>, c: Core, now: nat)
    ensures HasBy(Ingest(w, HandshakeTimers(c, now)), Disconnect, now + c.cfg.disconnectWindowMs)
  {
    var latest := now + c.cfg.disconnectWindowMs;
    assert HandshakeTimers(c, now)[1] == Schedule(Disconnect, latest);
    IngestCounts(w, HandshakeTimers(c, now), latest, Disconnect);
  }

  /** A client's timers leave its deadline alone; the disconnect timer ends the session when
      the deadline has come, and asks to be called again at the deadline otherwise. */
  lemma ClientTimer(c: Core, now: nat, id: TimerId)
    requires c.role == Client
    ensures var s := OnTimer(c, now, id);
      && s.core.disconnectDeadlineMs == c.disconnectDeadlineMs
      && (s.core.state == Lost && c.state != Lost ==>
            id == Disconnect && c.disconnectDeadlineMs.Some? && now >= c.disconnectDeadlineMs.value)
      && (id == Disconnect && c.disconnectDeadlineMs.Some? && now >= c.disconnectDeadlineMs.value ==>
            s.core.state == Lost)
      && (id == Disconnect && c.disconnectDeadlineMs.Some? && now < c.disconnectDeadlineMs.value ==>
            s.out.Ok? && Schedules(s.out.value.timers, c.disconnectDeadlineMs.value, Disconnect))
  {
  }

  /** A client with its deadline and, in session, its disconnect entry. */
  ghost predicate Guarded(c: ClientState, latest: Option<nat>) {
    && c.core.role == Client && c.core.disconnectDeadlineMs == latest
    && (InSession(c.core) ==> latest.Some? && HasBy(c.timers, Disconnect, latest.value))
  }

  lemma FireKeepsGuard(c: ClientState, now: nat, e: (nat, TimerId), latest: Option<nat>)
    requires Guarded(c, latest) && NoDuplicates(c.timers)
    ensures var d := Fire(c, now, e).0;
      && Guarded(d, latest) && d.core.cfg == c.core.cfg
      && (c.core.state == Lost ==> d.core.state == Lost)
      && (d.core.state == Lost && c.core.state != Lost ==> latest.Some? && now >= latest.value)
      && (e.1 == Disconnect && latest.Some? && now >= latest.value ==> d.core.state == Lost)
  {
    hide OnTimer;
    ClientTimer(c.core, now, e.1);
    TimerRules(c.core, now, e.1);
    var d := Fire(c, now, e).0;
    if InSession(d.core) {
      var deadline: nat :| deadline <= latest.value && Count(c.timers, deadline, Disconnect) > 0;
      FireCounts(c, now, e, deadline, Disconnect);
      FireCounts(c, now, e, latest.value, Disconnect);
      assert Count(c.timers, deadline, Disconnect) == 1;
    }
  }

  lemma {:induction false} FireAllKeepsGuard(c: ClientState, now: nat, due: seq<(nat, TimerId)>, latest: Option<nat>)
    requires Guarded(c, latest) && NoDuplicates(c.timers)
    ensures var d := FireAll(c, now, due).0;
      && Guarded(d, latest) && d.core.cfg == c.core.cfg && NoDuplicates(d.timers)
      && (c.core.state == Lost ==> d.core.state == Lost)
      && (d.core.state == Lost && c.core.state != Lost ==> latest.Some? && now >= latest.value)
      && ((exists i :: 0 <= i < |due| && due[i].1 == Disconnect) && latest.Some? && now >= latest.value ==>
            d.core.state == Lost)
    decreases |due|
  {
    hide Fire, Guarded, NoDuplicates;
    if due != [] {
      var n := |due| - 1;
      FireAllKeepsGuard(c, now, due[..n], latest);
      var front := FireAll(c, now, due[..n]).0;
      FireKeepsGuard(front, now, due[n], latest);
      FireKeepsNoDuplicates(front, now, due[n]);
      if i :| 0 <= i < |due| && due[i].1 == Disconnect {
        assert i < n ==> due[..n][i].1 == Disconnect;
      }
    }
  }

  lemma AdvanceKeepsWatch(l: Life, c: Call)
    requires Watched(l) && Sound(l.client)
    requires l.clock <= Advance(l, c).clock && Advance(l, c).client.core.cfg == l.client.core.cfg
    ensures Watched(Advance(l, c))
  {
    hide Apply, FireAll, Ingest, HasBy, NoDuplicates, PendingTimed;
    if Proper(l, c) {
      var core := l.client.core;
      var latest := core.disconnectDeadlineMs;
      if c.Polls? {
        FireAllKeepsGuard(l.client, c.now, Due(l.client.timers, c.now, c.limit), latest);
      } else if c.input.Datagram? {
        DatagramKeepsWatch(l, c.input.now, c.input.path, c.input.bytes);
      } else {
        OtherInputs(core, c.input);
        if InSession(core) {
          FinishKeeps(l.client.timers, Apply(core, c.input), Disconnect, latest.value, latest.value);
        }
      }
    }
  }

  lemma {:induction false} SteadyLifeIsWatched(l: Life, calls: seq<Call>)
    requires Watched(l) && Sound(l.client) && Steady(l, calls)
    ensures Watched(Live(l, calls)) && Sound(Live(l, calls).client)
    decreases |calls|
  {
    hide Advance, Watched, Sound;
    if calls != [] {
      AdvanceKeepsWatch(l, calls[0]);
      AdvanceIsSound(l, calls[0]);
      SteadyLifeIsWatched(Advance(l, calls[0]), calls[1..]);
    }
  }

  /** In every run with a fixed configuration and a clock that does not go back, a poll with
      room enough ends a session exactly when no datagram has been heard for a full window. */
  lemma SilenceEndsSession(cid: u64, cfg: Config, calls: seq<Call>, now: nat, limit: nat)
    requires Steady(Birth(cid, cfg), calls)
    requires var l := Live(Birth(cid, cfg), calls);
      && InSession(l.client.core)
      && limit >= |Entries(l.client.timers, DueKeys(l.client.timers, now))|
    ensures var l := Live(Birth(cid, cfg), calls);
      && l.heard.Some?
      && (Poll(l.client, now, limit).0.core.state == Lost <==>
            now >= l.heard.value + l.client.core.cfg.disconnectWindowMs)
  {
    hide Live, FireAll, Entries, Steady;
    var l := Live(Birth(cid, cfg), calls);
    SteadyLifeIsWatched(Birth(cid, cfg), calls);
    var latest := l.heard.value + l.client.core.cfg.disconnectWindowMs;
    var due := Due(l.client.timers, now, limit);
    FireAllKeepsGuard(l.client, now, due, Some(latest));
    if now >= latest {
      var deadline: nat :| deadline <= latest && Count(l.client.timers, deadline, Disconnect) > 0;
      LargePollTakesAll(l.client.timers, now, limit, deadline, Disconnect);
      var i :| 0 <= i < |due| && due[i] == (deadline, Disconnect);
      assert due[i].1 == Disconnect;
    }
  }

  /** Whatever its limit, a poll ends a session only after a full window of silence. */
  lemma TimerLossMeansSilence(cid: u64, cfg: Config, calls: seq<Call>, now: nat, limit: nat)
    requires Steady(Birth(cid, cfg), calls)
    requires var l := Live(Birth(cid, cfg), calls);
      l.client.core.state != Lost && Poll(l.client, now, limit).0.core.state == Lost
    ensures var l := Live(Birth(cid, cfg), calls);
      l.heard.Some? && now >= l.heard.value + l.client.core.cfg.disconnectWindowMs
  {
    hide Live, FireAll, Steady;
    var l := Live(Birth(cid, cfg), calls);
    SteadyLifeIsWatched(Birth(cid, cfg), calls);
    FireAllKeepsGuard(l.client, now, Due(l.client.timers, now, limit), l.client.core.disconnectDeadlineMs);
  }

  // ------------------------------------------------- when the timers change on the way

  ghost predicate TakesDisconnect(due: seq<(nat, TimerId)>) {
    exists i :: 0 <= i < |due| && due[i].1 == Disconnect
  }

  predicate DeadlinePassed(c: Core, now: nat) {
    c.disconnectDeadlineMs.Some? && now >= c.disconnectDeadlineMs.value
  }

  /** Firing entries ends a session exactly when the deadline has passed and a disconnect entry
      is among them. */
  lemma {:induction false} FireAllEnds(c: ClientState, now: nat, due: seq<(nat, TimerId)>)
    requires c.core.role == Client
    ensures var d := FireAll(c, now, due).0.core;
      && d.role == Client && d.disconnectDeadlineMs == c.core.disconnectDeadlineMs
      && (d.state == Lost <==> c.core.state == Lost || (TakesDisconnect(due) && DeadlinePassed(c.core, now)))
    decreases |due|
  {
    hide OnTimer;
    if due != [] {
      var n := |due| - 1;
      FireAllEnds(c, now, due[..n]);
      var front := FireAll(c, now, due[..n]).0.core;
      ClientTimer(front, now, due[n].1);
      TimerRules(front, now, due[n].1);
      assert TakesDisconnect(due) <==> TakesDisconnect(due[..n]) || due[n].1 == Disconnect by {
        if TakesDisconnect(due[..n]) {
          var i :| 0 <= i < n && due[..n][i].1 == Disconnect;
          assert due[i].1 == Disconnect;
        }
        if i :| 0 <= i < |due| && due[i].1 == Disconnect {
          assert i < n ==> due[..n][i].1 == Disconnect;
        }
      }
    }
  }

  /** A large enough poll ends a client's session exactly when its deadline has passed and some
      disconnect entry is due. */
  lemma LargePollEndsExactly(c: ClientState, now: nat, limit: nat)
    requires c.core.role == Client && c.core.state != Lost
    requires limit >= |Entries(c.timers, DueKeys(c.timers, now))|
    ensures Poll(c, now, limit).0.core.state == Lost <==>
      DeadlinePassed(c.core, now) && HasBy(c.timers, Disconnect, now)
  {
    hide FireAll, Entries;
    var due := Due(c.timers, now, limit);
    FireAllEnds(c, now, due);
    if HasBy(c.timers, Disconnect, now) {
      var deadline: nat :| deadline <= now && Count(c.timers, deadline, Disconnect) > 0;
      LargePollTakesAll(c.timers, now, limit, deadline, Disconnect);
      var i :| 0 <= i < |due| && due[i] == (deadline, Disconnect);
      assert due[i].1 == Disconnect;
    }
    if TakesDisconnect(due) {
      var i :| 0 <= i < |due| && due[i].1 == Disconnect;
      TakenIsThere(c.timers, now, limit, i);
      assert Count(c.timers, due[i].0, Disconnect) > 0;
    }
  }

  lemma TakenIsThere(w: Wheel<TimerId>, now: nat, limit: nat, i: nat)
    requires i < |Due(w, now, limit)|
    ensures var e := Due(w, now, limit)[i]; e.0 <= now && Count(w, e.0, e.1) > 0
  {
    hide Due, Count;
    var due := Due(w, now, limit);
    DueIsEarliest(w, now, limit);
    TakenOrBehind(w, now, limit, due[i].0, due[i].1);
    assert due[i] in multiset(due);
  }

  lemma DriveKeepsRole(c: ClientState, i: Input)
    requires c.core.role == Client && Allowed(c.core, i) && !i.Timer?
    ensures Drive(c, i).core.role == Client
  {
    hide OnDatagram, Ingest;
    if i.Datagram? {
      DatagramTimers(c.core, i.now, i.path, i.bytes);
    } else {
      OtherInputs(c.core, i);
    }
  }

  lemma {:induction false} LifeOfAClient(l: Life, calls: seq<Call>)
    requires l.client.core.role == Client
    ensures Live(l, calls).client.core.role == Client
    decreases |calls|
  {
    hide FireAll, Drive;
    if calls != [] {
      if Proper(l, calls[0]) {
        if calls[0].Polls? {
          FireAllEnds(l.client, calls[0].now, Due(l.client.timers, calls[0].now, calls[0].limit));
        } else {
          DriveKeepsRole(l.client, calls[0].input);
        }
      }
      hide Advance;
      LifeOfAClient(Advance(l, calls[0]), calls[1..]);
    }
  }

  /** Over every run, however the timers change and the clock moves: a large enough poll ends
      the session exactly when its deadline has passed and a disconnect entry is due. */
  lemma PollEndsExactlyWhenEntryDue(cid: u64, cfg: Config, calls: seq<Call>, now: nat, limit: nat)
    requires var c := Live(Birth(cid, cfg), calls).client;
      c.core.state != Lost && limit >= |Entries(c.timers, DueKeys(c.timers, now))|
    ensures var c := Live(Birth(cid, cfg), calls).client;
      (Poll(c, now, limit).0.core.state == Lost <==> DeadlinePassed(c.core, now) && HasBy(c.timers, Disconnect, now))
  {
    hide Live, FireAll, Entries, HasBy;
    LifeOfAClient(Birth(cid, cfg), calls);
    LargePollEndsExactly(Live(Birth(cid, cfg), calls).client, now, limit);
  }

  // ------------------------------------------------------- a run with a shorter window

  /** The handshake, a proposal from the server, and a last sign of life, all at once. */
  function ShortenRun(cid: u64, p: TimerProposal): seq<Call> {
    [ Drives(Datagram(0, 1, Render(cid, HelloReply))),
      Drives(Datagram(0, 1, Render(cid, Status(0, 0, Propose(1, p))))),
      Drives(Datagram(0, 1, Render(cid, Status(0, 0, NoReneg)))) ]
  }

  lemma HelloReplyStarts(c: Core, now: nat, path: u32)
    requires c.role == Client && c.state == PreHandshake
    ensures var s := OnDatagram(c, now, path, Render(c.cid, HelloReply));
      && s.core == Arrive(c, now, path).(state := Established, lastServerMsrAtMs := Some(now), clientMsrRx := 0)
      && s.out.Ok? && s.out.value.timers == HandshakeTimers(c, now)
  {
    hide OnDatagram, Render, Wire.Encode, Wire.Decode, ToFrame;
    DeliverMsg(c, now, path, HelloReply);
  }

  /** A status moves the deadline by the window in force when it arrives; a valid proposal in
      it takes effect after that. */
  lemma StatusArrives(c: Core, now: nat, path: u32, r: Reneg)
    requires c.state == Established && !r.Ack?
    requires r.Propose? ==> ValidateTimerProposal(c.cfg, r.proposal).Ok?
    ensures var s := OnDatagram(c, now, path, Render(c.cid, Status(0, 0, r)));
      && s.core.state == Established && s.core.cid == c.cid && s.core.role == c.role
      && s.core.disconnectDeadlineMs == Some(now + c.cfg.disconnectWindowMs)
      && s.core.cfg == (if r.Propose? then r.proposal.ToConfig() else c.cfg)
      && NoTimers(s)
  {
    hide OnDatagram, Render, Wire.Encode, Wire.Decode, ToFrame, HandleMsrSignal, ValidateTimerProposal;
    var m := Status(0, 0, r);
    DeliverMsg(c, now, path, m);
    DatagramTimers(c, now, path, Render(c.cid, m));
    var a := Arrive(c, now, path);
    var h := HandleReneg(a, path, r);
    SignalKeeps(h.core, now, path, 0, ControlMsrFrame);
  }

  lemma DriveIs(l: Life, now: nat, path: u32, bytes: Bytes)
    ensures Advance(l, Drives(Datagram(now, path, bytes))).client
         == Finish(l.client.timers, OnDatagram(l.client.core, now, path, bytes))
  {
  }

  lemma LiveThree(l: Life, a: Call, b: Call, c: Call)
    ensures Live(l, [a, b, c]) == Advance(Advance(Advance(l, a), b), c)
  {
    hide Advance;
    assert [a, b, c][1..] == [b, c] && [b, c][1..] == [c] && [c][1..] == [];
    assert Live(Advance(l, a), [b, c]) == Live(Advance(Advance(l, a), b), [c]);
  }

  /** A window that becomes shorter on the way is missed: for every valid proposal of a shorter
      one, there is a run after which a poll of any size, at the deadline, leaves the session
      up, because its only disconnect entry lies where the longer window ends. */
  lemma ShorterWindowIsMissed(cid: u64, cfg: Config, p: TimerProposal, limit: nat)
    requires ValidateTimerProposal(cfg, p).Ok? && p.disconnectWindowMs < cfg.disconnectWindowMs
    ensures var c := Live(Birth(cid, cfg), ShortenRun(cid, p)).client;
      && c.core.state == Established
      && DeadlinePassed(c.core, p.disconnectWindowMs)
      && !HasBy(c.timers, Disconnect, p.disconnectWindowMs)
      && Poll(c, p.disconnectWindowMs, limit).0.core.state != Lost
  {
    hide OnDatagram, Render, Wire.Encode, Wire.Decode, ToFrame, Advance, Live, Ingest, FireAll, ValidateTimerProposal;
    var run := ShortenRun(cid, p);
    var l0 := Birth(cid, cfg);
    var c0 := l0.client.core;
    LiveThree(l0, run[0], run[1], run[2]);
    var l1 := Advance(l0, run[0]);
    DriveIs(l0, 0, 1, Render(cid, HelloReply));
    HelloReplyStarts(c0, 0, 1);
    var l2 := Advance(l1, run[1]);
    DriveIs(l1, 0, 1, Render(cid, Status(0, 0, Propose(1, p))));
    StatusArrives(l1.client.core, 0, 1, Propose(1, p));
    var l3 := Advance(l2, run[2]);
    DriveIs(l2, 0, 1, Render(cid, Status(0, 0, NoReneg)));
    StatusArrives(l2.client.core, 0, 1, NoReneg);
    var w := Ingest(map[], HandshakeTimers(c0, 0));
    IngestNothing(w);
    assert l3.client.timers == w;
    StartsOnlyThere(c0, p.disconnectWindowMs);
    NotYetDue(l3.client, p.disconnectWindowMs, limit);
  }

  lemma IngestNothing(w: Wheel<TimerId>)
    ensures Ingest(w, []) == w
  {
  }

  lemma StartsOnlyThere(c: Core, latest: nat)
    requires c.role == Client && latest < c.cfg.disconnectWindowMs
    ensures !HasBy(Ingest(map[], HandshakeTimers(c, 0)), Disconnect, latest)
  {
    hide Ingest;
    forall deadline: nat | deadline <= latest
      ensures Count(Ingest(map[], HandshakeTimers(c, 0)), deadline, Disconnect) == 0
    {
      IngestCounts(map[], HandshakeTimers(c, 0), deadline, Disconnect);
    }
  }

  lemma NotYetDue(c: ClientState, now: nat, limit: nat)
    requires c.core.role == Client && c.core.state != Lost && !HasBy(c.timers, Disconnect, now)
    ensures Poll(c, now, limit).0.core.state != Lost
  {
    hide FireAll;
    var due := Due(c.timers, now, limit);
    FireAllEnds(c, now, due);
    if TakesDisconnect(due) {
      var i :| 0 <= i < |due| && due[i].1 == Disconnect;
      TakenIsThere(c.timers, now, limit, i);
    }
  }
}
