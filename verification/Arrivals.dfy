/** Which arrivals a message needs. In every run a message has been received if and only if the
    datagram that carries it, or every part of it, has arrived while the receiver was
    established; what else the network loses costs no message. A request that never arrives is
    a loss that cannot be made good. */
module Arrivals {
  import opened ByteOrder
  import opened Protocol
  import opened CoreSpec
  import opened Receiver
  import opened MachineRuns
  import opened Delivery
  import opened Network
  import opened OrderedDelivery
  import opened Completeness
  import opened Requests
  import opened Handshake

  ghost predicate WholeArrived(log: seq<Msg>, seen: set<nat>, id: nat) {
    exists k :: 0 <= k < |log| && k in seen && IsWhole(log[k], id)
  }

  ghost predicate PartArrived(log: seq<Msg>, seen: set<nat>, id: nat, index: nat) {
    exists k :: 0 <= k < |log| && k in seen && IsPiece(log[k], id, index)
  }

  /** The datagram that carries the message, or every part of it, has arrived. */
  ghost predicate Arrived(msg: Bytes, id: u64, log: seq<Msg>, seen: set<nat>) {
    if IsSmall(msg) then WholeArrived(log, seen, id)
    else forall i: u16 :: i < PartCount(msg) ==> PartArrived(log, seen, id, i)
  }

  lemma ArrivedGrows(msg: Bytes, id: u64, log: seq<Msg>, more: seq<Msg>, seen: set<nat>, i: nat)
    requires Arrived(msg, id, log, seen)
    ensures Arrived(msg, id, log + more, seen + {i})
  {
    hide PartCount, IsSmall;
    if IsSmall(msg) {
      WholeArrivedGrows(log, more, seen, i, id);
    } else {
      forall j: u16 | j < PartCount(msg)
        ensures PartArrived(log + more, seen + {i}, id, j)
      {
        PartArrivedGrows(log, more, seen, i, id, j);
      }
    }
  }

  lemma WholeArrivedGrows(log: seq<Msg>, more: seq<Msg>, seen: set<nat>, i: nat, id: nat)
    requires WholeArrived(log, seen, id)
    ensures WholeArrived(log + more, seen + {i}, id)
  {
    var k :| 0 <= k < |log| && k in seen && IsWhole(log[k], id);
    assert (log + more)[k] == log[k];
  }

  lemma PartArrivedGrows(log: seq<Msg>, more: seq<Msg>, seen: set<nat>, i: nat, id: nat, index: nat)
    requires PartArrived(log, seen, id, index)
    ensures PartArrived(log + more, seen + {i}, id, index)
  {
    var k :| 0 <= k < |log| && k in seen && IsPiece(log[k], id, index);
    assert (log + more)[k] == log[k];
  }

  // ------------------------------------------------------------ received only if arrived

  /** Whatever the receiver has of a message of `x`, it has heard. */
  ghost predicate FromArrivals(x: Endpoint, c: Core, heard: set<nat>) {
    && (forall id: u64 :: id in c.receivedIds && 1 <= id <= |x.submitted| ==>
          Arrived(x.submitted[id - 1], id, x.log, heard))
    && (forall id: u64, i: u16 :: id in c.fragments && i in c.fragments[id].chunks ==>
          PartArrived(x.log, heard, id, i))
  }

  /** What the message adds to what the receiver has: itself, or a last part with which all
      are there. */
  ghost predicate Brings(c: Core, d: Core, m: Msg, submitted: seq<Bytes>) {
    && (forall id: u64 :: id in d.receivedIds && id !in c.receivedIds && 1 <= id <= |submitted| ==>
          IsWhole(m, id) || LastPart(c, m, id, submitted[id - 1]))
    && (forall id: u64, i: u16 :: id in d.fragments && i in d.fragments[id].chunks ==>
          IsPiece(m, id, i) || (id in c.fragments && i in c.fragments[id].chunks))
  }

  ghost predicate LastPart(c: Core, m: Msg, id: u64, msg: Bytes) {
    && !IsSmall(msg)
    && forall i: u16 :: i < PartCount(msg) ==> IsPiece(m, id, i) || (id in c.fragments && i in c.fragments[id].chunks)
  }

  lemma PartBrings(c: Core, submitted: seq<Bytes>, m: Msg)
    requires Matches(c, submitted) && m.Part? && Honest(submitted, m)
    ensures Brings(c, AddFragment(c, m.msgId, m.index, m.total, m.chunk).core, m, submitted)
  {
    hide Accept, Chunk, PartCount, IsSmall, Merge, Matches, AddChunk;
    var id := m.msgId;
    if id !in c.receivedIds {
      var acc := AddChunk(c, id, m.index, m.total, m.chunk);
      AddChunkAssembles(c, submitted, id, m.index, m.total, m.chunk);
      AddChunkAddsOne(c, id, m.index, m.total, m.chunk);
      if |acc.chunks| == acc.total {
        MergeIsMessage(acc, submitted[id - 1]);
        HeldPartitioned(c, submitted, id, acc);
        AcceptFields(c.(fragments := c.fragments[id := acc]), id, submitted[id - 1]);
        FullHasAll(acc, submitted[id - 1]);
        WasLastPart(c, m, id, submitted[id - 1], acc);
      }
    }
  }

  lemma WasLastPart(c: Core, m: Msg, id: u64, msg: Bytes, acc: Accumulator)
    requires m.Part? && m.msgId == id && !IsSmall(msg)
    requires forall i: u16 :: i < PartCount(msg) ==> i in acc.chunks
    requires forall i: u16 :: i in acc.chunks ==> i == m.index || (id in c.fragments && i in c.fragments[id].chunks)
    ensures LastPart(c, m, id, msg)
  {
    forall i: u16 | i < PartCount(msg)
      ensures IsPiece(m, id, i) || (id in c.fragments && i in c.fragments[id].chunks)
    {
      assert i in acc.chunks;
    }
  }

  lemma AddChunkAddsOne(c: Core, id: u64, index: u16, total: u16, chunk: Bytes)
    ensures forall i: u16 :: i in AddChunk(c, id, index, total, chunk).chunks ==>
      i == index || (id in c.fragments && i in c.fragments[id].chunks)
  {
  }

  lemma FullHasAll(acc: Accumulator, msg: Bytes)
    requires Assembles(acc, msg) && |acc.chunks| == acc.total
    ensures !IsSmall(msg) && forall i: u16 :: i < PartCount(msg) ==> i in acc.chunks
  {
    hide Chunk;
    assert |acc.chunks.Keys| == |acc.chunks|;
    Pigeonhole(acc.chunks.Keys, acc.total);
  }

  lemma HandleBrings(c: Core, submitted: seq<Bytes>, now: nat, path: u32, m: Msg)
    requires Matches(c, submitted) && Honest(submitted, m)
    ensures Brings(c, Handle(c, now, path, m).core, m, submitted)
  {
    hide RangeReplies, AddFragment, Accept, LastPart, Matches, Honest;
    MatchesGivesReceiver(c, submitted);
    if m.Whole? && c.state == Established && m.msgId !in c.receivedIds {
      AcceptFields(c, m.msgId, m.payload);
    } else if m.Part? && c.state == Established {
      PartBrings(c, submitted, m);
    } else {
      HandsNothing(c, now, path, m);
    }
  }

  lemma OnMsgBrings(c: Core, submitted: seq<Bytes>, now: nat, path: u32, m: Msg)
    requires Matches(c, submitted) && Honest(submitted, m)
    ensures Brings(c, OnMsg(c, now, path, m).core, m, submitted)
  {
    hide HandleMsrSignal, Handle, LastPart;
    HandleBrings(c, submitted, now, path, m);
    var a := Handle(c, now, path, m);
    if CarriesSignal(m) {
      SignalKeeps(a.core, now, path, m.nextPending, if m.Status? then ControlMsrFrame else PiggybackTlv);
    }
  }

  /** What one datagram of the log adds has been heard. */
  lemma BroughtHasArrived(x: Endpoint, b: Core, heard: set<nat>, c: Core, d: Core, i: nat)
    requires FromArrivals(x, b, heard) && SameReceiver(b, c) && i < |x.log| && Honest(x.submitted, x.log[i])
    requires Brings(c, d, x.log[i], x.submitted)
    ensures FromArrivals(x, d, heard + {i})
  {
    hide PartCount;
    var after := heard + {i};
    assert x.log + [] == x.log;
    forall id: u64 | id in d.receivedIds && 1 <= id <= |x.submitted|
      ensures Arrived(x.submitted[id - 1], id, x.log, after)
    {
      if id in c.receivedIds {
        ArrivedGrows(x.submitted[id - 1], id, x.log, [], heard, i);
      } else if !IsWhole(x.log[i], id) {
        var msg := x.submitted[id - 1];
        assert LastPart(c, x.log[i], id, msg);
        forall j: u16 | j < PartCount(msg)
          ensures PartArrived(x.log, after, id, j)
        {
          if !IsPiece(x.log[i], id, j) {
            PartArrivedGrows(x.log, [], heard, i, id, j);
          }
        }
      } else {
        assert WholeArrived(x.log, after, id);
      }
    }
    forall id: u64, j: u16 | id in d.fragments && j in d.fragments[id].chunks
      ensures PartArrived(x.log, after, id, j)
    {
      if !IsPiece(x.log[i], id, j) {
        PartArrivedGrows(x.log, [], heard, i, id, j);
      }
    }
  }

  lemma ReceivedWasSubmitted(c: Core, submitted: seq<Bytes>, id: u64)
    requires Matches(c, submitted) && id in c.receivedIds
    ensures 1 <= id <= |submitted|
  {
  }

  lemma PartInLogOnly(log: seq<Msg>, more: seq<Msg>, seen: set<nat>, id: nat, index: nat)
    requires PartArrived(log, seen, id, index)
    ensures PartArrived(log + more, seen, id, index)
  {
    var k :| 0 <= k < |log| && k in seen && IsPiece(log[k], id, index);
    assert (log + more)[k] == log[k];
  }

  lemma GrowsInLogOnly(msg: Bytes, id: u64, log: seq<Msg>, more: seq<Msg>, seen: set<nat>)
    requires Arrived(msg, id, log, seen)
    ensures Arrived(msg, id, log + more, seen)
  {
    hide PartCount, IsSmall;
    if IsSmall(msg) {
      var k :| 0 <= k < |log| && k in seen && IsWhole(log[k], id);
      assert (log + more)[k] == log[k];
    } else {
      forall j: u16 | j < PartCount(msg)
        ensures PartArrived(log + more, seen, id, j)
      {
        PartInLogOnly(log, more, seen, id, j);
      }
    }
  }

  // ------------------------------------------------------------ arrived, hence received

  predicate Taken(c: Core, m: Msg) {
    && (m.Whole? ==> m.msgId in c.receivedIds)
    && (m.Part? ==> Holds(c, m.msgId, m.index))
  }

  /** Whatever has been heard of the log has been taken in. */
  ghost predicate HeardTaken(log: seq<Msg>, c: Core, heard: set<nat>) {
    forall k :: 0 <= k < |log| && k in heard ==> Taken(c, log[k])
  }

  lemma TakenStays(c: Core, d: Core, m: Msg)
    requires Taken(c, m) && Gains(c, d)
    ensures Taken(d, m)
  {
  }

  /** An established machine takes in what a message brings, even where it fails to answer. */
  lemma OnMsgGains(c: Core, submitted: seq<Bytes>, now: nat, path: u32, m: Msg)
    requires Matches(c, submitted) && Honest(submitted, m) && c.state == Established
    ensures var d := OnMsg(c, now, path, m).core; Gains(c, d) && Taken(d, m)
  {
    hide Handle, HandleMsrSignal, Matches, Honest, Holds;
    HandleGains(c, submitted, now, path, m);
    var a := Handle(c, now, path, m);
    if CarriesSignal(m) {
      SignalKeeps(a.core, now, path, m.nextPending, if m.Status? then ControlMsrFrame else PiggybackTlv);
      HoldsTransfers(a.core, Signal(a.core, now, path, m).core);
    }
  }

  /** A machine that is not established takes in nothing. */
  lemma OnMsgIgnores(c: Core, now: nat, path: u32, m: Msg)
    requires c.state != Established
    ensures SameReceiver(c, OnMsg(c, now, path, m).core)
  {
    hide Handle, HandleMsrSignal;
    HandsNothing(c, now, path, m);
    var a := Handle(c, now, path, m);
    if CarriesSignal(m) {
      SignalKeeps(a.core, now, path, m.nextPending, if m.Status? then ControlMsrFrame else PiggybackTlv);
    }
  }

  // ------------------------------------------------------------------ what a side hears

  /** The datagram an action lets an established machine hear. Requests, data and the parts of
      a message that arrive in any other state are ignored. */
  function HeardNow(e: Endpoint, peerLog: seq<Msg>, a: Act): set<nat> {
    if a.Deliver? && Possible(e, peerLog, a) && e.core.state == Established then {a.index} else {}
  }

  function HeardIn(s: System, side: Role, a: Act): set<nat> {
    if side == Client then HeardNow(s.client, s.server.log, a) else HeardNow(s.server, s.client.log, a)
  }

  /** What one side hears in the course of a run. */
  function HeardBy(s: System, acts: seq<(Role, Act)>, side: Role): set<nat>
    decreases |acts|
  {
    if acts == [] then {}
    else
      (if acts[0].0 == side then HeardIn(s, side, acts[0].1) else {})
      + HeardBy(Next(s, acts[0].0, acts[0].1), acts[1..], side)
  }

  /** What `y` has of the messages of `x` is what it has heard. */
  ghost predicate Hears(x: Endpoint, y: Endpoint, heard: set<nat>) {
    FromArrivals(x, y.core, heard) && HeardTaken(x.log, y.core, heard) && SeenInRange(heard, x.log)
  }

  /** The receiving endpoint takes in a datagram. */
  lemma TakerHears(x: Endpoint, y: Endpoint, heard: set<nat>, i: nat, now: nat, path: u32)
    requires Link(x, y) && Hears(x, y, heard) && Possible(y, x.log, Deliver(i, now, path))
    ensures Hears(x, StepEnd(y, x.log, Deliver(i, now, path)), heard + HeardNow(y, x.log, Deliver(i, now, path)))
  {
    hide OnMsg, StepEnd, Matches, Honest, Arrived, PartArrived, Holds, Taken, Gains, Brings;
    DeliverFields(y, x.log, i, now, path);
    var c := Arrive(y.core, now, path);
    ArriveKeepsQueues(y.core, now, path);
    MatchesTransfers(y.core, c, x.submitted);
    var d := OnMsg(c, now, path, x.log[i]).core;
    assert Honest(x.submitted, x.log[i]);
    if y.core.state == Established {
      OnMsgBrings(c, x.submitted, now, path, x.log[i]);
      BroughtHasArrived(x, y.core, heard, c, d, i);
      OnMsgGains(c, x.submitted, now, path, x.log[i]);
      GainsFromArrival(y.core, c, d);
      forall k | 0 <= k < |x.log| && k in heard + {i}
        ensures Taken(d, x.log[k])
      {
        if k != i {
          TakenStays(y.core, d, x.log[k]);
        }
      }
    } else {
      OnMsgIgnores(c, now, path, x.log[i]);
      assert heard + {} == heard;
      HearsTransfers(x, y.core, d, heard);
    }
  }

  lemma HearsTransfers(x: Endpoint, c: Core, d: Core, heard: set<nat>)
    requires SameReceiver(c, d) && FromArrivals(x, c, heard) && HeardTaken(x.log, c, heard)
    ensures FromArrivals(x, d, heard) && HeardTaken(x.log, d, heard)
  {
    hide Arrived, PartArrived, Holds;
    HoldsTransfers(c, d);
  }

  /** The receiving endpoint acts on its own. */
  lemma TakerHearsLocally(x: Endpoint, y: Endpoint, heard: set<nat>, input: Input)
    requires Hears(x, y, heard) && Possible(y, x.log, Local(input))
    ensures Hears(x, StepEnd(y, x.log, Local(input)), heard)
  {
    hide Apply, StepEnd, FromArrivals, HeardTaken;
    LocalFields(y, x.log, input);
    LocalReceivesNothing(y.core, input);
    HearsTransfers(x, y.core, StepEnd(y, x.log, Local(input)).core, heard);
  }

  /** The sending endpoint acts: its log and what it submitted grow. */
  lemma GiverIsHeard(x: Endpoint, y: Endpoint, heard: set<nat>, a: Act)
    requires Link(x, y) && Hears(x, y, heard) && Possible(x, y.log, a)
    ensures Hears(StepEnd(x, y.log, a), y, heard)
  {
    hide StepEnd, Matches, Arrived, PartArrived, Taken;
    EndpointGrows(x, y.log, a);
    var z := StepEnd(x, y.log, a);
    var more := z.log[|x.log|..];
    assert z.log == x.log + more;
    forall id: u64 | id in y.core.receivedIds && 1 <= id <= |z.submitted|
      ensures Arrived(z.submitted[id - 1], id, z.log, heard)
    {
      ReceivedWasSubmitted(y.core, x.submitted, id);
      GrowsInLogOnly(x.submitted[id - 1], id, x.log, more, heard);
    }
    forall id: u64, i: u16 | id in y.core.fragments && i in y.core.fragments[id].chunks
      ensures PartArrived(z.log, heard, id, i)
    {
      PartInLogOnly(x.log, more, heard, id, i);
    }
  }

  ghost predicate BothHear(s: System, client: set<nat>, server: set<nat>) {
    Linked(s) && Hears(s.client, s.server, server) && Hears(s.server, s.client, client)
  }

  lemma ActHears(x: Endpoint, y: Endpoint, a: Act, heard: set<nat>, heardByPeer: set<nat>)
    requires Link(x, y) && Link(y, x) && Hears(y, x, heard) && Hears(x, y, heardByPeer) && Possible(x, y.log, a)
    ensures Hears(y, StepEnd(x, y.log, a), heard + HeardNow(x, y.log, a))
    ensures Hears(StepEnd(x, y.log, a), y, heardByPeer)
  {
    hide StepEnd, Hears, Link;
    GiverIsHeard(x, y, heardByPeer, a);
    match a
    case Deliver(i, now, path) => TakerHears(y, x, heard, i, now, path);
    case Local(input) =>
      assert heard + {} == heard;
      TakerHearsLocally(y, x, heard, input);
  }

  lemma NextHears(s: System, side: Role, a: Act, client: set<nat>, server: set<nat>)
    requires BothHear(s, client, server)
    ensures var more := HeardIn(s, side, a);
      BothHear(Next(s, side, a), if side == Client then client + more else client,
               if side == Server then server + more else server)
  {
    hide StepEnd, Hears, Link, Possible;
    NextLinked(s, side, a);
    if side == Client && Possible(s.client, s.server.log, a) {
      ActHears(s.client, s.server, a, client, server);
    } else if side == Server && Possible(s.server, s.client.log, a) {
      ActHears(s.server, s.client, a, server, client);
    } else {
      assert client + {} == client && server + {} == server;
    }
  }

  lemma {:induction false} PlayHears(s: System, acts: seq<(Role, Act)>, client: set<nat>, server: set<nat>)
    requires BothHear(s, client, server)
    ensures BothHear(Play(s, acts), client + HeardBy(s, acts, Client), server + HeardBy(s, acts, Server))
    decreases |acts|
  {
    hide BothHear, Next, HeardIn;
    if acts == [] {
      assert client + {} == client && server + {} == server;
    } else {
      var (side, a) := acts[0];
      var more := HeardIn(s, side, a);
      NextHears(s, side, a, client, server);
      var client' := if side == Client then client + more else client;
      var server' := if side == Server then server + more else server;
      PlayHears(Next(s, side, a), acts[1..], client', server');
      assert client' + HeardBy(Next(s, side, a), acts[1..], Client) == client + HeardBy(s, acts, Client);
      assert server' + HeardBy(Next(s, side, a), acts[1..], Server) == server + HeardBy(s, acts, Server);
    }
  }

  lemma ArrivedMeansReceived(x: Endpoint, y: Endpoint, heard: set<nat>, id: u64)
    requires Link(x, y) && HeardTaken(x.log, y.core, heard) && 1 <= id <= |x.submitted|
    requires Arrived(x.submitted[id - 1], id, x.log, heard)
    ensures id in y.core.receivedIds
  {
    hide PartCount, Chunk;
    var msg := x.submitted[id - 1];
    if IsSmall(msg) {
      var k :| 0 <= k < |x.log| && k in heard && IsWhole(x.log[k], id);
      assert Taken(y.core, x.log[k]);
    } else if id !in y.core.receivedIds {
      LacksPiece(y.core, x.submitted, id);
      var i: u16 :| i < PartCount(msg) && !Holds(y.core, id, i);
      PieceIsHeld(x.log, y.core, heard, id, i);
    }
  }

  /** A receiver without the message lacks a piece of it: an accumulator still misses one. */
  lemma LacksPiece(c: Core, submitted: seq<Bytes>, id: u64)
    requires Matches(c, submitted) && 1 <= id <= |submitted| && !IsSmall(submitted[id - 1]) && id !in c.receivedIds
    ensures exists i: u16 :: i < PartCount(submitted[id - 1]) && !Holds(c, id, i)
  {
    hide PartCount, Chunk;
    var msg := submitted[id - 1];
    HasParts(msg);
    if id in c.fragments {
      var acc := c.fragments[id];
      assert Incomplete(acc) && Assembles(acc, msg);
      SomeMissing(acc);
      var i: u16 :| i < acc.total && i !in acc.chunks;
      assert !Holds(c, id, i);
    } else {
      var first: u16 := 0;
      assert first < PartCount(msg) && !Holds(c, id, first);
    }
  }

  lemma PieceIsHeld(log: seq<Msg>, c: Core, heard: set<nat>, id: u64, i: u16)
    requires HeardTaken(log, c, heard) && PartArrived(log, heard, id, i)
    ensures Holds(c, id, i)
  {
    var k :| 0 <= k < |log| && k in heard && IsPiece(log[k], id, i);
    assert Taken(c, log[k]);
  }

  lemma HasParts(msg: Bytes)
    requires !IsSmall(msg)
    ensures PartCount(msg) > 0
  {
  }

  // ------------------------------------------------------------------------ the theorems

  /** The message was submitted, and all that carries it is among these arrivals. */
  ghost predicate IdArrived(x: Endpoint, id: u64, arrivals: set<nat>) {
    1 <= id <= |x.submitted| && Arrived(x.submitted[id - 1], id, x.log, arrivals)
  }

  lemma BootHears(cid: u64, clientCfg: Config, serverCfg: Config)
    ensures BothHear(Boot(cid, clientCfg, serverCfg), {}, {})
  {
    BootLinked(cid, clientCfg, serverCfg);
  }

  lemma HeardExactly(x: Endpoint, y: Endpoint, heard: set<nat>, id: u64)
    requires Link(x, y) && Hears(x, y, heard)
    ensures id in y.core.receivedIds <==> IdArrived(x, id, heard)
  {
    hide Arrived, Matches, HeardTaken;
    if id in y.core.receivedIds {
      ReceivedWasSubmitted(y.core, x.submitted, id);
    }
    if IdArrived(x, id, heard) {
      ArrivedMeansReceived(x, y, heard, id);
    }
  }

  /** In every run, whatever the applications, the timers and the network do: a message has been
      received if and only if the datagram that carries it, or each of its parts, has arrived
      while the receiver was established. */
  lemma ReceivedExactlyWhenArrived(cid: u64, clientCfg: Config, serverCfg: Config, acts: seq<(Role, Act)>, id: u64)
    ensures var s0 := Boot(cid, clientCfg, serverCfg);
      var s := Play(s0, acts);
      && (id in s.server.core.receivedIds <==> IdArrived(s.client, id, HeardBy(s0, acts, Server)))
      && (id in s.client.core.receivedIds <==> IdArrived(s.server, id, HeardBy(s0, acts, Client)))
  {
    hide Play, HeardBy, Link, Hears, IdArrived;
    var s0 := Boot(cid, clientCfg, serverCfg);
    BootHears(cid, clientCfg, serverCfg);
    PlayHears(s0, acts, {}, {});
    assert {} + HeardBy(s0, acts, Client) == HeardBy(s0, acts, Client);
    assert {} + HeardBy(s0, acts, Server) == HeardBy(s0, acts, Server);
    var s := Play(s0, acts);
    HeardExactly(s.client, s.server, HeardBy(s0, acts, Server), id);
    HeardExactly(s.server, s.client, HeardBy(s0, acts, Client), id);
  }

  ghost predicate AllArrived(x: Endpoint, arrivals: set<nat>) {
    forall id: u64 :: 1 <= id <= |x.submitted| ==> IdArrived(x, id, arrivals)
  }

  lemma AllReceivedExactly(x: Endpoint, y: Endpoint, heard: set<nat>)
    requires Link(x, y) && forall id: u64 :: id in y.core.receivedIds <==> IdArrived(x, id, heard)
    ensures y.core.lastOrderedRx == |x.submitted| <==> AllArrived(x, heard)
  {
    hide Arrived, Assembles, Incomplete, HonestLog;
    var c := y.core;
    if c.lastOrderedRx < |x.submitted| {
      var next: u64 := c.lastOrderedRx + 1;
      assert next !in c.receivedIds;
      assert !IdArrived(x, next, heard);
    }
    if c.lastOrderedRx == |x.submitted| {
      forall id: u64 | 1 <= id <= |x.submitted|
        ensures IdArrived(x, id, heard)
      {
        assert id in c.receivedIds;
      }
    }
  }

  /** So in every run, everything submitted has been delivered if and only if everything that
      carries it has arrived in session; no other loss matters. */
  lemma DeliveredExactlyWhenAllArrived(cid: u64, clientCfg: Config, serverCfg: Config, acts: seq<(Role, Act)>)
    ensures var s0 := Boot(cid, clientCfg, serverCfg);
      var s := Play(s0, acts);
      && (s.server.core.lastOrderedRx == |s.client.submitted| <==> AllArrived(s.client, HeardBy(s0, acts, Server)))
      && (s.client.core.lastOrderedRx == |s.server.submitted| <==> AllArrived(s.server, HeardBy(s0, acts, Client)))
  {
    hide Play, HeardBy, Link, AllArrived, IdArrived;
    var s0 := Boot(cid, clientCfg, serverCfg);
    BootLinked(cid, clientCfg, serverCfg);
    PlayLinked(s0, acts);
    var s := Play(s0, acts);
    forall id: u64
      ensures id in s.server.core.receivedIds <==> IdArrived(s.client, id, HeardBy(s0, acts, Server))
      ensures id in s.client.core.receivedIds <==> IdArrived(s.server, id, HeardBy(s0, acts, Client))
    {
      ReceivedExactlyWhenArrived(cid, clientCfg, serverCfg, acts, id);
    }
    AllReceivedExactly(s.client, s.server, HeardBy(s0, acts, Server));
    AllReceivedExactly(s.server, s.client, HeardBy(s0, acts, Client));
  }

  // ------------------------------------------------------------ arrivals in smooth runs

  /** What carries a message or a part of one. */
  predicate IsData(m: Msg) {
    m.Whole? || m.Part?
  }

  /** Data that has arrived has been heard. */
  ghost predicate DataHeard(log: seq<Msg>, seen: set<nat>, heard: set<nat>) {
    forall k :: 0 <= k < |log| && k in seen && IsData(log[k]) ==> k in heard
  }

  lemma ArrivedBySubset(msg: Bytes, id: u64, log: seq<Msg>, a: set<nat>, b: set<nat>)
    requires DataHeard(log, a, b) && Arrived(msg, id, log, a)
    ensures Arrived(msg, id, log, b)
  {
    hide PartCount, IsSmall;
    if IsSmall(msg) {
      var k :| 0 <= k < |log| && k in a && IsWhole(log[k], id);
      assert k in b;
    } else {
      forall j: u16 | j < PartCount(msg)
        ensures PartArrived(log, b, id, j)
      {
        assert PartArrived(log, a, id, j);
        var k :| 0 <= k < |log| && k in a && IsPiece(log[k], id, j);
        assert k in b;
      }
    }
  }

  ghost predicate Tracks(s: System, client: set<nat>, server: set<nat>, smooth: bool) {
    && client <= s.client.seen && server <= s.server.seen
    && SeenInRange(s.client.seen, s.server.log) && SeenInRange(s.server.seen, s.client.log)
    && (smooth ==>
          DataHeard(s.server.log, s.client.seen, client) && DataHeard(s.client.log, s.server.seen, server))
  }

  lemma NextTracks(s: System, side: Role, a: Act, client: set<nat>, server: set<nat>, smooth: bool)
    requires Tracks(s, client, server, smooth)
    requires smooth ==> if side == Client then Smooth(s.client, s.server.log, a) else Smooth(s.server, s.client.log, a)
    ensures var more := HeardIn(s, side, a);
      Tracks(Next(s, side, a), if side == Client then client + more else client,
             if side == Server then server + more else server, smooth)
  {
    hide StepEnd, OnMsg, Apply;
    if side == Client && Possible(s.client, s.server.log, a) {
      EndpointGrows(s.client, s.server.log, a);
      SeenAfter(s.client, s.server.log, a);
    } else if side == Server && Possible(s.server, s.client.log, a) {
      EndpointGrows(s.server, s.client.log, a);
      SeenAfter(s.server, s.client.log, a);
    }
  }

  lemma SeenAfter(e: Endpoint, peerLog: seq<Msg>, a: Act)
    requires Possible(e, peerLog, a)
    ensures StepEnd(e, peerLog, a).seen == if a.Deliver? then e.seen + {a.index} else e.seen
  {
    hide OnMsg, Apply, OnDatagram;
  }

  lemma {:induction false} PlayTracks(s: System, acts: seq<(Role, Act)>, client: set<nat>, server: set<nat>,
                                      smooth: bool)
    requires Tracks(s, client, server, smooth) && (smooth ==> SmoothRun(s, acts))
    ensures Tracks(Play(s, acts), client + HeardBy(s, acts, Client), server + HeardBy(s, acts, Server), smooth)
    decreases |acts|
  {
    hide Tracks, Next, HeardIn, Smooth;
    if acts == [] {
      assert client + {} == client && server + {} == server;
    } else {
      var (side, a) := acts[0];
      var more := HeardIn(s, side, a);
      NextTracks(s, side, a, client, server, smooth);
      var client' := if side == Client then client + more else client;
      var server' := if side == Server then server + more else server;
      PlayTracks(Next(s, side, a), acts[1..], client', server', smooth);
      assert client' + HeardBy(Next(s, side, a), acts[1..], Client) == client + HeardBy(s, acts, Client);
      assert server' + HeardBy(Next(s, side, a), acts[1..], Server) == server + HeardBy(s, acts, Server);
    }
  }

  lemma ByArrivalsAlone(x: Endpoint, y: Endpoint, heard: set<nat>, id: u64)
    requires id in y.core.receivedIds <==> IdArrived(x, id, heard)
    requires heard <= y.seen
    ensures id in y.core.receivedIds ==> IdArrived(x, id, y.seen)
    ensures DataHeard(x.log, y.seen, heard) && IdArrived(x, id, y.seen) ==> id in y.core.receivedIds
  {
    hide Arrived;
    if IdArrived(x, id, heard) {
      ArrivedBySubset(x.submitted[id - 1], id, x.log, heard, y.seen);
    }
    if DataHeard(x.log, y.seen, heard) && IdArrived(x, id, y.seen) {
      ArrivedBySubset(x.submitted[id - 1], id, x.log, y.seen, heard);
    }
  }

  /** Over every run nothing is received that has not arrived; in a smooth one, where data
      arrives in session, it is received exactly when it has. */
  lemma ReceivedOnlyIfArrived(cid: u64, clientCfg: Config, serverCfg: Config, acts: seq<(Role, Act)>, id: u64)
    ensures var s0 := Boot(cid, clientCfg, serverCfg);
      var s := Play(s0, acts);
      && (id in s.server.core.receivedIds ==> IdArrived(s.client, id, s.server.seen))
      && (id in s.client.core.receivedIds ==> IdArrived(s.server, id, s.client.seen))
      && (SmoothRun(s0, acts) ==>
            && (id in s.server.core.receivedIds <==> IdArrived(s.client, id, s.server.seen))
            && (id in s.client.core.receivedIds <==> IdArrived(s.server, id, s.client.seen)))
  {
    hide Play, HeardBy, IdArrived, SmoothRun, DataHeard;
    var s0 := Boot(cid, clientCfg, serverCfg);
    var s := Play(s0, acts);
    ReceivedExactlyWhenArrived(cid, clientCfg, serverCfg, acts, id);
    BootTracks(cid, clientCfg, serverCfg);
    PlayTracks(s0, acts, {}, {}, SmoothRun(s0, acts));
    assert {} + HeardBy(s0, acts, Client) == HeardBy(s0, acts, Client);
    assert {} + HeardBy(s0, acts, Server) == HeardBy(s0, acts, Server);
    ByArrivalsAlone(s.client, s.server, HeardBy(s0, acts, Server), id);
    ByArrivalsAlone(s.server, s.client, HeardBy(s0, acts, Client), id);
  }

  lemma BootTracks(cid: u64, clientCfg: Config, serverCfg: Config)
    ensures forall smooth :: Tracks(Boot(cid, clientCfg, serverCfg), {}, {}, smooth)
  {
  }

  // ------------------------------------------------------------------- a dropped request

  /** A request that has not arrived keeps every message it asks for from being received. */
  lemma UnarrivedRequestBlocks(cid: u64, clientCfg: Config, serverCfg: Config, acts: seq<(Role, Act)>, j: nat, id: u64)
    ensures var s := Play(Boot(cid, clientCfg, serverCfg), acts);
      && (j < |s.server.log| && Covers(s.server.log[j], id) && j !in s.client.seen ==> id !in s.server.core.receivedIds)
      && (j < |s.client.log| && Covers(s.client.log[j], id) && j !in s.server.seen ==> id !in s.client.core.receivedIds)
  {
    hide Play;
    LostRequestsAreNeverRepeated(cid, clientCfg, serverCfg, acts, id);
  }

  /** The run: handshake, one message submitted and advertised, the advertisement answered by
      a request. */
  function AskedRun(msg: Bytes): seq<(Role, Act)> {
    HANDSHAKE + [(Client, Local(SendMessage(msg))), (Server, Deliver(2, 0, 1))]
  }

  lemma SendSteps(c: Core, cid: u64, cfg: Config, msg: Bytes)
    requires Ready(c, Client, cid, cfg)
    ensures var s := OnApiSend(c, msg);
      && s.out.Ok? && |s.out.value.sends| == 1 && s.out.value.sends[0].msg == Status(0, 1, NoReneg)
  {
    var q := Enqueue(c, msg);
    assert QueueIs(q, [msg]);
    MaxPendingOf(q, [msg]);
  }

  lemma AdvertSteps(c: Core, cid: u64, cfg: Config, now: nat, path: u32)
    requires Ready(c, Server, cid, cfg)
    ensures var s := OnMsg(c, now, path, Status(0, 1, NoReneg));
      && s.out.Ok? && |s.out.value.sends| == 1 && Covers(s.out.value.sends[0].msg, 1)
  {
    hide MaxKey;
  }

  lemma {:induction false} SystemGrows(s: System, acts: seq<(Role, Act)>)
    ensures s.server.log <= Play(s, acts).server.log
    decreases |acts|
  {
    hide StepEnd, Possible;
    if acts != [] {
      var (side, a) := acts[0];
      if side == Server && Possible(s.server, s.client.log, a) {
        EndpointGrows(s.server, s.client.log, a);
      }
      SystemGrows(Next(s, side, a), acts[1..]);
    }
  }

  /** In the run the request stands second in the server's log and has not arrived yet. */
  lemma AskedRunAsks(cid: u64, cfg: Config, msg: Bytes)
    ensures var s := Play(Boot(cid, cfg, cfg), AskedRun(msg));
      && s.client.submitted == [msg] && |s.server.log| == 2 && Covers(s.server.log[1], 1) && 1 !in s.client.seen
    ensures Sendable(msg) ==> SmoothRun(Boot(cid, cfg, cfg), AskedRun(msg))
  {
    hide OnMsg, OnDatagram, OnApiSend, StepEnd, Ready, Sendable;
    HandshakeConnects(cid, cfg);
    var s3 := Play(Boot(cid, cfg, cfg), HANDSHAKE);
    var more := [(Client, Local(SendMessage(msg))), (Server, Deliver(2, 0, 1))];
    CanSend(s3.client.core, cid, cfg);
    LocalFields(s3.client, s3.server.log, SendMessage(msg));
    SendSteps(s3.client.core, cid, cfg, msg);
    var s4 := Next(s3, Client, Local(SendMessage(msg)));
    assert s4.client.log[2] == Status(0, 1, NoReneg);
    DeliverFields(s4.server, s4.client.log, 2, 0, 1);
    ArriveStaysReady(s4.server.core, Server, cid, cfg);
    AdvertSteps(Arrive(s4.server.core, 0, 1), cid, cfg, 0, 1);
    var s5 := Next(s4, Server, Deliver(2, 0, 1));
    PlaySplits(Boot(cid, cfg, cfg), HANDSHAKE, more);
    assert more[1..][1..] == [] && more[1..][0] == more[1];
    assert Play(s3, more) == Play(s4, more[1..]) == s5;
    if Sendable(msg) {
      IsEstablished(s3.client.core, Client, cid, cfg);
      IsEstablished(s4.server.core, Server, cid, cfg);
      assert Smooth(s3.client, s3.server.log, more[0].1);
      assert Smooth(s4.server, s4.client.log, more[1].1);
      assert SmoothRun(s5, []);
      assert SmoothRun(s4, more[1..]);
      assert SmoothRun(s3, more);
      SmoothSplits(Boot(cid, cfg, cfg), HANDSHAKE, more);
    }
  }

  lemma CanSend(c: Core, cid: u64, cfg: Config)
    requires Ready(c, Client, cid, cfg)
    ensures c.nextOutboundId < U64_MAX
  {
  }

  lemma IsEstablished(c: Core, role: Role, cid: u64, cfg: Config)
    requires Ready(c, role, cid, cfg)
    ensures c.state == Established
  {
  }

  lemma ArriveStaysReady(c: Core, role: Role, cid: u64, cfg: Config)
    requires Ready(c, role, cid, cfg)
    ensures Ready(Arrive(c, 0, 1), role, cid, cfg)
  {
  }

  lemma {:induction false} SmoothSplits(s: System, a: seq<(Role, Act)>, b: seq<(Role, Act)>)
    requires SmoothRun(s, a) && SmoothRun(Play(s, a), b)
    ensures SmoothRun(s, a + b)
    decreases |a|
  {
    hide Next, Smooth;
    if a == [] {
      assert a + b == b;
    } else {
      SmoothSplits(Next(s, a[0].0, a[0].1), a[1..], b);
      assert (a + b)[1..] == a[1..] + b;
    }
  }

  /** A dropped request is fatal: for every message that can be sent, a smooth run leads to a
      request such that in no continuation in which it never arrives, whatever else happens, is
      anything ever delivered. */
  lemma DroppedRequestIsNeverMadeGood(cid: u64, cfg: Config, msg: Bytes, rest: seq<(Role, Act)>)
    requires Sendable(msg)
    ensures SmoothRun(Boot(cid, cfg, cfg), AskedRun(msg))
    ensures var s := Play(Boot(cid, cfg, cfg), AskedRun(msg));
      s.client.submitted == [msg] && |s.server.log| == 2 && Covers(s.server.log[1], 1)
    ensures var s := Play(Boot(cid, cfg, cfg), AskedRun(msg) + rest);
      1 !in s.client.seen ==> 1 !in s.server.core.receivedIds && s.server.core.lastOrderedRx == 0
  {
    hide Play, SmoothRun, Covers, Matches, AskedRun;
    AskedRunAsks(cid, cfg, msg);
    var s := Play(Boot(cid, cfg, cfg), AskedRun(msg));
    PlaySplits(Boot(cid, cfg, cfg), AskedRun(msg), rest);
    SystemGrows(s, rest);
    UnarrivedRequestBlocks(cid, cfg, cfg, AskedRun(msg) + rest, 1, 1);
    BootLinked(cid, cfg, cfg);
    PlayLinked(Boot(cid, cfg, cfg), AskedRun(msg) + rest);
    var end := Play(Boot(cid, cfg, cfg), AskedRun(msg) + rest);
    if 1 !in end.client.seen {
      NotDelivered(end.server.core, end.client.submitted);
    }
  }

  lemma NotDelivered(c: Core, submitted: seq<Bytes>)
    requires Matches(c, submitted) && 1 !in c.receivedIds
    ensures c.lastOrderedRx == 0
  {
    assert c.lastOrderedRx >= 1 ==> 1 in c.receivedIds;
  }
}
