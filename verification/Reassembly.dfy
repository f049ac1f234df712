/** Fragment and reassemble: the fragments of a message, in any order and with any
    repetition, between payloads of other messages, rebuild exactly that message, once, at
    the moment the last distinct fragment arrives. */
module Reassembly {
  import opened ByteOrder
  import opened Wrappers
  import opened Protocol
  import opened CoreSpec
  import opened Receiver
  import opened MachineRuns
  import opened OrderedDelivery

  /** The payload of the fragment frame that carries one part of a message. */
  function PartPayload(id: u64, msg: Bytes, index: nat): Bytes
    requires PartCount(msg) <= U16_MAX && index < PartCount(msg)
  {
    Body(PartOf(id, msg, index, 0, 0))
  }

  /** What may arrive while a message is assembled: one of its parts, or any data or
      fragment payload that does not carry its id. */
  datatype Feed = Piece(index: nat) | OtherData(payload: Bytes) | OtherFragment(payload: Bytes)

  predicate ValidFeed(f: Feed, id: u64, msg: Bytes) {
    match f
    case Piece(i) => i < PartCount(msg)
    case OtherData(p) => |p| < 8 || U64Value(p[..8]) != id
    case OtherFragment(p) => |p| < 8 || U64Value(p[..8]) != id
  }

  function FeedStep(c: Core, f: Feed, id: u64, msg: Bytes): Step
    requires PartCount(msg) <= U16_MAX && ValidFeed(f, id, msg)
  {
    match f
    case Piece(i) => HandleFragment(c, PartPayload(id, msg, i))
    case OtherData(p) => HandleData(c, p)
    case OtherFragment(p) => HandleFragment(c, p)
  }

  /** A receiver and the messages it has handed over since the feeding began. */
  datatype Intake = Intake(core: Core, received: seq<(u64, Bytes)>)

  function FeedOne(t: Intake, f: Feed, id: u64, msg: Bytes): Intake
    requires PartCount(msg) <= U16_MAX && ValidFeed(f, id, msg)
  {
    var s := FeedStep(t.core, f, id, msg);
    Intake(s.core, if s.out.Ok? then t.received + Received(s.out.value.events) else t.received)
  }

  ghost predicate AllValid(feeds: seq<Feed>, id: u64, msg: Bytes) {
    forall k :: 0 <= k < |feeds| ==> ValidFeed(feeds[k], id, msg)
  }

  ghost function FeedAll(c: Core, feeds: seq<Feed>, id: u64, msg: Bytes): Intake
    requires PartCount(msg) <= U16_MAX && AllValid(feeds, id, msg)
  {
    if feeds == [] then Intake(c, [])
    else FeedOne(FeedAll(c, feeds[..|feeds| - 1], id, msg), feeds[|feeds| - 1], id, msg)
  }

  /** The parts of the message that have arrived. */
  ghost predicate Arrived(feeds: seq<Feed>, index: nat) {
    exists k :: 0 <= k < |feeds| && feeds[k] == Piece(index)
  }

  ghost predicate Complete(feeds: seq<Feed>, msg: Bytes) {
    forall i :: 0 <= i < PartCount(msg) ==> Arrived(feeds, i)
  }

  // --------------------------------------------------------------------- the invariant

  /** Not all parts are there: exactly those that arrived are held. */
  ghost predicate Assembling(c: Core, feeds: seq<Feed>, id: u64, msg: Bytes) {
    && id !in c.receivedIds
    && (id in c.fragments <==> exists i :: 0 <= i < PartCount(msg) && Arrived(feeds, i))
    && (id in c.fragments ==>
          && c.fragments[id].total == PartCount(msg)
          && forall i: u16 :: i in c.fragments[id].chunks <==> i < PartCount(msg) && Arrived(feeds, i))
    && (id in c.fragments ==> forall i :: i in c.fragments[id].chunks && i < PartCount(msg) ==>
          c.fragments[id].chunks[i] == Chunk(msg, i))
  }

  /** The message is buffered for delivery, or is the one delivered under its id. */
  ghost predicate Rebuilt(t: Intake, base: nat, id: u64, msg: Bytes) {
    && id in t.core.receivedIds
    && (id in t.core.buffer ==> t.core.buffer[id] == msg)
    && (base < id <= t.core.lastOrderedRx ==> id - base - 1 < |t.received| && t.received[id - base - 1] == (id, msg))
  }

  ghost predicate IntakeInv(t: Intake, base: nat) {
    && ReceiverInv(t.core)
    && Consecutive(t.received, base + 1) && |t.received| == t.core.lastOrderedRx - base
  }

  // ------------------------------------------------------------------------ the steps

  lemma PieceIsAddFragment(c: Core, id: u64, msg: Bytes, index: nat)
    requires PartCount(msg) <= U16_MAX && index < PartCount(msg)
    ensures HandleFragment(c, PartPayload(id, msg, index))
         == AddFragment(c, id, index, PartCount(msg), Chunk(msg, index))
  {
    hide AddFragment, Body;
    FieldsOfFrame(0, PartOf(id, msg, index, 0, 0));
  }

  lemma FeedKeepsIntake(t: Intake, f: Feed, base: nat, id: u64, msg: Bytes)
    requires PartCount(msg) <= U16_MAX && ValidFeed(f, id, msg) && IntakeInv(t, base) && base <= t.core.lastOrderedRx
    ensures IntakeInv(FeedOne(t, f, id, msg), base)
    ensures t.core.lastOrderedRx <= FeedOne(t, f, id, msg).core.lastOrderedRx
  {
    hide HandleData, HandleFragment, PartPayload, Received;
    match f
    case OtherData(p) =>
      HandleDataKeeps(t.core, p);
      HandleDataChanges(t.core, p);
    case Piece(i) => HandleFragmentChanges(t.core, PartPayload(id, msg, i));
    case OtherFragment(p) => HandleFragmentChanges(t.core, p);
  }

  /** Taking in another message leaves this one where it is, or hands it over. */
  lemma AcceptOther(c: Core, other: u64, payload: Bytes, id: u64)
    requires Partitioned(c) && other !in c.receivedIds && other != id
    ensures var s := Accept(c, other, payload);
      && s.core.receivedIds == c.receivedIds + {other} && s.core.fragments == c.fragments - {other}
      && (id in s.core.buffer ==> id in c.buffer && s.core.buffer[id] == c.buffer[id])
      && c.lastOrderedRx <= s.core.lastOrderedRx
      && |Received(s.out.value.events)| == s.core.lastOrderedRx - c.lastOrderedRx
      && (c.lastOrderedRx < id <= s.core.lastOrderedRx ==>
            id in c.buffer && Received(s.out.value.events)[id - c.lastOrderedRx - 1] == (id, c.buffer[id]))
  {
    var d := c.(receivedIds := c.receivedIds + {other}, buffer := c.buffer[other := payload],
                fragments := c.fragments - {other});
    assert Partitioned(d);
    FlushKeeps(d);
  }

  /** A step about other ids, as far as this message can tell. */
  ghost predicate Elsewhere(c: Core, s: Step, id: u64) {
    && (id in s.core.receivedIds <==> id in c.receivedIds)
    && (id in s.core.fragments <==> id in c.fragments)
    && (id in c.fragments ==> s.core.fragments[id] == c.fragments[id])
    && (id in s.core.buffer ==> id in c.buffer && s.core.buffer[id] == c.buffer[id])
    && (c.lastOrderedRx < id <= s.core.lastOrderedRx ==>
          id in c.buffer && s.out.Ok? && id - c.lastOrderedRx - 1 < |Received(s.out.value.events)|
          && Received(s.out.value.events)[id - c.lastOrderedRx - 1] == (id, c.buffer[id]))
  }

  lemma OtherDataElsewhere(c: Core, p: Bytes, id: u64)
    requires ReceiverInv(c) && (|p| < 8 || U64Value(p[..8]) != id)
    ensures Elsewhere(c, HandleData(c, p), id)
  {
    hide Accept, Received;
    if |p| >= 8 && U64Value(p[..8]) !in c.receivedIds {
      AcceptOther(c, U64Value(p[..8]), p[8..], id);
    }
  }

  lemma OtherFragmentElsewhere(c: Core, p: Bytes, id: u64)
    requires ReceiverInv(c) && (|p| < 8 || U64Value(p[..8]) != id)
    ensures Elsewhere(c, HandleFragment(c, p), id)
  {
    hide AddFragment, Received;
    if |p| >= FRAGMENT_HEADER_LEN {
      AddFragmentElsewhere(c, U64Value(p[..8]), U16Value(p[8..10]), U16Value(p[10..12]), p[FRAGMENT_HEADER_LEN..], id);
    }
  }

  lemma AddFragmentElsewhere(c: Core, other: u64, index: u16, total: u16, chunk: Bytes, id: u64)
    requires ReceiverInv(c) && other != id
    ensures Elsewhere(c, AddFragment(c, other, index, total, chunk), id)
  {
    hide Accept, AddChunk, Merge, Received;
    if other !in c.receivedIds && index < total {
      var acc := AddChunk(c, other, index, total, chunk);
      var held := c.(fragments := c.fragments[other := acc]);
      if acc.total == total && |acc.chunks| == acc.total && Merge(acc.chunks, acc.total).Some? {
        assert Partitioned(held);
        AcceptOther(held, other, Merge(acc.chunks, acc.total).value, id);
      }
    }
  }

  /** A step elsewhere keeps a rebuilt message rebuilt. */
  lemma RebuiltStays(t: Intake, s: Step, base: nat, id: u64, msg: Bytes)
    requires IntakeInv(t, base) && base <= t.core.lastOrderedRx && Rebuilt(t, base, id, msg) && Elsewhere(t.core, s, id)
    requires s.core.lastOrderedRx >= t.core.lastOrderedRx
    ensures var received := if s.out.Ok? then t.received + Received(s.out.value.events) else t.received;
      Rebuilt(Intake(s.core, received), base, id, msg)
  {
    hide Received, ReceiverInv;
  }

  // ---------------------------------------------------------------- parts arriving

  lemma ArrivedGrows(feeds: seq<Feed>, f: Feed)
    ensures forall i: nat :: Arrived(feeds + [f], i) <==> Arrived(feeds, i) || f == Piece(i)
  {
    var all := feeds + [f];
    assert all[|feeds|] == f;
    forall i: nat
      ensures Arrived(all, i) <==> Arrived(feeds, i) || f == Piece(i)
    {
      if Arrived(feeds, i) {
        var k :| 0 <= k < |feeds| && feeds[k] == Piece(i);
        assert all[k] == Piece(i);
      }
    }
  }

  /** Holding every part is having received every part. */
  lemma FullMeansComplete(acc: Accumulator, feeds: seq<Feed>, msg: Bytes)
    requires acc.total == PartCount(msg)
    requires forall i: u16 :: i in acc.chunks <==> i < PartCount(msg) && Arrived(feeds, i)
    ensures |acc.chunks| == acc.total <==> Complete(feeds, msg)
  {
    assert |acc.chunks.Keys| == |acc.chunks|;
    Pigeonhole(acc.chunks.Keys, acc.total);
    if |acc.chunks| == acc.total {
      forall i | 0 <= i < PartCount(msg)
        ensures Arrived(feeds, i)
      {
        var j: u16 := i;
        assert j in acc.chunks;
      }
    }
    if Complete(feeds, msg) {
      AllBelow(acc.total, acc.chunks.Keys);
    }
  }

  /** Where the message stands after a sequence of arrivals. */
  ghost predicate Stands(t: Intake, base: nat, feeds: seq<Feed>, id: u64, msg: Bytes) {
    if Complete(feeds, msg) then Rebuilt(t, base, id, msg) else Assembling(t.core, feeds, id, msg)
  }

  lemma AssemblingChunk(c: Core, feeds: seq<Feed>, index: u16, id: u64, msg: Bytes)
    requires Assembling(c, feeds, id, msg) && PartCount(msg) <= U16_MAX && index < PartCount(msg)
    requires ReceiverInv(c)
    ensures var acc := AddChunk(c, id, index, PartCount(msg), Chunk(msg, index));
      var more := feeds + [Piece(index)];
      && acc.total == PartCount(msg)
      && (forall i: u16 :: i in acc.chunks <==> i < PartCount(msg) && Arrived(more, i))
      && (forall i :: i in acc.chunks && i < PartCount(msg) ==> acc.chunks[i] == Chunk(msg, i))
  {
    hide Chunk, PartCount, Arrived;
    ArrivedGrows(feeds, Piece(index));
  }

  lemma PieceArrives(t: Intake, feeds: seq<Feed>, index: nat, base: nat, id: u64, msg: Bytes)
    requires IntakeInv(t, base) && base <= t.core.lastOrderedRx && PartCount(msg) <= U16_MAX && index < PartCount(msg)
    requires !Complete(feeds, msg) && Assembling(t.core, feeds, id, msg)
    ensures Stands(FeedOne(t, Piece(index), id, msg), base, feeds + [Piece(index)], id, msg)
  {
    hide Chunk, PartCount, Merge, PartPayload, Accept, HandleFragment, AddChunk, Arrived, ReceiverInv, Received;
    var c := t.core;
    var more := feeds + [Piece(index)];
    PieceIsAddFragment(c, id, msg, index);
    AssemblingChunk(c, feeds, index, id, msg);
    var acc := AddChunk(c, id, index, PartCount(msg), Chunk(msg, index));
    FullMeansComplete(acc, more, msg);
    ArrivedGrows(feeds, Piece(index));
    if |acc.chunks| == acc.total {
      MergeAllParts(acc, msg);
      CompleteRebuilds(t, acc, base, id, msg);
    } else {
      assert Arrived(more, index);
    }
  }

  lemma MergeAllParts(acc: Accumulator, msg: Bytes)
    requires acc.total == PartCount(msg) && |acc.chunks| == acc.total
    requires forall i :: i in acc.chunks ==> i < PartCount(msg) && acc.chunks[i] == Chunk(msg, i)
    ensures Merge(acc.chunks, acc.total) == Some(msg)
  {
    hide Merge, Chunk;
    assert |acc.chunks.Keys| == |acc.chunks|;
    Pigeonhole(acc.chunks.Keys, acc.total);
    MergeOfParts(acc.chunks, msg, acc.total);
    PartsCover(msg);
    assert msg[..|msg|] == msg;
  }

  lemma CompleteRebuilds(t: Intake, acc: Accumulator, base: nat, id: u64, msg: Bytes)
    requires IntakeInv(t, base) && base <= t.core.lastOrderedRx && id !in t.core.receivedIds
    ensures var s := Accept(t.core.(fragments := t.core.fragments[id := acc]), id, msg);
      Rebuilt(Intake(s.core, t.received + Received(s.out.value.events)), base, id, msg)
  {
    hide Received, FlushOrdered;
    var c := t.core.(fragments := t.core.fragments[id := acc]);
    var d := c.(receivedIds := c.receivedIds + {id}, buffer := c.buffer[id := msg], fragments := c.fragments - {id});
    assert Partitioned(d);
    FlushKeeps(d);
  }

  // -------------------------------------------------------------------- the theorem

  lemma FeedStands(t: Intake, feeds: seq<Feed>, f: Feed, base: nat, id: u64, msg: Bytes)
    requires IntakeInv(t, base) && base <= t.core.lastOrderedRx
    requires PartCount(msg) <= U16_MAX && ValidFeed(f, id, msg) && Stands(t, base, feeds, id, msg)
    ensures Stands(FeedOne(t, f, id, msg), base, feeds + [f], id, msg)
  {
    hide Chunk, PartCount, PartPayload, HandleFragment, HandleData, Arrived, Rebuilt, Received, ReceiverInv;
    FeedKeepsIntake(t, f, base, id, msg);
    ArrivedGrows(feeds, f);
    IntakeGivesReceiver(t, base);
    if f.Piece? && !Complete(feeds, msg) {
      PieceArrives(t, feeds, f.index, base, id, msg);
    } else {
      var s := FeedStep(t.core, f, id, msg);
      assert Elsewhere(t.core, s, id) by {
        match f
        case Piece(i) =>
          PieceIsAddFragment(t.core, id, msg, i);
          RebuiltIgnores(t, base, id, msg, i);
        case OtherData(p) => OtherDataElsewhere(t.core, p, id);
        case OtherFragment(p) => OtherFragmentElsewhere(t.core, p, id);
      }
      if Complete(feeds, msg) {
        RebuiltStays(t, s, base, id, msg);
      }
    }
  }

  lemma IntakeGivesReceiver(t: Intake, base: nat)
    requires IntakeInv(t, base)
    ensures ReceiverInv(t.core)
  {
  }

  lemma RebuiltIgnores(t: Intake, base: nat, id: u64, msg: Bytes, index: nat)
    requires Rebuilt(t, base, id, msg) && PartCount(msg) <= U16_MAX && index < PartCount(msg)
    ensures Elsewhere(t.core, AddFragment(t.core, id, index, PartCount(msg), Chunk(msg, index)), id)
  {
  }

  lemma {:induction false} FeedingStands(c: Core, feeds: seq<Feed>, id: u64, msg: Bytes)
    requires ReceiverInv(c) && id !in c.receivedIds && id !in c.fragments
    requires 1 <= PartCount(msg) <= U16_MAX && AllValid(feeds, id, msg)
    ensures var t := FeedAll(c, feeds, id, msg);
      IntakeInv(t, c.lastOrderedRx) && c.lastOrderedRx <= t.core.lastOrderedRx
      && Stands(t, c.lastOrderedRx, feeds, id, msg)
    decreases |feeds|
  {
    hide ReceiverInv, FeedOne, PartCount, Rebuilt, Chunk;
    if feeds == [] {
      assert !Arrived(feeds, 0);
    } else {
      var front, f := feeds[..|feeds| - 1], feeds[|feeds| - 1];
      FeedingStands(c, front, id, msg);
      var t := FeedAll(c, front, id, msg);
      FeedKeepsIntake(t, f, c.lastOrderedRx, id, msg);
      FeedStands(t, front, f, c.lastOrderedRx, id, msg);
      assert front + [f] == feeds;
    }
  }

  /** After any arrivals: the message has been taken in if and only if every one of its parts
      has arrived, and then it is, byte for byte, the message that was fragmented, waiting
      in the buffer or delivered under its id. */
  lemma FragmentsRebuildMessage(c: Core, feeds: seq<Feed>, id: u64, msg: Bytes)
    requires ReceiverInv(c) && id !in c.receivedIds && id !in c.fragments
    requires !IsSmall(msg) && PartCount(msg) <= U16_MAX && AllValid(feeds, id, msg)
    ensures var t := FeedAll(c, feeds, id, msg);
      && (id in t.core.receivedIds <==> Complete(feeds, msg))
      && (id in t.core.buffer ==> t.core.buffer[id] == msg)
      && (forall k :: 0 <= k < |t.received| && t.received[k].0 == id ==> t.received[k].1 == msg)
      && (forall j, k :: 0 <= j < k < |t.received| ==> t.received[j].0 < t.received[k].0)
      && (id in t.core.receivedIds ==>
            id in t.core.buffer || exists k :: 0 <= k < |t.received| && t.received[k] == (id, msg))
  {
    hide FeedAll, Chunk;
    FeedingStands(c, feeds, id, msg);
    var t := FeedAll(c, feeds, id, msg);
    var base := c.lastOrderedRx;
    if id in t.core.receivedIds && id !in t.core.buffer {
      assert t.received[id - base - 1] == (id, msg);
    }
  }
}
