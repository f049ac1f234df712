/** The receiving half of a machine, fed arbitrary bytes: how received ids, the reorder
    buffer and the fragment accumulators agree, and in which order messages come out. */
module Receiver {
  import opened ByteOrder
  import opened Protocol
  import opened CoreSpec

  // --------------------------------------------------------------- the invariant

  /** An accumulator still misses a chunk, and holds only chunks below its total. */
  ghost predicate Incomplete(acc: Accumulator) {
    && |acc.chunks| < acc.total
    && forall i :: i in acc.chunks ==> i < acc.total
  }

  /** The received ids are those delivered and those buffered, never both; ids with open
      fragments are neither. */
  ghost predicate Partitioned(c: Core) {
    && (forall id :: id in c.receivedIds <==> 1 <= id <= c.lastOrderedRx || id in c.buffer)
    && (forall id :: id in c.buffer ==> !(1 <= id <= c.lastOrderedRx))
    && (forall id :: id in c.fragments ==> id !in c.receivedIds)
  }

  ghost predicate ReceiverInv(c: Core) {
    && Partitioned(c)
    && c.lastOrderedRx + 1 !in c.buffer
    && forall id :: id in c.fragments ==> Incomplete(c.fragments[id])
  }

  /** Nothing of the receiving half differs. */
  ghost predicate SameReceiver(a: Core, b: Core) {
    a.receivedIds == b.receivedIds && a.buffer == b.buffer && a.fragments == b.fragments
    && a.lastOrderedRx == b.lastOrderedRx
  }

  lemma ReceiverInvTransfers(c: Core, d: Core)
    requires ReceiverInv(c) && SameReceiver(c, d)
    ensures ReceiverInv(d)
  {
  }

  // -------------------------------------------------------------- what comes out

  /** The messages handed to the application, in order. */
  function Received(events: seq<Event>): seq<(u64, Bytes)> {
    if events == [] then []
    else if events[0].MessageReceived? then [(events[0].msgId, events[0].payload)] + Received(events[1..])
    else Received(events[1..])
  }

  lemma {:induction false} ReceivedConcat(a: seq<Event>, b: seq<Event>)
    ensures Received(a + b) == Received(a) + Received(b)
  {
    if a == [] {
      assert a + b == b;
    } else {
      ReceivedConcat(a[1..], b);
      assert (a + b)[1..] == a[1..] + b;
    }
  }

  /** Ids `first, first + 1, ...` in order. */
  ghost predicate Consecutive(ms: seq<(u64, Bytes)>, first: nat) {
    forall i :: 0 <= i < |ms| ==> ms[i].0 == first + i
  }

  lemma ReceivedOne(id: u64, payload: Bytes, rest: seq<Event>)
    ensures Received(DeliveryEvents(id, payload) + rest) == [(id, payload)] + Received(rest)
  {
    var es := DeliveryEvents(id, payload);
    ReceivedConcat(es, rest);
    assert es[1..] == [es[1]] && es[1..][1..] == [];
    assert Received(es[1..]) == [(id, payload)];
  }

  /** Delivering from the buffer keeps the partition, stops at the first gap, hands over
      consecutive ids, each with the payload that was buffered for it, and touches nothing else. */
  lemma {:induction false} FlushKeeps(c: Core)
    requires Partitioned(c)
    ensures var f := FlushOrdered(c).0;
      && Partitioned(f) && f.lastOrderedRx + 1 !in f.buffer
      && f == c.(buffer := f.buffer, lastOrderedRx := f.lastOrderedRx)
      && c.lastOrderedRx <= f.lastOrderedRx
      && forall id :: id in f.buffer ==> id in c.buffer && f.buffer[id] == c.buffer[id]
    ensures var ms := Received(FlushOrdered(c).1);
      && |ms| == FlushOrdered(c).0.lastOrderedRx - c.lastOrderedRx
      && Consecutive(ms, c.lastOrderedRx + 1)
      && forall i :: 0 <= i < |ms| ==> ms[i].0 in c.buffer && c.buffer[ms[i].0] == ms[i].1
    decreases |c.buffer|
  {
    hide FlushOrdered;
    FlushUnfolds(c);
    if c.lastOrderedRx + 1 in c.buffer {
      hide Received;
      var next: u64 := c.lastOrderedRx + 1;
      var d := c.(buffer := c.buffer - {next}, lastOrderedRx := next);
      FlushStepKeeps(c, d);
      FlushKeeps(d);
      ReceivedOne(next, c.buffer[next], FlushOrdered(d).1);
    }
  }

  lemma FlushStepKeeps(c: Core, d: Core)
    requires Partitioned(c) && c.lastOrderedRx + 1 in c.buffer
    requires d == c.(buffer := c.buffer - {c.lastOrderedRx + 1}, lastOrderedRx := c.lastOrderedRx + 1)
    ensures Partitioned(d) && |d.buffer| < |c.buffer|
  {
    var next: u64 := c.lastOrderedRx + 1;
    assert forall id :: id in d.buffer <==> id in c.buffer && id != next;
    assert c.buffer.Keys == d.buffer.Keys + {next};
  }

  lemma AcceptKeeps(c: Core, id: u64, payload: Bytes)
    requires Partitioned(c) && id !in c.receivedIds
    requires forall k :: k in c.fragments && k != id ==> Incomplete(c.fragments[k])
    ensures ReceiverInv(Accept(c, id, payload).core)
  {
    var d := c.(receivedIds := c.receivedIds + {id}, buffer := c.buffer[id := payload],
                fragments := c.fragments - {id});
    assert Partitioned(d);
    FlushKeeps(d);
  }

  // ------------------------------------------------------- fragments and pigeonhole

  /** `n` chunks with indices below `n` are all the chunks 0 .. n-1. */
  lemma {:induction false} Pigeonhole(keys: set<u16>, n: nat)
    requires n <= 0x1_0000
    requires forall i :: i in keys ==> i < n
    ensures |keys| <= n
    ensures |keys| == n ==> forall i: u16 :: i < n ==> i in keys
  {
    if n == 0 {
      assert keys == {};
    } else {
      var last: u16 := n - 1;
      Pigeonhole(keys - {last}, n - 1);
      if last in keys {
        assert |keys| == |keys - {last}| + 1;
      } else {
        assert keys - {last} == keys;
      }
    }
  }

  lemma {:induction false} AllBelow(n: u16, keys: set<u16>)
    requires forall i: u16 :: i < n ==> i in keys
    ensures |keys| >= n
  {
    if n > 0 {
      var last: u16 := n - 1;
      AllBelow(last, keys - {last});
      assert |keys| == |keys - {last}| + 1;
    }
  }

  lemma {:induction false} MergeOfAll(chunks: map<u16, Bytes>, n: u16)
    requires forall i: u16 :: i < n ==> i in chunks
    ensures Merge(chunks, n).Some?
  {
    if n > 0 {
      MergeOfAll(chunks, n - 1);
    }
  }

  /** A full accumulator always merges: the missing-chunk error cannot happen. */
  lemma FullAccumulatorMerges(acc: Accumulator)
    requires |acc.chunks| == acc.total
    requires forall i :: i in acc.chunks ==> i < acc.total
    ensures Merge(acc.chunks, acc.total).Some?
  {
    assert |acc.chunks.Keys| == |acc.chunks|;
    Pigeonhole(acc.chunks.Keys, acc.total);
    MergeOfAll(acc.chunks, acc.total);
  }

  lemma AddChunkBounds(c: Core, id: u64, index: u16, total: u16, chunk: Bytes)
    requires ReceiverInv(c) && index < total
    ensures var acc := AddChunk(c, id, index, total, chunk);
      && acc.total > 0 && |acc.chunks| <= acc.total
      && (forall i :: i in acc.chunks ==> i < acc.total)
      && (acc.total != total ==> id in c.fragments && acc == c.fragments[id])
      && acc.total == (if id in c.fragments then c.fragments[id].total else total)
  {
    var acc := AddChunk(c, id, index, total, chunk);
    assert |acc.chunks.Keys| == |acc.chunks|;
    Pigeonhole(acc.chunks.Keys, acc.total);
  }

  /** A fragment keeps the invariant, and fails only for a zero or exceeded total, or a total
      that differs from the one first seen for its id. */
  lemma AddFragmentKeeps(c: Core, id: u64, index: u16, total: u16, chunk: Bytes)
    requires ReceiverInv(c)
    ensures ReceiverInv(AddFragment(c, id, index, total, chunk).core)
    ensures AddFragment(c, id, index, total, chunk).out.Err? <==>
      id !in c.receivedIds && (index >= total || (id in c.fragments && c.fragments[id].total != total))
  {
    hide AddChunk, Accept, Merge;
    if id !in c.receivedIds && index < total {
      var acc := AddChunk(c, id, index, total, chunk);
      var held := c.(fragments := c.fragments[id := acc]);
      AddChunkBounds(c, id, index, total, chunk);
      if acc.total != total {
        assert held.fragments == c.fragments;
      } else if |acc.chunks| == acc.total {
        FullAccumulatorMerges(acc);
        AcceptKeeps(held, id, Merge(acc.chunks, acc.total).value);
      }
    }
  }

  /** The part is held under this id. */
  predicate HasPart(c: Core, id: u64, index: u16, chunk: Bytes) {
    id in c.fragments && index in c.fragments[id].chunks && c.fragments[id].chunks[index] == chunk
  }

  /** Whatever a fragment brings, a part once held is not replaced while its message is being
      assembled, and what is held beside that is the part it brings. */
  lemma FirstPartStays(c: Core, id: u64, index: u16, total: u16, chunk: Bytes, other: u64, at: u16, held: Bytes)
    requires ReceiverInv(c)
    ensures var d := AddFragment(c, id, index, total, chunk).core;
      && (HasPart(c, other, at, held) && other in d.fragments ==> HasPart(d, other, at, held))
      && (HasPart(d, other, at, held) ==>
            HasPart(c, other, at, held) || (other == id && at == index && held == chunk))
  {
    hide Merge, Accept;
    if id !in c.receivedIds && index < total {
      var acc := AddChunk(c, id, index, total, chunk);
      var d := c.(fragments := c.fragments[id := acc]);
      if acc.total == total && |acc.chunks| == acc.total && Merge(acc.chunks, acc.total).Some? {
        AcceptDropsParts(d, id, Merge(acc.chunks, acc.total).value);
      }
    }
  }

  lemma AcceptDropsParts(c: Core, id: u64, payload: Bytes)
    ensures Accept(c, id, payload).core.fragments == c.fragments - {id}
  {
    hide FlushOrdered;
    FlushKeepsParts(c.(receivedIds := c.receivedIds + {id}, buffer := c.buffer[id := payload],
                       fragments := c.fragments - {id}));
  }

  lemma {:induction false} FlushKeepsParts(c: Core)
    ensures FlushOrdered(c).0.fragments == c.fragments
    decreases |c.buffer|
  {
    hide FlushOrdered;
    FlushUnfolds(c);
    if c.lastOrderedRx + 1 in c.buffer {
      var next: u64 := c.lastOrderedRx + 1;
      assert |(c.buffer - {next}).Keys| < |c.buffer.Keys|;
      FlushKeepsParts(c.(buffer := c.buffer - {next}, lastOrderedRx := next));
    }
  }

  lemma HandleDataKeeps(c: Core, payload: Bytes)
    requires ReceiverInv(c)
    ensures ReceiverInv(HandleData(c, payload).core)
  {
    if |payload| >= 8 && U64Value(payload[..8]) !in c.receivedIds {
      AcceptKeeps(c, U64Value(payload[..8]), payload[8..]);
    }
  }
}
