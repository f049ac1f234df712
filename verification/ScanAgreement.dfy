/** When the scans of the two stores agree. Their tables differ only in expired entries, and by
    exactly those that a history of calls leaves behind: an entry a failed swap found expired
    stays in the disk store until it is loaded, deleted, written or scanned, and a scan that has
    no room for everything leaves what it did not name. */
module ScanAgreement {
  import opened ByteOrder
  import opened SessionStore
  import opened DiskStore
  import Mem = MemoryStore

  /** What the in-memory store keeps after a call. */
  function MemoryKept(t: Table, c: Call, a: Answer): Table {
    match c.op
    case Load(cid) => Purged(t, cid, c.now)
    case CompareAndSwap(cid, expected, record, ttl) => Mem.Swapped(t, cid, expected, record, ttl, c.now)
    case Upsert(cid, record, ttl) => Mem.Upserted(t, cid, record, ttl, c.now)
    case Delete(cid) => t - {cid}
    case ScanExpired(_) => if a.Scanned? then t - Members(a.cids) else t
  }

  /** The expired ids that only one of the two stores still holds. */
  datatype Leftover = Leftover(onDisk: set<u64>, inMemory: set<u64>)

  const NO_LEFTOVER: Leftover := Leftover({}, {})

  /** The call is a swap that fails on an entry the disk store holds and that has expired. */
  predicate FailsOnExpired(disk: Table, c: Call) {
    && c.op.CompareAndSwap? && c.op.cid in Expired(disk, c.now)
    && Swap(disk, c.op.cid, c.op.expected, c.op.record, c.op.ttlMs, c.now).Err?
  }

  function Named(a: Answer): set<u64> {
    if a.Scanned? then Members(a.cids) else {}
  }

  /** What one call makes of the leftovers, `x` and `y` being the answers of the in-memory and
      of the disk store. A failed swap leaves its expired entry on disk; a scan leaves to each
      store what only the other names; every other call of an id settles it, except a swap that
      fails, which does so in memory only. */
  function LeftAfter(l: Leftover, disk: Table, c: Call, x: Answer, y: Answer): Leftover {
    if c.op.ScanExpired? then
      Leftover(l.onDisk + (Named(x) - l.inMemory) - Named(y), l.inMemory + (Named(y) - l.onDisk) - Named(x))
    else if FailsOnExpired(disk, c) then Leftover(l.onDisk + {c.op.cid}, l.inMemory - {c.op.cid})
    else Leftover(l.onDisk - {c.op.cid}, l.inMemory - {c.op.cid})
  }

  /** The tables are the same but for the leftovers. */
  ghost predicate SameBut(memory: Table, disk: Table, l: Leftover, now: u64) {
    && l.onDisk <= Expired(disk, now) && l.inMemory <= Expired(memory, now)
    && l.onDisk !! memory.Keys && l.inMemory !! disk.Keys
    && memory - l.inMemory == disk - l.onDisk
  }

  lemma SameButLasts(memory: Table, disk: Table, l: Leftover, now: u64, later: u64)
    requires SameBut(memory, disk, l, now) && now <= later
    ensures SameBut(memory, disk, l, later)
  {
  }

  lemma SameButAt(memory: Table, disk: Table, l: Leftover, now: u64, cid: u64)
    requires SameBut(memory, disk, l, now)
    ensures cid in memory && cid !in l.inMemory <==> cid in disk && cid !in l.onDisk
    ensures cid in memory && cid in disk ==> memory[cid] == disk[cid]
    ensures Live(memory, cid, now) == Live(disk, cid, now)
  {
    if cid in memory && cid !in l.inMemory {
      assert cid in memory - l.inMemory;
      assert (memory - l.inMemory)[cid] == memory[cid];
      assert (disk - l.onDisk)[cid] == disk[cid];
    }
    if cid in disk && cid !in l.onDisk {
      assert cid in disk - l.onDisk;
      assert cid in memory - l.inMemory;
    }
  }

  lemma SameButAgrees(memory: Table, disk: Table, l: Leftover, now: u64)
    requires SameBut(memory, disk, l, now)
    ensures AgreeAt(memory, disk, now)
  {
    forall cid: u64
      ensures Live(memory, cid, now) == Live(disk, cid, now)
    {
      SameButAt(memory, disk, l, now, cid);
    }
  }

  /** The same, entry by entry. */
  lemma SameButFrom(memory: Table, disk: Table, l: Leftover, now: u64)
    requires l.onDisk <= Expired(disk, now) && l.inMemory <= Expired(memory, now)
    requires l.onDisk !! memory.Keys && l.inMemory !! disk.Keys
    requires forall cid: u64 :: cid in memory && cid !in l.inMemory <==> cid in disk && cid !in l.onDisk
    requires forall cid: u64 :: cid in memory && cid in disk ==> memory[cid] == disk[cid]
    ensures SameBut(memory, disk, l, now)
  {
    var a, b := memory - l.inMemory, disk - l.onDisk;
    assert forall cid: u64 :: cid in a ==> cid in b && a[cid] == b[cid];
    assert forall cid: u64 :: cid in b ==> cid in a;
  }

  lemma CallKeeps(memory: Table, disk: Table, l: Leftover, c: Call, x: Answer, y: Answer)
    requires SameBut(memory, disk, l, c.now) && !c.op.ScanExpired?
    requires Answers(memory, c, x) && Answers(disk, c, y)
    ensures x == y
    ensures SameBut(MemoryKept(memory, c, x), Kept(disk, c, y), LeftAfter(l, disk, c, x, y), c.now)
  {
    SameButAgrees(memory, disk, l, c.now);
    Same(memory, disk, c);
    var m, d, after := MemoryKept(memory, c, x), Kept(disk, c, y), LeftAfter(l, disk, c, x, y);
    forall cid: u64
      ensures cid in after.onDisk ==> cid in d && d[cid].expiresAtMs <= c.now && cid !in m
      ensures cid in after.inMemory ==> cid in m && m[cid].expiresAtMs <= c.now && cid !in d
      ensures cid in m && cid !in after.inMemory <==> cid in d && cid !in after.onDisk
      ensures cid in m && cid in d ==> m[cid] == d[cid]
    {
      SameButAt(memory, disk, l, c.now, cid);
      SameButAt(memory, disk, l, c.now, c.op.cid);
    }
    SameButFrom(m, d, after, c.now);
  }

  lemma ScanKeeps(memory: Table, disk: Table, l: Leftover, c: Call, x: Answer, y: Answer)
    requires SameBut(memory, disk, l, c.now) && c.op.ScanExpired?
    requires Answers(memory, c, x) && Answers(disk, c, y)
    ensures SameBut(MemoryKept(memory, c, x), Kept(disk, c, y), LeftAfter(l, disk, c, x, y), c.now)
  {
    var m, d, after := MemoryKept(memory, c, x), Kept(disk, c, y), LeftAfter(l, disk, c, x, y);
    forall cid: u64
      ensures cid in after.onDisk ==> cid in d && d[cid].expiresAtMs <= c.now && cid !in m
      ensures cid in after.inMemory ==> cid in m && m[cid].expiresAtMs <= c.now && cid !in d
      ensures cid in m && cid !in after.inMemory <==> cid in d && cid !in after.onDisk
      ensures cid in m && cid in d ==> m[cid] == d[cid]
    {
      SameButAt(memory, disk, l, c.now, cid);
    }
    SameButFrom(m, d, after, c.now);
  }

  // ------------------------------------------------------------------- over whole runs

  /** Histories of the two stores, both given the same calls. */
  ghost predicate IsPair(g: History, h: History, calls: seq<Call>) {
    && |g.tables| == |h.tables| == |calls| + 1 && |g.answers| == |h.answers| == |calls|
    && g.tables[0] == h.tables[0]
    && forall k :: 0 <= k < |calls| ==> PairStep(g, h, calls, k)
  }

  ghost predicate PairStep(g: History, h: History, calls: seq<Call>, k: nat)
    requires |g.tables| == |h.tables| == |calls| + 1 && |g.answers| == |h.answers| == |calls| && k < |calls|
  {
    && Answers(g.tables[k], calls[k], g.answers[k])
    && g.tables[k + 1] == MemoryKept(g.tables[k], calls[k], g.answers[k])
    && Answers(h.tables[k], calls[k], h.answers[k])
    && h.tables[k + 1] == Kept(h.tables[k], calls[k], h.answers[k])
  }

  /** The leftovers after the first `k` calls. */
  ghost function LeftBy(g: History, h: History, calls: seq<Call>, k: nat): Leftover
    requires IsPair(g, h, calls) && k <= |calls|
  {
    if k == 0 then NO_LEFTOVER
    else LeftAfter(LeftBy(g, h, calls, k - 1), h.tables[k - 1], calls[k - 1], g.answers[k - 1], h.answers[k - 1])
  }

  lemma {:induction false} LeftoversAreTheDifference(g: History, h: History, calls: seq<Call>, k: nat)
    requires IsPair(g, h, calls) && ClockRuns(calls) && k < |calls|
    ensures SameBut(g.tables[k], h.tables[k], LeftBy(g, h, calls, k), calls[k].now)
    decreases k
  {
    if k > 0 {
      hide SameBut, LeftAfter, MemoryKept, Kept, Answers;
      LeftoversAreTheDifference(g, h, calls, k - 1);
      assert PairStep(g, h, calls, k - 1);
      var l := LeftBy(g, h, calls, k - 1);
      var c := calls[k - 1];
      if c.op.ScanExpired? {
        ScanKeeps(g.tables[k - 1], h.tables[k - 1], l, c, g.answers[k - 1], h.answers[k - 1]);
      } else {
        CallKeeps(g.tables[k - 1], h.tables[k - 1], l, c, g.answers[k - 1], h.answers[k - 1]);
      }
      SameButLasts(g.tables[k], h.tables[k], LeftBy(g, h, calls, k), c.now, calls[k].now);
    }
  }

  /** The scan has room for every expired entry of either store. */
  ghost predicate HasRoom(g: History, h: History, calls: seq<Call>, k: nat)
    requires |g.tables| == |h.tables| == |calls| + 1 && k < |calls| && calls[k].op.ScanExpired?
  {
    && calls[k].op.limit >= |Expired(g.tables[k], calls[k].now)|
    && calls[k].op.limit >= |Expired(h.tables[k], calls[k].now)|
  }

  /** While the clock does not go back: every call but a scan is answered alike, and a scan with
      room for all names the same ids in both stores if and only if the calls before it have
      left nothing over. */
  lemma ScansAgreeIffNothingLeft(g: History, h: History, calls: seq<Call>, k: nat)
    requires IsPair(g, h, calls) && ClockRuns(calls) && k < |calls|
    ensures !calls[k].op.ScanExpired? ==> g.answers[k] == h.answers[k]
    ensures calls[k].op.ScanExpired? && HasRoom(g, h, calls, k) ==>
      (Named(g.answers[k]) == Named(h.answers[k]) <==> LeftBy(g, h, calls, k) == NO_LEFTOVER)
  {
    LeftoversAreTheDifference(g, h, calls, k);
    assert PairStep(g, h, calls, k);
    var l := LeftBy(g, h, calls, k);
    var now := calls[k].now;
    var memory, disk := g.tables[k], h.tables[k];
    if !calls[k].op.ScanExpired? {
      CallKeeps(memory, disk, l, calls[k], g.answers[k], h.answers[k]);
    } else {
      var limit := calls[k].op.limit;
      if limit >= |Expired(memory, now)| && limit >= |Expired(disk, now)| {
        ScansAgreeExactly(memory, disk, now, limit, g.answers[k].cids, h.answers[k].cids);
        ExpiredAgreeExactly(memory, disk, l, now);
      }
    }
  }

  lemma ExpiredAgreeExactly(memory: Table, disk: Table, l: Leftover, now: u64)
    requires SameBut(memory, disk, l, now)
    ensures Expired(memory, now) == Expired(disk, now) <==> l == NO_LEFTOVER
  {
    if l == NO_LEFTOVER {
      assert memory - {} == memory && disk - {} == disk;
    }
    if Expired(memory, now) == Expired(disk, now) {
      assert l.onDisk == {} && l.inMemory == {};
    }
  }

  // --------------------------------------------------------- where every scan has room

  /** Every scan so far had room for all. */
  ghost predicate Roomy(g: History, h: History, calls: seq<Call>, k: nat)
    requires IsPair(g, h, calls) && k <= |calls|
  {
    forall i :: 0 <= i < k && calls[i].op.ScanExpired? ==> HasRoom(g, h, calls, i)
  }

  /** The call settles what was left over of the id: it scans, or it is for the id and does
      not fail on the expired entry. */
  predicate Settles(disk: Table, c: Call, cid: u64) {
    c.op.ScanExpired? || (c.op.cid == cid && !FailsOnExpired(disk, c))
  }

  /** Some swap has failed on the expired entry, and no call since has settled it. */
  ghost predicate Unsettled(h: History, calls: seq<Call>, k: nat, cid: u64)
    requires |h.tables| == |calls| + 1 && k <= |calls|
  {
    exists i :: 0 <= i < k && LeftAt(h, calls, i, k, cid)
  }

  ghost predicate LeftAt(h: History, calls: seq<Call>, i: nat, k: nat, cid: u64)
    requires |h.tables| == |calls| + 1 && i < k <= |calls|
  {
    && FailsOnExpired(h.tables[i], calls[i]) && calls[i].op.cid == cid
    && forall j :: i < j < k ==> !Settles(h.tables[j], calls[j], cid)
  }

  lemma UnsettledStep(h: History, calls: seq<Call>, k: nat, cid: u64)
    requires |h.tables| == |calls| + 1 && 0 < k <= |calls|
    ensures Unsettled(h, calls, k, cid) <==>
      || (FailsOnExpired(h.tables[k - 1], calls[k - 1]) && calls[k - 1].op.cid == cid)
      || (Unsettled(h, calls, k - 1, cid) && !Settles(h.tables[k - 1], calls[k - 1], cid))
  {
    hide Swap, Expired;
    if Unsettled(h, calls, k, cid) {
      var i :| 0 <= i < k && LeftAt(h, calls, i, k, cid);
      if i < k - 1 {
        assert LeftAt(h, calls, i, k - 1, cid);
      }
    }
    if FailsOnExpired(h.tables[k - 1], calls[k - 1]) && calls[k - 1].op.cid == cid {
      assert LeftAt(h, calls, k - 1, k, cid);
    } else if Unsettled(h, calls, k - 1, cid) && !Settles(h.tables[k - 1], calls[k - 1], cid) {
      var i :| 0 <= i < k - 1 && LeftAt(h, calls, i, k - 1, cid);
      assert LeftAt(h, calls, i, k, cid);
    }
  }

  /** Where every scan has had room, the memory store holds nothing of its own, and what only
      the disk store holds are the ids whose swap failed on an expired entry and that no call
      has settled since. */
  lemma {:induction false} LeftoversAreUnsettledSwaps(g: History, h: History, calls: seq<Call>, k: nat)
    requires IsPair(g, h, calls) && ClockRuns(calls) && k <= |calls| && Roomy(g, h, calls, k)
    ensures LeftBy(g, h, calls, k).inMemory == {}
    ensures forall cid :: cid in LeftBy(g, h, calls, k).onDisk <==> Unsettled(h, calls, k, cid)
    decreases k
  {
    if k > 0 {
      hide Unsettled, IsPair;
      LeftoversAreUnsettledSwaps(g, h, calls, k - 1);
      OneMoreLeftover(g, h, calls, k);
      forall cid: u64
        ensures cid in LeftBy(g, h, calls, k).onDisk <==> Unsettled(h, calls, k, cid)
      {
        UnsettledStep(h, calls, k, cid);
      }
    }
  }

  lemma OneMoreLeftover(g: History, h: History, calls: seq<Call>, k: nat)
    requires IsPair(g, h, calls) && ClockRuns(calls) && 0 < k <= |calls| && Roomy(g, h, calls, k)
    requires LeftBy(g, h, calls, k - 1).inMemory == {}
    ensures LeftBy(g, h, calls, k).inMemory == {}
    ensures forall cid :: cid in LeftBy(g, h, calls, k).onDisk <==>
      || (FailsOnExpired(h.tables[k - 1], calls[k - 1]) && calls[k - 1].op.cid == cid)
      || (cid in LeftBy(g, h, calls, k - 1).onDisk && !Settles(h.tables[k - 1], calls[k - 1], cid))
  {
    hide Expired, LeftAfter, Answers, MemoryKept, Kept, Swap, SameBut;
    var c := calls[k - 1];
    var memory, disk, l := g.tables[k - 1], h.tables[k - 1], LeftBy(g, h, calls, k - 1);
    LeftoversAreTheDifference(g, h, calls, k - 1);
    assert PairStep(g, h, calls, k - 1);
    if c.op.ScanExpired? {
      assert HasRoom(g, h, calls, k - 1);
    }
    OneCallLeaves(memory, disk, l, c, g.answers[k - 1], h.answers[k - 1]);
  }

  lemma OneCallLeaves(memory: Table, disk: Table, l: Leftover, c: Call, x: Answer, y: Answer)
    requires SameBut(memory, disk, l, c.now) && Answers(memory, c, x) && Answers(disk, c, y) && l.inMemory == {}
    requires c.op.ScanExpired? ==> c.op.limit >= |Expired(memory, c.now)| && c.op.limit >= |Expired(disk, c.now)|
    ensures var after := LeftAfter(l, disk, c, x, y);
      && after.inMemory == {}
      && forall cid :: cid in after.onDisk <==>
           || (FailsOnExpired(disk, c) && c.op.cid == cid) || (cid in l.onDisk && !Settles(disk, c, cid))
  {
    hide SameBut, Swap;
    if c.op.ScanExpired? {
      ScanNamesAll(memory, c.now, c.op.limit, x.cids);
      ScanNamesAll(disk, c.now, c.op.limit, y.cids);
      RoomyScanSettles(memory, disk, l, c.now);
    }
  }

  lemma RoomyScanSettles(memory: Table, disk: Table, l: Leftover, now: u64)
    requires SameBut(memory, disk, l, now)
    ensures l.onDisk + (Expired(memory, now) - l.inMemory) - Expired(disk, now) == {}
    ensures l.inMemory + (Expired(disk, now) - l.onDisk) - Expired(memory, now) == {}
  {
    forall cid: u64 | cid in Expired(memory, now) && cid !in l.inMemory
      ensures cid in Expired(disk, now)
    {
      SameButAt(memory, disk, l, now, cid);
    }
    forall cid: u64 | cid in Expired(disk, now) && cid !in l.onDisk
      ensures cid in Expired(memory, now)
    {
      SameButAt(memory, disk, l, now, cid);
    }
  }

  /** So where every scan has had room, the scans of the two stores agree if and only if no
      swap that failed on an expired entry is still unsettled. */
  lemma RoomyScansAgreeExactly(g: History, h: History, calls: seq<Call>, k: nat)
    requires IsPair(g, h, calls) && ClockRuns(calls) && k < |calls| && Roomy(g, h, calls, k + 1)
    requires calls[k].op.ScanExpired?
    ensures Named(g.answers[k]) == Named(h.answers[k]) <==> forall cid :: !Unsettled(h, calls, k, cid)
  {
    hide Unsettled;
    ScansAgreeIffNothingLeft(g, h, calls, k);
    LeftoversAreUnsettledSwaps(g, h, calls, k);
  }
}
