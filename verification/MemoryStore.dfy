/** The sharded in-memory store of v3-store: entries are spread over shards by session id,
    and every call answers as one flat expiring map would. */
module MemoryStore {
  import opened ByteOrder
  import opened Wrappers
  import opened SessionStore

  const DEFAULT_SHARD_COUNT: nat := 32

  /** Every entry is in the shard its id selects. */
  ghost predicate Placed(shards: seq<Table>) {
    |shards| > 0 && forall i, c :: 0 <= i < |shards| && c in shards[i] ==> c % |shards| == i
  }

  ghost function AllIds(shards: seq<Table>): set<u64> {
    set i, c | 0 <= i < |shards| && c in shards[i] :: c
  }

  /** All shards as one map. */
  ghost function Flat(shards: seq<Table>): Table
    requires Placed(shards)
  {
    map c | c in AllIds(shards) :: shards[c % |shards|][c]
  }

  lemma FlatAt(shards: seq<Table>, cid: u64)
    requires Placed(shards)
    ensures cid in Flat(shards) <==> cid in shards[cid % |shards|]
    ensures cid in Flat(shards) ==> Flat(shards)[cid] == shards[cid % |shards|][cid]
  {
    var i := cid % |shards|;
    if cid in shards[i] {
      assert cid in AllIds(shards);
    }
  }

  /** Changing one shard at one id changes the flat map at that id only. */
  lemma FlatAfter(shards: seq<Table>, cid: u64, shard: Table)
    requires Placed(shards)
    requires shard - {cid} == shards[cid % |shards|] - {cid}
    ensures var after := shards[cid % |shards| := shard];
      && Placed(after)
      && Flat(after) == if cid in shard then Flat(shards)[cid := shard[cid]] else Flat(shards) - {cid}
  {
    var i := cid % |shards|;
    var after := shards[i := shard];
    forall c | c in shard
      ensures c % |shards| == i
    {
      assert c == cid || c in shard - {cid};
    }
    assert Placed(after);
    var expected := if cid in shard then Flat(shards)[cid := shard[cid]] else Flat(shards) - {cid};
    forall c: u64
      ensures c in Flat(after) <==> c in expected
      ensures c in Flat(after) ==> Flat(after)[c] == expected[c]
    {
      FlatAt(shards, c);
      FlatAt(after, c);
      if c != cid {
        assert c in shard <==> c in shard - {cid};
        assert c in shards[i] <==> c in shards[i] - {cid};
      }
    }
  }

  function Swapped(t: Table, cid: u64, expected: Option<u64>, record: SessionRecord, ttlMs: u64, now: u64): Table {
    if Swap(t, cid, expected, record, ttlMs, now).Ok? then t[cid := Stamp(t, cid, record, ttlMs, now)]
    else Purged(t, cid, now)
  }

  function Upserted(t: Table, cid: u64, record: SessionRecord, ttlMs: u64, now: u64): Table {
    t[cid := Stamp(t, cid, record, ttlMs, now)]
  }

  lemma LoadIsNext(t: Table, cid: u64, now: u64)
    ensures Next(t, Call(SessionStore.Load(cid), now), Purged(t, cid, now), Loaded(Live(t, cid, now)))
  {
  }

  lemma SwapIsNext(t: Table, cid: u64, expected: Option<u64>, record: SessionRecord, ttlMs: u64, now: u64)
    ensures Next(t, Call(SessionStore.CompareAndSwap(cid, expected, record, ttlMs), now),
                 Swapped(t, cid, expected, record, ttlMs, now), Written(Swap(t, cid, expected, record, ttlMs, now)))
  {
  }

  lemma UpsertIsNext(t: Table, cid: u64, record: SessionRecord, ttlMs: u64, now: u64)
    ensures Next(t, Call(SessionStore.Upsert(cid, record, ttlMs), now),
                 Upserted(t, cid, record, ttlMs, now), Written(Ok(Stamp(t, cid, record, ttlMs, now))))
  {
  }

  lemma DeleteIsNext(t: Table, cid: u64, now: u64)
    ensures Next(t, Call(SessionStore.Delete(cid), now), t - {cid}, Deleted)
  {
  }

  lemma ScanIsNext(t: Table, now: u64, limit: nat, removed: seq<u64>)
    requires Scans(t, now, limit, removed)
    ensures Next(t, Call(SessionStore.ScanExpired(limit), now), t - Members(removed), Scanned(removed))
  {
  }

  class InMemorySessionStore {
    var shards: seq<Table>

    ghost predicate Valid()
      reads this
    {
      Placed(shards)
    }

    ghost function Contents(): Table
      reads this
      requires Valid()
    {
      Flat(shards)
    }

    constructor (shardCount: nat)
      requires shardCount > 0
      ensures Valid() && Contents() == map[] && |shards| == shardCount
    {
      var empty: seq<Table> := seq(shardCount, _ => map[]);
      shards := empty;
      new;
      assert AllIds(shards) == {};
    }

    /** A store needs at least one shard. */
    static method New(shardCount: nat) returns (r: Result<InMemorySessionStore, StoreError>)
      ensures shardCount == 0 ==> r == Err(InvalidShardCount)
      ensures shardCount > 0 ==> r.Ok? && fresh(r.value) && r.value.Valid() && r.value.Contents() == map[]
    {
      if shardCount == 0 {
        return Err(InvalidShardCount);
      }
      var store := new InMemorySessionStore(shardCount);
      return Ok(store);
    }

    static method WithDefaultShards() returns (store: InMemorySessionStore)
      ensures fresh(store) && store.Valid() && store.Contents() == map[] && |store.shards| == DEFAULT_SHARD_COUNT
    {
      store := new InMemorySessionStore(DEFAULT_SHARD_COUNT);
    }

    function ShardIndex(cid: u64): (i: nat)
      reads this
      requires |shards| > 0
      ensures i < |shards|
    {
      cid % |shards|
    }

    /** Look an entry up in its shard, dropping it there if its time has run out. */
    method EffectiveEntry(cid: u64, now: u64) returns (found: Option<VersionedRecord>)
      requires Valid()
      modifies this
      ensures Valid() && |shards| == old(|shards|)
      ensures found == Live(old(Contents()), cid, now)
      ensures Contents() == Purged(old(Contents()), cid, now)
      ensures Live(Contents(), cid, now) == found
    {
      FlatAt(shards, cid);
      var i := ShardIndex(cid);
      if cid in shards[i] && shards[i][cid].expiresAtMs > now {
        return Some(shards[i][cid]);
      }
      if cid in shards[i] {
        FlatAfter(shards, cid, shards[i] - {cid});
        shards := shards[i := shards[i] - {cid}];
      }
      return None;
    }

    method Insert(cid: u64, entry: VersionedRecord)
      requires Valid()
      modifies this
      ensures Valid() && |shards| == old(|shards|)
      ensures Contents() == old(Contents())[cid := entry]
    {
      var i := ShardIndex(cid);
      var shard: Table := shards[i][cid := entry];
      FlatAfter(shards, cid, shard);
      shards := shards[i := shard];
    }

    method Load(cid: u64, now: u64) returns (found: Option<VersionedRecord>)
      requires Valid()
      modifies this
      ensures Valid()
      ensures found == Live(old(Contents()), cid, now)
      ensures Contents() == Purged(old(Contents()), cid, now)
      ensures Next(old(Contents()), Call(SessionStore.Load(cid), now), Contents(), Loaded(found))
    {
      hide Next, Flat;
      LoadIsNext(Contents(), cid, now);
      found := EffectiveEntry(cid, now);
    }

    method CompareAndSwap(cid: u64, expected: Option<u64>, record: SessionRecord, ttlMs: u64, now: u64)
      returns (r: Result<VersionedRecord, StoreError>)
      requires Valid()
      modifies this
      ensures Valid()
      ensures r == Swap(old(Contents()), cid, expected, record, ttlMs, now)
      ensures Contents() == Swapped(old(Contents()), cid, expected, record, ttlMs, now)
      ensures Next(old(Contents()), Call(SessionStore.CompareAndSwap(cid, expected, record, ttlMs), now),
                   Contents(), Written(r))
    {
      hide Next, Flat, Placed;
      SwapIsNext(Contents(), cid, expected, record, ttlMs, now);
      var current := EffectiveEntry(cid, now);
      var currentVersion := if current.Some? then Some(current.value.version) else None;
      if currentVersion != expected {
        return Err(CasConflict(expected, currentVersion));
      }
      var nextVersion := SatAdd(if currentVersion.Some? then currentVersion.value else 0, 1);
      var entry := VersionedRecord(nextVersion, record, SatAdd(now, ttlMs));
      Insert(cid, entry);
      return Ok(entry);
    }

    method Upsert(cid: u64, record: SessionRecord, ttlMs: u64, now: u64)
      returns (r: Result<VersionedRecord, StoreError>)
      requires Valid()
      modifies this
      ensures Valid()
      ensures r == Ok(Stamp(old(Contents()), cid, record, ttlMs, now))
      ensures Contents() == Upserted(old(Contents()), cid, record, ttlMs, now)
      ensures Next(old(Contents()), Call(SessionStore.Upsert(cid, record, ttlMs), now), Contents(), Written(r))
    {
      hide Next, Flat, Placed;
      UpsertIsNext(Contents(), cid, record, ttlMs, now);
      var current := EffectiveEntry(cid, now);
      var nextVersion := SatAdd(if current.Some? then current.value.version else 0, 1);
      var entry := VersionedRecord(nextVersion, record, SatAdd(now, ttlMs));
      Insert(cid, entry);
      return Ok(entry);
    }

    method Delete(cid: u64)
      requires Valid()
      modifies this
      ensures Valid()
      ensures Contents() == old(Contents()) - {cid}
      ensures forall now: u64 :: Next(old(Contents()), Call(SessionStore.Delete(cid), now), Contents(), Deleted)
    {
      hide Next, Flat;
      forall now: u64 {
        DeleteIsNext(Contents(), cid, now);
      }
      var i := ShardIndex(cid);
      FlatAfter(shards, cid, shards[i] - {cid});
      shards := shards[i := shards[i] - {cid}];
    }

    method ScanExpired(now: u64, limit: nat) returns (removed: seq<u64>)
      requires Valid()
      modifies this
      ensures Valid()
      ensures Scans(old(Contents()), now, limit, removed)
      ensures Contents() == old(Contents()) - Members(removed)
      ensures Next(old(Contents()), Call(SessionStore.ScanExpired(limit), now), Contents(), Scanned(removed))
    {
      hide Next, Flat, Scans, Scanning;
      removed := [];
      ghost var start := shards;
      ScanningStarts(start, now, limit);
      if limit == 0 {
        return;
      }
      var i := 0;
      while i < |shards|
        invariant 0 <= i <= |shards|
        invariant Scanning(start, shards, now, limit, i, removed)
      {
        if |removed| >= limit {
          break;
        }
        var expired := CollectExpired(shards[i], now, limit - |removed|);
        ghost var before, untouched := removed, shards;
        var k := 0;
        MinusNone(shards[i], expired);
        while k < |expired|
          invariant 0 <= k <= |expired|
          invariant removed == before + expired[..k]
          invariant shards == untouched[i := untouched[i] - Members(expired[..k])]
        {
          MinusOneMore(untouched[i], expired, k);
          shards := shards[i := shards[i] - {expired[k]}];
          removed := removed + [expired[k]];
          k := k + 1;
          if |removed| >= limit {
            break;
          }
        }
        assert expired[..k] == expired;
        ScanningOn(start, untouched, now, limit, i, before, expired);
        assert removed == before + expired;
        assert shards == untouched[i := untouched[i] - Members(expired)];
        assert Scanning(start, shards, now, limit, i + 1, removed);
        i := i + 1;
      }
      ScanningEnds(start, shards, now, limit, i, removed);
      ScanIsNext(Flat(start), now, limit, removed);
    }
  }

  /** What holds once the first `i` shards are scanned. */
  ghost predicate Scanning(start: seq<Table>, shards: seq<Table>, now: u64, limit: nat, i: nat, removed: seq<u64>)
    requires i <= |shards|
  {
    && Placed(start) && |shards| == |start|
    && Distinct(removed) && |removed| <= limit
    && (forall c :: c in removed ==> c % |start| < i && c in Expired(start[c % |start|], now))
    && (forall j :: 0 <= j < i ==> shards[j] == start[j] - Members(removed))
    && (forall j :: i <= j < |start| ==> shards[j] == start[j])
    && (|removed| < limit ==> forall j :: 0 <= j < i ==> Expired(start[j], now) <= Members(removed))
  }

  lemma ScanningStarts(start: seq<Table>, now: u64, limit: nat)
    requires Placed(start)
    ensures Scanning(start, start, now, limit, 0, [])
    ensures limit == 0 ==> Scans(Flat(start), now, limit, []) && Flat(start) == Flat(start) - Members([])
    ensures limit == 0 ==> Next(Flat(start), Call(SessionStore.ScanExpired(limit), now), Flat(start), Scanned([]))
  {
    if limit == 0 {
      ScanIsNext(Flat(start), now, limit, []);
    }
  }

  lemma DistinctConcat(a: seq<u64>, b: seq<u64>)
    requires Distinct(a) && Distinct(b) && forall c :: c in a ==> c !in b
    ensures Distinct(a + b)
  {
    var all := a + b;
    forall i, j | 0 <= i < j < |all|
      ensures all[i] != all[j]
    {
      if i < |a| <= j {
        assert all[i] in a && all[j] in b;
      }
    }
  }

  lemma ScanningOn(start: seq<Table>, shards: seq<Table>, now: u64, limit: nat, i: nat, removed: seq<u64>,
                   expired: seq<u64>)
    requires i < |shards| && Scanning(start, shards, now, limit, i, removed) && |removed| < limit
    requires Scans(shards[i], now, limit - |removed|, expired)
    ensures Scanning(start, shards[i := shards[i] - Members(expired)], now, limit, i + 1, removed + expired)
  {
    var all := removed + expired;
    var after := shards[i := shards[i] - Members(expired)];
    assert forall c :: c in expired ==> c in start[i] && c % |start| == i;
    DistinctConcat(removed, expired);
    forall c | c in all
      ensures c % |start| < i + 1 && c in Expired(start[c % |start|], now)
    {
      assert c in removed || c in expired;
    }
    forall j | 0 <= j < i + 1
      ensures after[j] == start[j] - Members(all)
    {
      Restricts(start, j, removed, expired, if j == i then expired else removed, i);
    }
    if |all| < limit {
      forall j | 0 <= j < i + 1
        ensures Expired(start[j], now) <= Members(all)
      {
        assert Members(removed) <= Members(all) && Members(expired) <= Members(all);
        if j < i {
          assert Expired(start[j], now) <= Members(removed);
        } else {
          assert Expired(start[j], now) <= Members(expired);
        }
      }
    }
  }

  /** Of the ids removed so far only those placed in shard `j` matter to it. */
  lemma Restricts(start: seq<Table>, j: nat, removed: seq<u64>, expired: seq<u64>, own: seq<u64>, i: nat)
    requires Placed(start) && j <= i < |start|
    requires forall c :: c in removed ==> c % |start| < i
    requires forall c :: c in expired ==> c % |start| == i
    requires own == if j == i then expired else removed
    ensures start[j] - Members(own) == start[j] - Members(removed + expired)
  {
    forall c | c in start[j]
      ensures c in Members(own) <==> c in Members(removed + expired)
    {
      assert c % |start| == j;
      assert c in removed + expired <==> c in removed || c in expired;
    }
  }

  lemma ScanningEnds(start: seq<Table>, shards: seq<Table>, now: u64, limit: nat, i: nat, removed: seq<u64>)
    requires i <= |shards| && Scanning(start, shards, now, limit, i, removed)
    requires i == |shards| || |removed| >= limit
    ensures Placed(shards)
    ensures Flat(shards) == Flat(start) - Members(removed)
    ensures Scans(Flat(start), now, limit, removed)
  {
    hide Scans;
    forall j, c | 0 <= j < |shards| && c in shards[j]
      ensures c % |shards| == j
    {
      assert c in start[j];
    }
    forall c: u64
      ensures c in Flat(shards) <==> c in Flat(start) && c !in removed
      ensures c in Flat(shards) ==> Flat(shards)[c] == Flat(start)[c]
    {
      hide Flat;
      FlatAt(shards, c);
      FlatAt(start, c);
    }
    AllFound(start, shards, now, limit, i, removed);
  }

  lemma AllFound(start: seq<Table>, shards: seq<Table>, now: u64, limit: nat, i: nat, removed: seq<u64>)
    requires i <= |shards| && Scanning(start, shards, now, limit, i, removed)
    requires i == |shards| || |removed| >= limit
    ensures Scans(Flat(start), now, limit, removed)
  {
    hide Flat;
    forall c | c in removed
      ensures c in Expired(Flat(start), now)
    {
      FlatAt(start, c);
    }
    if |removed| < limit {
      forall c | c in Expired(Flat(start), now)
        ensures c in removed
      {
        FlatAt(start, c);
        assert c in Expired(start[c % |start|], now);
        assert c in Members(removed);
      }
    }
  }
}
