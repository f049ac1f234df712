/** The session store interface of v3-store: what every store answers, whatever it keeps of
    the entries whose time has run out, and what follows from that for its callers. */
module SessionStore {
  import opened ByteOrder
  import opened Wrappers

  datatype SessionRecord = SessionRecord(
    cid: u64,
    peerId: string,
    negotiatedMsrIntervalMs: u64,
    disconnectWindowMs: u64,
    lastOrderedRx: u64,
    lastOrderedTx: u64)

  /** A stored entry; also what load, compare-and-swap and upsert return. */
  datatype VersionedRecord = VersionedRecord(version: u64, record: SessionRecord, expiresAtMs: u64)

  datatype StoreError =
    | CasConflict(expected: Option<u64>, actual: Option<u64>)
    | InvalidShardCount
    | Serialization
    | UnsupportedSchemaVersion(version: u16)
    | CorruptLogEntry
    | ChecksumMismatch

  type Table = map<u64, VersionedRecord>

  /** An entry counts only until its expiry time. */
  function Live(t: Table, cid: u64, now: u64): Option<VersionedRecord> {
    if cid in t && t[cid].expiresAtMs > now then Some(t[cid]) else None
  }

  function LiveVersion(t: Table, cid: u64, now: u64): Option<u64> {
    var e := Live(t, cid, now);
    if e.Some? then Some(e.value.version) else None
  }

  /** The entry a write puts in place of whatever is live. */
  function Stamp(t: Table, cid: u64, record: SessionRecord, ttlMs: u64, now: u64): VersionedRecord {
    var current := LiveVersion(t, cid, now);
    VersionedRecord(SatAdd(if current.Some? then current.value else 0, 1), record, SatAdd(now, ttlMs))
  }

  function Swap(t: Table, cid: u64, expected: Option<u64>, record: SessionRecord, ttlMs: u64, now: u64):
    Result<VersionedRecord, StoreError>
  {
    var actual := LiveVersion(t, cid, now);
    if actual != expected then Err(CasConflict(expected, actual)) else Ok(Stamp(t, cid, record, ttlMs, now))
  }

  /** The table once a lookup of `cid` has dropped its expired entry. */
  function Purged(t: Table, cid: u64, now: u64): Table {
    if cid in t && t[cid].expiresAtMs <= now then t - {cid} else t
  }

  ghost predicate Distinct(cids: seq<u64>) {
    forall i, j :: 0 <= i < j < |cids| ==> cids[i] != cids[j]
  }

  function Members(cids: seq<u64>): set<u64> {
    set c | c in cids
  }

  lemma MinusNone(t: Table, cids: seq<u64>)
    ensures t - Members(cids[..0]) == t
  {
  }

  lemma MinusOneMore(t: Table, cids: seq<u64>, k: nat)
    requires k < |cids|
    ensures t - Members(cids[..k + 1]) == (t - Members(cids[..k])) - {cids[k]}
    ensures cids[..k + 1] == cids[..k] + [cids[k]]
  {
    assert cids[..k + 1] == cids[..k] + [cids[k]];
    assert Members(cids[..k + 1]) == Members(cids[..k]) + {cids[k]};
  }

  function Expired(t: Table, now: u64): set<u64> {
    set c | c in t && t[c].expiresAtMs <= now
  }

  /** A scan names expired entries, each once, as many as there are up to its limit. */
  ghost predicate Scans(t: Table, now: u64, limit: nat, cids: seq<u64>) {
    && Distinct(cids)
    && |cids| <= limit
    && (forall c :: c in cids ==> c in Expired(t, now))
    && (|cids| < limit ==> forall c :: c in Expired(t, now) ==> c in cids)
  }

  /** The expired keys of a table, in whatever order the map yields them, until there is no
      more room. */
  method CollectExpired(t: Table, now: u64, room: nat) returns (cids: seq<u64>)
    requires room > 0
    ensures Scans(t, now, room, cids) && |cids| <= room
  {
    cids := [];
    var left := t.Keys;
    while left != {}
      invariant left <= t.Keys
      invariant |cids| < room && Distinct(cids)
      invariant forall c :: c in cids ==> c in Expired(t, now) && c !in left
      invariant forall c :: c in Expired(t, now) ==> c in left || c in cids
      decreases |left|
    {
      var cid :| cid in left;
      left := left - {cid};
      if t[cid].expiresAtMs <= now {
        cids := cids + [cid];
        if |cids| >= room {
          break;
        }
      }
    }
  }

  // --------------------------------------------------------------- calls and answers

  datatype Op =
    | Load(cid: u64)
    | CompareAndSwap(cid: u64, expected: Option<u64>, record: SessionRecord, ttlMs: u64)
    | Upsert(cid: u64, record: SessionRecord, ttlMs: u64)
    | Delete(cid: u64)
    | ScanExpired(limit: nat)

  datatype Call = Call(op: Op, now: u64)

  datatype Answer =
    | Loaded(found: Option<VersionedRecord>)
    | Written(outcome: Result<VersionedRecord, StoreError>)
    | Deleted
    | Scanned(cids: seq<u64>)

  /** What a call puts into the table, if it writes. */
  function Writes(t: Table, c: Call): Option<(u64, VersionedRecord)> {
    match c.op
    case CompareAndSwap(cid, expected, record, ttl) =>
      var r := Swap(t, cid, expected, record, ttl, c.now);
      if r.Ok? then Some((cid, r.value)) else None
    case Upsert(cid, record, ttl) => Some((cid, Stamp(t, cid, record, ttl, c.now)))
    case _ => None
  }

  ghost predicate Answers(t: Table, c: Call, a: Answer) {
    match c.op
    case Load(cid) => a == Loaded(Live(t, cid, c.now))
    case CompareAndSwap(cid, expected, record, ttl) => a == Written(Swap(t, cid, expected, record, ttl, c.now))
    case Upsert(cid, record, ttl) => a == Written(Ok(Stamp(t, cid, record, ttl, c.now)))
    case Delete(_) => a == Deleted
    case ScanExpired(limit) => a.Scanned? && Scans(t, c.now, limit, a.cids)
  }

  /** The table with the call's own effect; a scan drops what it names. */
  function Effect(t: Table, c: Call, a: Answer): Table {
    var w := Writes(t, c);
    if w.Some? then t[w.value.0 := w.value.1]
    else if c.op.Delete? then t - {c.op.cid}
    else if c.op.ScanExpired? && a.Scanned? then t - Members(a.cids)
    else t
  }

  /** `kept` is `t` less some entries that are expired. */
  ghost predicate Prunes(t: Table, kept: Table, now: u64) {
    && kept.Keys <= t.Keys
    && (forall c :: c in kept ==> kept[c] == t[c])
    && (forall c :: c in t && c !in kept ==> t[c].expiresAtMs <= now)
  }

  /** One call on an expiring map: the answer the live entries determine, the call's effect,
      and perhaps some expired entries gone. */
  ghost predicate Next(t: Table, c: Call, t': Table, a: Answer) {
    Answers(t, c, a) && Prunes(Effect(t, c, a), t', c.now)
  }

  // ------------------------------------------------------- expired entries are invisible

  /** Two tables no caller can tell apart from time `now` on. */
  ghost predicate AgreeAt(a: Table, b: Table, now: u64) {
    forall cid: u64 :: Live(a, cid, now) == Live(b, cid, now)
  }

  lemma AgreementLasts(a: Table, b: Table, now: u64, later: u64)
    requires AgreeAt(a, b, now) && now <= later
    ensures AgreeAt(a, b, later)
  {
    forall cid: u64
      ensures Live(a, cid, later) == Live(b, cid, later)
    {
      assert Live(a, cid, now) == Live(b, cid, now);
    }
  }

  lemma EffectAgrees(a: Table, b: Table, c: Call, x: Answer, y: Answer)
    requires AgreeAt(a, b, c.now) && Answers(a, c, x) && Answers(b, c, y)
    ensures AgreeAt(Effect(a, c, x), Effect(b, c, y), c.now)
  {
    if !c.op.ScanExpired? {
      Same(a, b, c);
    }
    var p, q := Effect(a, c, x), Effect(b, c, y);
    forall cid: u64
      ensures Live(p, cid, c.now) == Live(q, cid, c.now)
    {
      assert Live(a, cid, c.now) == Live(b, cid, c.now);
    }
  }

  lemma Same(a: Table, b: Table, c: Call)
    requires AgreeAt(a, b, c.now) && !c.op.ScanExpired?
    ensures Writes(a, c) == Writes(b, c)
    ensures forall x, y :: Answers(a, c, x) && Answers(b, c, y) ==> x == y
  {
    var cid := c.op.cid;
    assert Live(a, cid, c.now) == Live(b, cid, c.now);
  }

  lemma PruningIsInvisible(t: Table, kept: Table, now: u64)
    requires Prunes(t, kept, now)
    ensures AgreeAt(t, kept, now)
  {
  }

  lemma SameAnswer(a: Table, b: Table, c: Call, a': Table, b': Table, x: Answer, y: Answer)
    requires AgreeAt(a, b, c.now) && Next(a, c, a', x) && Next(b, c, b', y)
    ensures AgreeAt(a', b', c.now)
    ensures c.op.ScanExpired? || x == y
  {
    EffectAgrees(a, b, c, x, y);
    PruningIsInvisible(Effect(a, c, x), a', c.now);
    PruningIsInvisible(Effect(b, c, y), b', c.now);
    if !c.op.ScanExpired? {
      Same(a, b, c);
    }
    forall cid: u64
      ensures Live(a', cid, c.now) == Live(b', cid, c.now)
    {
      assert Live(Effect(a, c, x), cid, c.now) == Live(Effect(b, c, y), cid, c.now);
    }
  }

  /** The tables before each call and after the last, and the answers. */
  datatype History = History(tables: seq<Table>, answers: seq<Answer>)

  ghost predicate IsRun(h: History, calls: seq<Call>) {
    && |h.tables| == |calls| + 1 && |h.answers| == |calls|
    && forall k :: 0 <= k < |calls| ==> StepOf(h, calls, k)
  }

  ghost predicate StepOf(h: History, calls: seq<Call>, k: nat)
    requires |h.tables| == |calls| + 1 && |h.answers| == |calls| && k < |calls|
  {
    Next(h.tables[k], calls[k], h.tables[k + 1], h.answers[k])
  }

  ghost predicate ClockRuns(calls: seq<Call>) {
    forall i, j :: 0 <= i < j < |calls| ==> calls[i].now <= calls[j].now
  }

  /** Stores that start alike answer alike for as long as the clock does not go back, however
      differently they drop expired entries; only scans may name different entries. */
  lemma {:induction false} StoresAnswerAlike(g: History, h: History, calls: seq<Call>, k: nat)
    requires IsRun(g, calls) && IsRun(h, calls) && ClockRuns(calls) && k < |calls|
    requires AgreeAt(g.tables[0], h.tables[0], calls[0].now)
    ensures AgreeAt(g.tables[k], h.tables[k], calls[k].now)
    ensures calls[k].op.ScanExpired? || g.answers[k] == h.answers[k]
    decreases k
  {
    if k > 0 {
      StoresAnswerAlike(g, h, calls, k - 1);
      assert StepOf(g, calls, k - 1) && StepOf(h, calls, k - 1);
      SameAnswer(g.tables[k - 1], h.tables[k - 1], calls[k - 1], g.tables[k], h.tables[k],
                 g.answers[k - 1], h.answers[k - 1]);
      AgreementLasts(g.tables[k], h.tables[k], calls[k - 1].now, calls[k].now);
    }
    assert StepOf(g, calls, k) && StepOf(h, calls, k);
    SameAnswer(g.tables[k], h.tables[k], calls[k], g.tables[k + 1], h.tables[k + 1], g.answers[k], h.answers[k]);
  }

  // ------------------------------------------------------------ versions count writes

  /** From call `i` to call `j` the entry is there each time a call looks. */
  ghost predicate LivesOn(h: History, calls: seq<Call>, cid: u64, i: nat, j: nat)
    requires |h.tables| == |calls| + 1 && j < |calls|
  {
    forall k :: i <= k <= j ==> Live(h.tables[k], cid, calls[k].now).Some?
  }

  predicate Wrote(c: Call, a: Answer, cid: u64) {
    (c.op.CompareAndSwap? || c.op.Upsert?) && c.op.cid == cid && a.Written? && a.outcome.Ok?
  }

  function WriteCount(calls: seq<Call>, answers: seq<Answer>, cid: u64, i: nat, j: nat): nat
    requires i <= j <= |calls| == |answers|
    decreases j
  {
    if i == j then 0
    else WriteCount(calls, answers, cid, i, j - 1) + (if Wrote(calls[j - 1], answers[j - 1], cid) then 1 else 0)
  }

  lemma OneCallCounts(t: Table, c: Call, t': Table, a: Answer, cid: u64, later: u64)
    requires Next(t, c, t', a) && Live(t, cid, c.now).Some? && Live(t', cid, later).Some?
    ensures Live(t', cid, later).value.version
         == if Wrote(c, a, cid) then SatAdd(Live(t, cid, c.now).value.version, 1) else Live(t, cid, c.now).value.version
  {
    var e := Effect(t, c, a);
    assert cid in t' && cid in e && t'[cid] == e[cid];
  }

  /** While an entry lives, its version is its first version plus the writes since, up to the
      largest number there is. */
  lemma {:induction false} VersionCountsWrites(h: History, calls: seq<Call>, cid: u64, i: nat, j: nat)
    requires IsRun(h, calls) && i <= j < |calls| && LivesOn(h, calls, cid, i, j)
    ensures var first := Live(h.tables[i], cid, calls[i].now).value.version;
      var count := WriteCount(calls, h.answers, cid, i, j);
      Live(h.tables[j], cid, calls[j].now).value.version == if first + count > U64_MAX then U64_MAX else first + count
    decreases j
  {
    if i < j {
      VersionCountsWrites(h, calls, cid, i, j - 1);
      assert StepOf(h, calls, j - 1);
      OneCallCounts(h.tables[j - 1], calls[j - 1], h.tables[j], h.answers[j - 1], cid, calls[j].now);
    }
  }

  /** Of two compare-and-swaps that expect the same version of one living entry, where the
      first succeeded, the second succeeds if and only if versions have reached the largest
      number: short of that at most one wins, at any distance. */
  lemma SecondSwapWins(h: History, calls: seq<Call>, i: nat, j: nat)
    requires IsRun(h, calls) && i < j < |calls|
    requires calls[i].op.CompareAndSwap? && calls[j].op.CompareAndSwap?
    requires calls[i].op.cid == calls[j].op.cid && calls[i].op.expected == calls[j].op.expected
    requires LivesOn(h, calls, calls[i].op.cid, i + 1, j)
    requires h.answers[i].Written? && h.answers[i].outcome.Ok?
    ensures h.answers[j].Written?
    ensures h.answers[j].outcome.Ok? <==> calls[i].op.expected == Some(U64_MAX)
  {
    var cid := calls[i].op.cid;
    assert StepOf(h, calls, i) && StepOf(h, calls, j);
    VersionCountsWrites(h, calls, cid, i + 1, j);
    var e := Effect(h.tables[i], calls[i], h.answers[i]);
    assert cid in h.tables[i + 1] && h.tables[i + 1][cid] == e[cid];
  }

  // ------------------------------------------------------------------ when scans agree

  lemma {:induction false} MembersCount(cids: seq<u64>)
    requires Distinct(cids)
    ensures |Members(cids)| == |cids|
  {
    if cids != [] {
      var last := |cids| - 1;
      MembersCount(cids[..last]);
      assert Members(cids) == Members(cids[..last]) + {cids[last]};
    }
  }

  lemma {:induction false} FullSubset(a: set<u64>, b: set<u64>)
    requires a <= b && |a| >= |b|
    ensures a == b
  {
    if a != {} {
      var x :| x in a;
      FullSubset(a - {x}, b - {x});
    }
  }

  /** With room for all of them, a scan names every expired entry. */
  lemma ScanNamesAll(t: Table, now: u64, limit: nat, cids: seq<u64>)
    requires Scans(t, now, limit, cids) && limit >= |Expired(t, now)|
    ensures Members(cids) == Expired(t, now)
  {
    if |cids| == limit {
      MembersCount(cids);
      FullSubset(Members(cids), Expired(t, now));
    }
  }

  /** Two scans with room for all name the same ids exactly when the tables still hold the
      same expired entries. */
  lemma ScansAgreeExactly(a: Table, b: Table, now: u64, limit: nat, x: seq<u64>, y: seq<u64>)
    requires Scans(a, now, limit, x) && Scans(b, now, limit, y)
    requires limit >= |Expired(a, now)| && limit >= |Expired(b, now)|
    ensures Members(x) == Members(y) <==> Expired(a, now) == Expired(b, now)
  {
    ScanNamesAll(a, now, limit, x);
    ScanNamesAll(b, now, limit, y);
  }
}
