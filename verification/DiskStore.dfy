/** The disk store of v3-store: entries in memory, every change appended to a log, and a
    snapshot that compaction puts in the log's place. Opening the store again, at any point,
    must give back the entries it had. Files hold values here: the JSON text, the checksum's
    arithmetic and I/O failures are not part of this model. */
module DiskStore {
  import opened ByteOrder
  import opened Wrappers
  import opened SessionStore
  import Mem = MemoryStore

  const SESSION_SCHEMA_VERSION: u16 := 1

  /** A record as written; the oldest form carries no version. */
  datatype StoredSession =
    | StoredSession(schemaVersion: u16, record: SessionRecord)
    | Unversioned(record: SessionRecord)

  function EncodeRecord(record: SessionRecord): StoredSession {
    StoredSession(SESSION_SCHEMA_VERSION, record)
  }

  function DecodeRecord(data: StoredSession): Result<SessionRecord, StoreError> {
    if data.Unversioned? then Err(Serialization)
    else if data.schemaVersion != SESSION_SCHEMA_VERSION then Err(UnsupportedSchemaVersion(data.schemaVersion))
    else Ok(data.record)
  }

  /** The log also accepts records older than the first version. */
  function DecodeMigrating(data: StoredSession): Result<SessionRecord, StoreError> {
    if data.Unversioned? || data.schemaVersion == 0 then Ok(data.record)
    else DecodeRecord(data)
  }

  datatype DiskOp =
    | DiskUpsert(cid: u64, version: u64, expiresAtMs: u64, data: StoredSession)
    | DiskDelete(cid: u64)

  /** What replay can find on a line. */
  datatype LogLine = Blank | Unreadable | WrongChecksum | Line(op: DiskOp)

  datatype SnapshotEntry = SnapshotEntry(cid: u64, version: u64, expiresAtMs: u64, data: StoredSession)

  datatype Snapshot =
    | NoBytes
    | NotASnapshot
    | Snapshot(schemaVersion: u16, entries: seq<SnapshotEntry>)

  /** The directory: the snapshot, the temporary file compaction writes, and the log. */
  datatype Files = Files(snapshot: Option<Snapshot>, tmp: Option<Snapshot>, log: seq<LogLine>)

  // -------------------------------------------------------------------- recovery

  function LoadEntry(t: Table, e: SnapshotEntry): Result<Table, StoreError> {
    var record :- DecodeRecord(e.data);
    Ok(t[e.cid := VersionedRecord(e.version, record, e.expiresAtMs)])
  }

  function LoadEntries(entries: seq<SnapshotEntry>): Result<Table, StoreError> {
    if entries == [] then Ok(map[])
    else
      var front :- LoadEntries(entries[..|entries| - 1]);
      LoadEntry(front, entries[|entries| - 1])
  }

  function LoadSnapshot(snapshot: Option<Snapshot>): Result<Table, StoreError> {
    match snapshot
    case None => Ok(map[])
    case Some(NoBytes) => Ok(map[])
    case Some(NotASnapshot) => Err(Serialization)
    case Some(Snapshot(version, entries)) =>
      if version != SESSION_SCHEMA_VERSION then Err(UnsupportedSchemaVersion(version)) else LoadEntries(entries)
  }

  function ApplyOp(t: Table, op: DiskOp): Result<Table, StoreError> {
    match op
    case DiskUpsert(cid, version, expires, data) =>
      var record :- DecodeMigrating(data);
      Ok(t[cid := VersionedRecord(version, record, expires)])
    case DiskDelete(cid) => Ok(t - {cid})
  }

  function ReplayLine(t: Table, line: LogLine): Result<Table, StoreError> {
    match line
    case Blank => Ok(t)
    case Unreadable => Err(CorruptLogEntry)
    case WrongChecksum => Err(ChecksumMismatch)
    case Line(op) => ApplyOp(t, op)
  }

  function Replay(t: Table, log: seq<LogLine>): Result<Table, StoreError> {
    if log == [] then Ok(t)
    else
      var front :- Replay(t, log[..|log| - 1]);
      ReplayLine(front, log[|log| - 1])
  }

  function Recover(files: Files): Result<Table, StoreError> {
    var base :- LoadSnapshot(files.snapshot);
    Replay(base, files.log)
  }

  /** The log reads records without a version, of version 0 and of version 1, the snapshot
      those of version 1 only; any other version is reported as unsupported. */
  lemma WhatIsRead(data: StoredSession, cid: u64, version: u64, expiresAtMs: u64, t: Table)
    ensures var line := Line(DiskUpsert(cid, version, expiresAtMs, data));
      var read := Ok(t[cid := VersionedRecord(version, data.record, expiresAtMs)]);
      ReplayLine(t, line) ==
        if data.Unversioned? || data.schemaVersion <= 1 then read else Err(UnsupportedSchemaVersion(data.schemaVersion))
    ensures var read := Ok(t[cid := VersionedRecord(version, data.record, expiresAtMs)]);
      LoadEntry(t, SnapshotEntry(cid, version, expiresAtMs, data)) ==
        if data.Unversioned? then Err(Serialization)
        else if data.schemaVersion == 1 then read
        else Err(UnsupportedSchemaVersion(data.schemaVersion))
    ensures ReplayLine(t, Line(DiskDelete(cid))) == Ok(t - {cid}) && ReplayLine(t, Blank) == Ok(t)
    ensures ReplayLine(t, Unreadable) == Err(CorruptLogEntry) && ReplayLine(t, WrongChecksum) == Err(ChecksumMismatch)
  {
  }

  lemma ReplayOneMore(t: Table, log: seq<LogLine>, line: LogLine)
    requires Replay(t, log).Ok?
    ensures Replay(t, log + [line]) == ReplayLine(Replay(t, log).value, line)
  {
    assert (log + [line])[..|log|] == log;
  }

  // ------------------------------------------- replay depends only on each id's last line

  /** What the log says about an id: nothing, or its final entry, or its removal. */
  datatype Verdict = Silent | Holds(entry: VersionedRecord) | Removed

  function LastWord(log: seq<LogLine>, cid: u64): Verdict {
    if log == [] then Silent
    else
      var line := log[|log| - 1];
      if line.Line? && line.op.cid == cid then
        match line.op
        case DiskDelete(_) => Removed
        case DiskUpsert(_, version, expires, data) =>
          if DecodeMigrating(data).Ok? then Holds(VersionedRecord(version, DecodeMigrating(data).value, expires))
          else LastWord(log[..|log| - 1], cid)
      else LastWord(log[..|log| - 1], cid)
  }

  function At(t: Table, cid: u64): Option<VersionedRecord> {
    if cid in t then Some(t[cid]) else None
  }

  lemma {:induction false} ReplayedAt(t: Table, log: seq<LogLine>, cid: u64)
    requires Replay(t, log).Ok?
    ensures At(Replay(t, log).value, cid) ==
      match LastWord(log, cid)
      case Silent => At(t, cid)
      case Holds(entry) => Some(entry)
      case Removed => None
  {
    if log != [] {
      ReplayedAt(t, log[..|log| - 1], cid);
    }
  }

  /** Whether a line stops replay, and with which error, has nothing to do with the table. */
  function Fault(line: LogLine): Option<StoreError> {
    match ReplayLine(map[], line)
    case Ok(_) => None
    case Err(e) => Some(e)
  }

  /** Replay fails exactly when some line is faulty, with the error of the first one. */
  lemma {:induction false} ReplayFailsAtFirstFault(t: Table, log: seq<LogLine>)
    ensures Replay(t, log).Ok? <==> forall i :: 0 <= i < |log| ==> Fault(log[i]).None?
    ensures forall i: nat :: FirstFault(log, i) ==> Replay(t, log) == Err(Fault(log[i]).value)
  {
    if log != [] {
      var front := log[..|log| - 1];
      ReplayFailsAtFirstFault(t, front);
      forall i: nat | FirstFault(log, i)
        ensures Replay(t, log) == Err(Fault(log[i]).value)
      {
        if i < |front| {
          assert FirstFault(front, i);
        }
      }
    }
  }

  ghost predicate FirstFault(log: seq<LogLine>, i: nat) {
    i < |log| && Fault(log[i]).Some? && forall j :: 0 <= j < i ==> Fault(log[j]).None?
  }

  /** Replaying a log over its own result changes nothing. */
  lemma ReplayTwice(t: Table, log: seq<LogLine>)
    requires Replay(t, log).Ok?
    ensures Replay(Replay(t, log).value, log) == Replay(t, log)
  {
    var once := Replay(t, log).value;
    ReplayFailsAtFirstFault(t, log);
    ReplayFailsAtFirstFault(once, log);
    var twice := Replay(once, log).value;
    forall cid: u64
      ensures At(twice, cid) == At(once, cid)
    {
      ReplayedAt(t, log, cid);
      ReplayedAt(once, log, cid);
    }
    SameEverywhere(twice, once);
  }

  lemma SameEverywhere(a: Table, b: Table)
    requires forall cid: u64 :: At(a, cid) == At(b, cid)
    ensures a == b
  {
    forall cid: u64
      ensures cid in a <==> cid in b
      ensures cid in a ==> a[cid] == b[cid]
    {
      assert At(a, cid) == At(b, cid);
    }
  }

  // -------------------------------------------------------------------- snapshots

  function EntryOf(t: Table, cid: u64): SnapshotEntry
    requires cid in t
  {
    SnapshotEntry(cid, t[cid].version, t[cid].expiresAtMs, EncodeRecord(t[cid].record))
  }

  /** The entries listed so far, each once, in whatever order the map yields them. */
  ghost predicate Lists(entries: seq<SnapshotEntry>, t: Table) {
    && (forall i, j :: 0 <= i < j < |entries| ==> entries[i].cid != entries[j].cid)
    && (forall i :: 0 <= i < |entries| ==> entries[i].cid in t && entries[i] == EntryOf(t, entries[i].cid))
  }

  ghost predicate Mentions(entries: seq<SnapshotEntry>, cid: u64) {
    exists i :: 0 <= i < |entries| && entries[i].cid == cid
  }

  ghost predicate IsSnapshotOf(entries: seq<SnapshotEntry>, t: Table) {
    Lists(entries, t) && forall cid :: cid in t ==> Mentions(entries, cid)
  }

  lemma {:induction false} ListedLoads(entries: seq<SnapshotEntry>, t: Table)
    requires Lists(entries, t)
    ensures LoadEntries(entries).Ok?
    ensures forall cid: u64 :: cid in LoadEntries(entries).value <==> Mentions(entries, cid)
    ensures forall cid: u64 :: cid in LoadEntries(entries).value ==>
      cid in t && LoadEntries(entries).value[cid] == t[cid]
  {
    if entries != [] {
      var last := |entries| - 1;
      var front := entries[..last];
      ListedLoads(front, t);
      forall cid: u64
        ensures Mentions(entries, cid) <==> cid == entries[last].cid || Mentions(front, cid)
      {
        if Mentions(entries, cid) {
          var i :| 0 <= i < |entries| && entries[i].cid == cid;
          assert i < last ==> front[i].cid == cid;
        }
        if Mentions(front, cid) {
          var i :| 0 <= i < |front| && front[i].cid == cid;
          assert entries[i].cid == cid;
        }
      }
    }
  }

  /** A snapshot loads to the table it was taken of. */
  lemma SnapshotLoads(entries: seq<SnapshotEntry>, t: Table)
    requires IsSnapshotOf(entries, t)
    ensures LoadSnapshot(Some(Snapshot(SESSION_SCHEMA_VERSION, entries))) == Ok(t)
  {
    ListedLoads(entries, t);
    var loaded := LoadEntries(entries).value;
    forall cid: u64
      ensures At(loaded, cid) == At(t, cid)
    {
    }
    SameEverywhere(loaded, t);
  }

  /** The directory before compaction and after each of its three writes. */
  function CompactionStages(files: Files, entries: seq<SnapshotEntry>): seq<Files> {
    var snapshot := Some(Snapshot(SESSION_SCHEMA_VERSION, entries));
    [files,
     files.(tmp := snapshot),
     files.(tmp := None, snapshot := snapshot),
     Files(snapshot, None, [])]
  }

  /** Whether it stops before the rename, between the rename and the truncation, or runs to
      its end, compaction leaves files that recover to the same entries. */
  lemma CompactionStagesRecover(files: Files, t: Table, entries: seq<SnapshotEntry>)
    requires Recover(files) == Ok(t) && IsSnapshotOf(entries, t)
    ensures forall k :: 0 <= k < 4 ==> Recover(CompactionStages(files, entries)[k]) == Ok(t)
  {
    SnapshotLoads(entries, t);
    ReplayTwice(LoadSnapshot(files.snapshot).value, files.log);
  }

  /** Compaction writes the temporary file, renames it over the snapshot and truncates the log,
      one after the other: until the last write the log is as it was. */
  lemma EachWriteIsOneStep(files: Files, entries: seq<SnapshotEntry>)
    ensures var stages := CompactionStages(files, entries);
      && |stages| == 4 && stages[0] == files
      && stages[1].snapshot == files.snapshot && stages[1].log == files.log
      && stages[1].tmp == Some(Snapshot(SESSION_SCHEMA_VERSION, entries))
      && stages[2].snapshot == stages[1].tmp && stages[2].tmp == None && stages[2].log == files.log
      && stages[3].snapshot == stages[2].snapshot && stages[3].tmp == None && stages[3].log == []
  {
  }

  // ------------------------------------------------------------ what each call logs

  /** The lines a call appends. */
  function Logged(t: Table, c: Call, a: Answer): seq<LogLine> {
    match c.op
    case Load(cid) => if cid in t && t[cid].expiresAtMs <= c.now then [Line(DiskDelete(cid))] else []
    case Delete(cid) => [Line(DiskDelete(cid))]
    case ScanExpired(_) => if a.Scanned? then Deletions(a.cids) else []
    case _ =>
      var w := Writes(t, c);
      if w.None? then []
      else [Line(DiskUpsert(w.value.0, w.value.1.version, w.value.1.expiresAtMs, EncodeRecord(w.value.1.record)))]
  }

  function Deletions(cids: seq<u64>): (lines: seq<LogLine>)
    ensures |lines| == |cids|
    ensures forall i :: 0 <= i < |cids| ==> lines[i] == Line(DiskDelete(cids[i]))
  {
    seq(|cids|, i requires 0 <= i < |cids| => Line(DiskDelete(cids[i])))
  }

  /** The entries a call leaves in memory. Unlike the in-memory store, this one drops an
      expired entry only when it is loaded or scanned. */
  function Kept(t: Table, c: Call, a: Answer): Table {
    if c.op.Load? then Purged(t, c.op.cid, c.now) else Effect(t, c, a)
  }

  lemma KeptIsNext(t: Table, c: Call, a: Answer)
    requires Answers(t, c, a)
    ensures Next(t, c, Kept(t, c, a), a)
  {
  }

  lemma {:induction false} DeletionsReplay(t: Table, base: Table, log: seq<LogLine>, cids: seq<u64>, k: nat)
    requires Replay(base, log) == Ok(t) && k <= |cids|
    ensures Replay(base, log + Deletions(cids)[..k]) == Ok(t - Members(cids[..k]))
    decreases k
  {
    var lines := Deletions(cids);
    if k == 0 {
      assert log + lines[..0] == log;
      MinusNone(t, cids);
    } else {
      DeletionsReplay(t, base, log, cids, k - 1);
      assert log + lines[..k] == (log + lines[..k - 1]) + [lines[k - 1]];
      ReplayOneMore(base, log + lines[..k - 1], lines[k - 1]);
      MinusOneMore(t, cids, k - 1);
    }
  }

  /** The log with a call's lines replays to the entries the call left in memory. */
  lemma LogFollowsCall(base: Table, log: seq<LogLine>, t: Table, c: Call, a: Answer)
    requires Replay(base, log) == Ok(t) && Answers(t, c, a)
    ensures Replay(base, log + Logged(t, c, a)) == Ok(Kept(t, c, a))
  {
    if c.op.ScanExpired? {
      DeletionsReplay(t, base, log, a.cids, |a.cids|);
      assert a.cids[..|a.cids|] == a.cids;
      assert Logged(t, c, a)[..|a.cids|] == Logged(t, c, a);
    } else if Logged(t, c, a) == [] {
      assert log + [] == log;
    } else {
      ReplayOneMore(base, log, Logged(t, c, a)[0]);
    }
  }

  /** If only the first lines of a call reach the log, the store that opens on it cannot be
      told from the store before the call or from the store after it. */
  lemma CutShort(base: Table, log: seq<LogLine>, t: Table, c: Call, a: Answer, k: nat)
    requires Replay(base, log) == Ok(t) && Answers(t, c, a) && k <= |Logged(t, c, a)|
    ensures Replay(base, log + Logged(t, c, a)[..k]).Ok?
    ensures var u := Replay(base, log + Logged(t, c, a)[..k]).value;
      AgreeAt(u, t, c.now) || u == Kept(t, c, a)
  {
    var lines := Logged(t, c, a);
    if c.op.ScanExpired? {
      DeletionsReplay(t, base, log, a.cids, k);
      var u := t - Members(a.cids[..k]);
      forall cid: u64
        ensures Live(u, cid, c.now) == Live(t, cid, c.now)
      {
        assert cid in Members(a.cids[..k]) ==> cid in a.cids;
      }
    } else if k == 0 {
      assert log + lines[..0] == log;
    } else {
      assert lines[..k] == lines;
      LogFollowsCall(base, log, t, c, a);
    }
  }

  // ---------------------------------------------------------------------- whole runs

  /** A store and its directory. */
  datatype Disk = Disk(entries: Table, files: Files)

  /** What can happen: a call; compaction; compaction that stops after some of its writes, or
      a call that stops after some of its lines, either followed by opening the store anew. */
  datatype Event =
    | Serve(c: Call, a: Answer)
    | Compact(snapshot: seq<SnapshotEntry>)
    | StopInCompaction(snapshot: seq<SnapshotEntry>, writes: nat)
    | StopInCall(c: Call, a: Answer, lines: nat)

  ghost predicate Possible(d: Disk, e: Event) {
    match e
    case Serve(c, a) => Answers(d.entries, c, a)
    case Compact(s) => IsSnapshotOf(s, d.entries)
    case StopInCompaction(s, writes) => IsSnapshotOf(s, d.entries) && writes <= 3
    case StopInCall(c, a, lines) => Answers(d.entries, c, a) && lines <= |Logged(d.entries, c, a)|
  }

  function FilesAfter(d: Disk, e: Event): Files {
    match e
    case Serve(c, a) => d.files.(log := d.files.log + Logged(d.entries, c, a))
    case Compact(s) => CompactionStages(d.files, s)[3]
    case StopInCompaction(s, writes) => if writes <= 3 then CompactionStages(d.files, s)[writes] else d.files
    case StopInCall(c, a, lines) =>
      var all := Logged(d.entries, c, a);
      d.files.(log := d.files.log + (if lines <= |all| then all[..lines] else all))
  }

  ghost predicate Happens(d: Disk, e: Event, d': Disk) {
    && Possible(d, e)
    && d'.files == FilesAfter(d, e)
    && match e {
         case Serve(c, a) => d'.entries == Kept(d.entries, c, a)
         case Compact(_) => d'.entries == d.entries
         case _ => Recover(d'.files) == Ok(d'.entries)
       }
  }

  /** What a caller may notice of an event. */
  ghost predicate Harmless(d: Disk, e: Event, d': Disk) {
    match e
    case Serve(c, a) => Next(d.entries, c, d'.entries, a)
    case StopInCall(c, a, _) => AgreeAt(d'.entries, d.entries, c.now) || d'.entries == Kept(d.entries, c, a)
    case _ => d'.entries == d.entries
  }

  lemma EventKeeps(d: Disk, e: Event)
    requires Recover(d.files) == Ok(d.entries) && Possible(d, e)
    ensures Recover(FilesAfter(d, e)).Ok?
    ensures forall d' :: Happens(d, e, d') ==> Recover(d'.files) == Ok(d'.entries) && Harmless(d, e, d')
  {
    match e
    case Serve(c, a) =>
      LogFollowsCall(LoadSnapshot(d.files.snapshot).value, d.files.log, d.entries, c, a);
      KeptIsNext(d.entries, c, a);
    case Compact(s) => CompactionStagesRecover(d.files, d.entries, s);
    case StopInCompaction(s, writes) => CompactionStagesRecover(d.files, d.entries, s);
    case StopInCall(c, a, lines) =>
      CutShort(LoadSnapshot(d.files.snapshot).value, d.files.log, d.entries, c, a, lines);
  }

  ghost predicate IsDiskRun(disks: seq<Disk>, events: seq<Event>) {
    && |disks| == |events| + 1
    && forall k :: 0 <= k < |events| ==> EventAt(disks, events, k)
  }

  ghost predicate EventAt(disks: seq<Disk>, events: seq<Event>, k: nat)
    requires |disks| == |events| + 1 && k < |events|
  {
    Happens(disks[k], events[k], disks[k + 1])
  }

  /** However calls, compactions and stops follow each other, opening the store again always
      gives exactly the entries in memory, and no event shows anything but its own effect. */
  lemma {:induction false} EveryRunRecovers(disks: seq<Disk>, events: seq<Event>, k: nat)
    requires IsDiskRun(disks, events) && k <= |events|
    requires Recover(disks[0].files) == Ok(disks[0].entries)
    ensures Recover(disks[k].files) == Ok(disks[k].entries)
    ensures k < |events| ==> Harmless(disks[k], events[k], disks[k + 1])
    decreases k
  {
    if k > 0 {
      EveryRunRecovers(disks, events, k - 1);
      assert EventAt(disks, events, k - 1);
      EventKeeps(disks[k - 1], events[k - 1]);
    }
    if k < |events| {
      assert EventAt(disks, events, k);
      EventKeeps(disks[k], events[k]);
    }
  }

  function EntriesOf(disks: seq<Disk>): seq<Table> {
    seq(|disks|, i requires 0 <= i < |disks| => disks[i].entries)
  }

  function Served(calls: seq<Call>, answers: seq<Answer>): (events: seq<Event>)
    requires |calls| == |answers|
    ensures |events| == |calls|
  {
    seq(|calls|, i requires 0 <= i < |calls| => Serve(calls[i], answers[i]))
  }

  /** While the clock does not go back, the disk store answers every call as any other store of
      the same interface does, scans apart. */
  lemma DiskAnswersLikeMemory(disks: seq<Disk>, calls: seq<Call>, answers: seq<Answer>, h: History, k: nat)
    requires |calls| == |answers| && IsDiskRun(disks, Served(calls, answers))
    requires IsRun(h, calls) && ClockRuns(calls) && k < |calls|
    requires AgreeAt(disks[0].entries, h.tables[0], calls[0].now)
    ensures calls[k].op.ScanExpired? || answers[k] == h.answers[k]
  {
    var g := History(EntriesOf(disks), answers);
    forall i | 0 <= i < |calls|
      ensures StepOf(g, calls, i)
    {
      assert EventAt(disks, Served(calls, answers), i);
      KeptIsNext(disks[i].entries, calls[i], answers[i]);
    }
    StoresAnswerAlike(g, h, calls, k);
  }

  /** Scans do show the difference. A swap that fails on an expired entry drops it from the
      in-memory store but not from this one, so of the two scans that follow, with room for
      all, only the one here names it. Both stores have kept to the interface throughout. */
  lemma FailedSwapShowsInScan(t: Table, cid: u64, expected: u64, record: SessionRecord, ttlMs: u64, now: u64,
                              limit: nat, x: seq<u64>, y: seq<u64>)
    requires cid in Expired(t, now) && limit >= |Expired(t, now)|
    requires var swap := Call(CompareAndSwap(cid, Some(expected), record, ttlMs), now);
      var answer := Written(Err(CasConflict(Some(expected), None)));
      && Scans(Mem.Swapped(t, cid, Some(expected), record, ttlMs, now), now, limit, x)
      && Scans(Kept(t, swap, answer), now, limit, y)
    ensures var swap := Call(CompareAndSwap(cid, Some(expected), record, ttlMs), now);
      var answer := Written(Err(CasConflict(Some(expected), None)));
      && Next(t, swap, Mem.Swapped(t, cid, Some(expected), record, ttlMs, now), answer)
      && Next(t, swap, Kept(t, swap, answer), answer)
    ensures Members(x) == Expired(t, now) - {cid} && Members(y) == Expired(t, now)
  {
    var memory := Mem.Swapped(t, cid, Some(expected), record, ttlMs, now);
    assert Expired(memory, now) == Expired(t, now) - {cid};
    ScanNamesAll(memory, now, limit, x);
    ScanNamesAll(t, now, limit, y);
  }

  // -------------------------------------------------------------------- the store

  class DiskSessionStore {
    var entries: Table
    var snapshot: Option<Snapshot>
    var tmp: Option<Snapshot>
    var log: seq<LogLine>

    ghost function Dir(): Files
      reads this
    {
      Files(snapshot, tmp, log)
    }

    ghost function View(): Disk
      reads this
    {
      Disk(entries, Dir())
    }

    /** Opening the store again would give the entries it holds. */
    ghost predicate Valid()
      reads this
    {
      Recover(Dir()) == Ok(entries)
    }

    constructor (files: Files, recovered: Table)
      ensures View() == Disk(recovered, files)
    {
      entries := recovered;
      snapshot, tmp, log := files.snapshot, files.tmp, files.log;
    }

    static method ReadSnapshot(stored: Option<Snapshot>) returns (r: Result<Table, StoreError>)
      ensures r == LoadSnapshot(stored)
    {
      if stored.None? || stored.value.NoBytes? {
        return Ok(map[]);
      }
      if stored.value.NotASnapshot? {
        return Err(Serialization);
      }
      if stored.value.schemaVersion != SESSION_SCHEMA_VERSION {
        return Err(UnsupportedSchemaVersion(stored.value.schemaVersion));
      }
      var items := stored.value.entries;
      var table: Table := map[];
      var i := 0;
      while i < |items|
        invariant 0 <= i <= |items|
        invariant LoadEntries(items[..i]) == Ok(table)
      {
        assert items[..i + 1][..i] == items[..i];
        var record := DecodeRecord(items[i].data);
        if record.Err? {
          LoadFails(items, i + 1);
          return Err(record.error);
        }
        table := table[items[i].cid := VersionedRecord(items[i].version, record.value, items[i].expiresAtMs)];
        i := i + 1;
      }
      assert items[..i] == items;
      return Ok(table);
    }

    static method ReplayLog(base: Table, lines: seq<LogLine>) returns (r: Result<Table, StoreError>)
      ensures r == Replay(base, lines)
    {
      var table := base;
      var i := 0;
      while i < |lines|
        invariant 0 <= i <= |lines|
        invariant Replay(base, lines[..i]) == Ok(table)
      {
        assert lines[..i + 1] == lines[..i] + [lines[i]];
        ReplayOneMore(base, lines[..i], lines[i]);
        match lines[i] {
          case Blank =>
          case Unreadable =>
            ReplayFails(base, lines, i + 1);
            return Err(CorruptLogEntry);
          case WrongChecksum =>
            ReplayFails(base, lines, i + 1);
            return Err(ChecksumMismatch);
          case Line(DiskUpsert(cid, version, expires, data)) =>
            var record := DecodeMigrating(data);
            if record.Err? {
              ReplayFails(base, lines, i + 1);
              return Err(record.error);
            }
            table := table[cid := VersionedRecord(version, record.value, expires)];
          case Line(DiskDelete(cid)) =>
            table := table - {cid};
        }
        i := i + 1;
      }
      assert lines[..i] == lines;
      return Ok(table);
    }

    /** Open the store on a directory: the snapshot first, then the log; the temporary file
        is never read. */
    static method Open(files: Files) returns (r: Result<DiskSessionStore, StoreError>)
      ensures r.Ok? <==> Recover(files).Ok?
      ensures r.Err? ==> r.error == Recover(files).error
      ensures r.Ok? ==> fresh(r.value) && r.value.Valid() && r.value.View() == Disk(Recover(files).value, files)
    {
      var base := ReadSnapshot(files.snapshot);
      if base.Err? {
        return Err(base.error);
      }
      var table := ReplayLog(base.value, files.log);
      if table.Err? {
        return Err(table.error);
      }
      var store := new DiskSessionStore(files, table.value);
      return Ok(store);
    }

    method AppendOp(op: DiskOp)
      modifies this`log
      ensures log == old(log) + [Line(op)]
    {
      log := log + [Line(op)];
    }

    method Load(cid: u64, now: u64) returns (found: Option<VersionedRecord>)
      requires Valid()
      modifies this`entries, this`log
      ensures found == Live(old(entries), cid, now)
      ensures Happens(old(View()), Serve(Call(SessionStore.Load(cid), now), Loaded(found)), View())
      ensures Valid()
    {
      hide Replay, LoadSnapshot, ReplayLine;
      EventKeeps(View(), Serve(Call(SessionStore.Load(cid), now), Loaded(Live(entries, cid, now))));
      if cid in entries && entries[cid].expiresAtMs > now {
        assert log + [] == log;
        return Some(entries[cid]);
      }
      if cid in entries {
        entries := entries - {cid};
        AppendOp(DiskDelete(cid));
        return None;
      }
      assert log + [] == log;
      return None;
    }

    method CompareAndSwap(cid: u64, expected: Option<u64>, record: SessionRecord, ttlMs: u64, now: u64)
      returns (r: Result<VersionedRecord, StoreError>)
      requires Valid()
      modifies this`entries, this`log
      ensures r == Swap(old(entries), cid, expected, record, ttlMs, now)
      ensures Happens(old(View()),
                      Serve(Call(SessionStore.CompareAndSwap(cid, expected, record, ttlMs), now), Written(r)), View())
      ensures Valid()
    {
      hide Replay, LoadSnapshot, ReplayLine;
      EventKeeps(View(), Serve(Call(SessionStore.CompareAndSwap(cid, expected, record, ttlMs), now),
                               Written(Swap(entries, cid, expected, record, ttlMs, now))));
      var live := cid in entries && entries[cid].expiresAtMs > now;
      var currentVersion := if live then Some(entries[cid].version) else None;
      if currentVersion != expected {
        assert log + [] == log;
        return Err(CasConflict(expected, currentVersion));
      }
      var nextVersion := SatAdd(if currentVersion.Some? then currentVersion.value else 0, 1);
      var expiresAtMs := SatAdd(now, ttlMs);
      var encoded := EncodeRecord(record);
      var entry := VersionedRecord(nextVersion, record, expiresAtMs);
      entries := entries[cid := entry];
      AppendOp(DiskUpsert(cid, nextVersion, expiresAtMs, encoded));
      return Ok(entry);
    }

    method Upsert(cid: u64, record: SessionRecord, ttlMs: u64, now: u64)
      returns (r: Result<VersionedRecord, StoreError>)
      requires Valid()
      modifies this`entries, this`log
      ensures r == Ok(Stamp(old(entries), cid, record, ttlMs, now))
      ensures Happens(old(View()), Serve(Call(SessionStore.Upsert(cid, record, ttlMs), now), Written(r)), View())
      ensures Valid()
    {
      hide Replay, LoadSnapshot, ReplayLine;
      EventKeeps(View(), Serve(Call(SessionStore.Upsert(cid, record, ttlMs), now),
                               Written(Ok(Stamp(entries, cid, record, ttlMs, now)))));
      var currentVersion := if cid in entries && entries[cid].expiresAtMs > now then entries[cid].version else 0;
      var nextVersion := SatAdd(currentVersion, 1);
      var expiresAtMs := SatAdd(now, ttlMs);
      var encoded := EncodeRecord(record);
      var entry := VersionedRecord(nextVersion, record, expiresAtMs);
      entries := entries[cid := entry];
      AppendOp(DiskUpsert(cid, nextVersion, expiresAtMs, encoded));
      return Ok(entry);
    }

    /** A deletion is logged even when there was nothing to delete. */
    method Delete(cid: u64, ghost now: u64)
      requires Valid()
      modifies this`entries, this`log
      ensures entries == old(entries) - {cid}
      ensures Happens(old(View()), Serve(Call(SessionStore.Delete(cid), now), Deleted), View())
      ensures Valid()
    {
      hide Replay, LoadSnapshot, ReplayLine;
      EventKeeps(View(), Serve(Call(SessionStore.Delete(cid), now), Deleted));
      entries := entries - {cid};
      AppendOp(DiskDelete(cid));
    }

    method ScanExpired(now: u64, limit: nat) returns (expired: seq<u64>)
      requires Valid()
      modifies this`entries, this`log
      ensures Happens(old(View()), Serve(Call(SessionStore.ScanExpired(limit), now), Scanned(expired)), View())
      ensures Valid()
    {
      hide Replay, LoadSnapshot, ReplayLine;
      if limit == 0 {
        expired := [];
        EventKeeps(View(), Serve(Call(SessionStore.ScanExpired(limit), now), Scanned(expired)));
        assert log + Deletions([]) == log;
        assert entries - Members([]) == entries;
        return;
      }
      expired := CollectExpired(entries, now, limit);
      EventKeeps(View(), Serve(Call(SessionStore.ScanExpired(limit), now), Scanned(expired)));
      var k := 0;
      MinusNone(entries, expired);
      while k < |expired|
        invariant 0 <= k <= |expired|
        invariant entries == old(entries) - Members(expired[..k])
        invariant log == old(log)
      {
        MinusOneMore(old(entries), expired, k);
        entries := entries - {expired[k]};
        k := k + 1;
      }
      assert expired[..k] == expired;
      k := 0;
      while k < |expired|
        invariant 0 <= k <= |expired|
        invariant entries == old(entries) - Members(expired)
        invariant log == old(log) + Deletions(expired)[..k]
      {
        AppendOp(DiskDelete(expired[k]));
        k := k + 1;
      }
      assert Deletions(expired)[..k] == Deletions(expired);
    }

    /** Write the entries to a temporary file, rename it over the snapshot, empty the log.
        `stages` records the directory before and after each of the three writes. */
    method Compact() returns (ghost snapshotEntries: seq<SnapshotEntry>, ghost stages: seq<Files>)
      requires Valid()
      modifies this`snapshot, this`tmp, this`log
      ensures entries == old(entries)
      ensures Happens(old(View()), Event.Compact(snapshotEntries), View())
      ensures Valid()
      ensures stages == CompactionStages(old(Dir()), snapshotEntries)
      ensures forall k :: 0 <= k < |stages| ==> Recover(stages[k]) == Ok(entries)
      ensures Dir() == stages[|stages| - 1]
    {
      hide Replay, LoadSnapshot, ReplayLine, IsSnapshotOf;
      stages := [Dir()];
      var items := ListEntries(entries);
      snapshotEntries := items;
      CompactionStagesRecover(Dir(), entries, items);
      EventKeeps(View(), Event.Compact(items));
      tmp := Some(Snapshot(SESSION_SCHEMA_VERSION, items));
      stages := stages + [Dir()];
      snapshot, tmp := tmp, None;
      stages := stages + [Dir()];
      log := [];
      stages := stages + [Dir()];
    }
  }

  method ListEntries(t: Table) returns (items: seq<SnapshotEntry>)
    ensures IsSnapshotOf(items, t)
  {
    items := [];
    var left := t.Keys;
    while left != {}
      invariant left <= t.Keys
      invariant Lists(items, t)
      invariant forall i :: 0 <= i < |items| ==> items[i].cid !in left
      invariant forall cid :: cid in t ==> cid in left || Mentions(items, cid)
      decreases |left|
    {
      var cid :| cid in left;
      var item := SnapshotEntry(cid, t[cid].version, t[cid].expiresAtMs, EncodeRecord(t[cid].record));
      MentionsMore(items, item);
      items := items + [item];
      left := left - {cid};
    }
  }

  lemma MentionsMore(items: seq<SnapshotEntry>, e: SnapshotEntry)
    ensures forall cid: u64 :: Mentions(items, cid) || cid == e.cid ==> Mentions(items + [e], cid)
  {
    forall cid: u64 | Mentions(items, cid) || cid == e.cid
      ensures Mentions(items + [e], cid)
    {
      assert (items + [e])[|items|].cid == e.cid;
      if Mentions(items, cid) {
        var i :| 0 <= i < |items| && items[i].cid == cid;
        assert (items + [e])[i].cid == cid;
      }
    }
  }

  lemma {:induction false} LoadFails(items: seq<SnapshotEntry>, n: nat)
    requires n <= |items| && LoadEntries(items[..n]).Err?
    ensures LoadEntries(items) == LoadEntries(items[..n])
    decreases |items|
  {
    if n == |items| {
      assert items[..n] == items;
    } else {
      var front := items[..|items| - 1];
      assert front[..n] == items[..n];
      LoadFails(front, n);
    }
  }

  lemma {:induction false} ReplayFails(t: Table, log: seq<LogLine>, n: nat)
    requires n <= |log| && Replay(t, log[..n]).Err?
    ensures Replay(t, log) == Replay(t, log[..n])
    decreases |log|
  {
    if n == |log| {
      assert log[..n] == log;
    } else {
      var front := log[..|log| - 1];
      assert front[..n] == log[..n];
      ReplayFails(t, front, n);
    }
  }
}
