/** What callers of a session store can rely on, from calls and answers alone: a record that was
    written is loaded until its time has run out and no longer, a deleted one is gone, and a
    write continues from what a load would have answered. */
module RecordLife {
  import opened ByteOrder
  import opened Wrappers
  import opened SessionStore

  /** The moment a record written with this time to live runs out, if 64 bits can hold it. */
  function EndOfLife(now: u64, ttlMs: u64): u64 {
    if now + ttlMs <= U64_MAX then now + ttlMs else U64_MAX
  }

  /** No call strictly between the two writes or deletes the id. */
  ghost predicate Untouched(calls: seq<Call>, answers: seq<Answer>, cid: u64, i: nat, k: nat)
    requires |answers| == |calls| && k < |calls|
  {
    forall j :: i < j < k ==> !Wrote(calls[j], answers[j], cid) && calls[j].op != Delete(cid)
  }

  /** The table holds the entry, or has dropped it because its time had run out by then. */
  predicate HoldsWhileItLives(t: Table, cid: u64, e: VersionedRecord, latest: u64) {
    if cid in t then t[cid] == e else e.expiresAtMs <= latest
  }

  lemma WriteHolds(t: Table, c: Call, t': Table, a: Answer, cid: u64)
    requires Next(t, c, t', a) && Wrote(c, a, cid)
    ensures a.outcome.value.record == c.op.record && a.outcome.value.expiresAtMs == EndOfLife(c.now, c.op.ttlMs)
    ensures HoldsWhileItLives(t', cid, a.outcome.value, c.now)
  {
    var e := Effect(t, c, a);
    assert cid in e && e[cid] == a.outcome.value;
  }

  lemma OtherCallHolds(t: Table, c: Call, t': Table, a: Answer, cid: u64, e: VersionedRecord, latest: u64)
    requires Next(t, c, t', a) && latest <= c.now && HoldsWhileItLives(t, cid, e, latest)
    requires !Wrote(c, a, cid) && c.op != Delete(cid)
    ensures HoldsWhileItLives(t', cid, e, c.now)
  {
    var after := Effect(t, c, a);
    assert cid in after ==> cid in t && after[cid] == e;
    assert cid in t && cid !in after ==> cid in Expired(t, c.now);
  }

  lemma {:induction false} HeldUntil(h: History, calls: seq<Call>, cid: u64, i: nat, k: nat)
    requires IsRun(h, calls) && ClockRuns(calls) && i < k < |calls|
    requires Wrote(calls[i], h.answers[i], cid) && Untouched(calls, h.answers, cid, i, k)
    ensures HoldsWhileItLives(h.tables[k], cid, h.answers[i].outcome.value, calls[k - 1].now)
    decreases k
  {
    hide Next, HoldsWhileItLives;
    assert StepOf(h, calls, k - 1);
    if k - 1 == i {
      WriteHolds(h.tables[i], calls[i], h.tables[k], h.answers[i], cid);
    } else {
      HeldUntil(h, calls, cid, i, k - 1);
      OtherCallHolds(h.tables[k - 1], calls[k - 1], h.tables[k], h.answers[k - 1], cid,
                     h.answers[i].outcome.value, calls[k - 2].now);
    }
  }

  /** Over every history with a clock that does not go back, of any store of the interface: a
      load of an id answers the record last written, under the version that write returned, if
      and only if it comes before the end of the record's time to live, else nothing. Nothing
      but a write or a deletion of the id changes that. */
  lemma LoadAnswersLastWrite(h: History, calls: seq<Call>, cid: u64, i: nat, k: nat)
    requires IsRun(h, calls) && ClockRuns(calls) && i < k < |calls|
    requires Wrote(calls[i], h.answers[i], cid) && Untouched(calls, h.answers, cid, i, k)
    requires calls[k].op == Load(cid)
    ensures var w := calls[i].op;
      h.answers[k] == Loaded(
        if calls[k].now < EndOfLife(calls[i].now, w.ttlMs)
        then Some(VersionedRecord(h.answers[i].outcome.value.version, w.record, EndOfLife(calls[i].now, w.ttlMs)))
        else None)
  {
    assert StepOf(h, calls, i) && StepOf(h, calls, k);
    WriteHolds(h.tables[i], calls[i], h.tables[i + 1], h.answers[i], cid);
    HeldUntil(h, calls, cid, i, k);
  }

  lemma {:induction false} GoneUntil(h: History, calls: seq<Call>, cid: u64, i: nat, k: nat)
    requires IsRun(h, calls) && i < k < |calls|
    requires calls[i].op == Delete(cid) && Untouched(calls, h.answers, cid, i, k)
    ensures cid !in h.tables[k]
    decreases k
  {
    assert StepOf(h, calls, k - 1);
    if k - 1 > i {
      GoneUntil(h, calls, cid, i, k - 1);
    }
  }

  /** A deleted id answers nothing until it is written again. */
  lemma LoadAfterDeleteAnswersNothing(h: History, calls: seq<Call>, cid: u64, i: nat, k: nat)
    requires IsRun(h, calls) && i < k < |calls|
    requires calls[i].op == Delete(cid) && Untouched(calls, h.answers, cid, i, k)
    requires calls[k].op == Load(cid)
    ensures h.answers[k] == Loaded(None)
  {
    assert StepOf(h, calls, k);
    GoneUntil(h, calls, cid, i, k);
  }

  /** A write that follows a load of the same moment continues from its answer: the version is
      one more than the one loaded, or 1 where nothing was; and a swap succeeds if and only if
      it expects what was loaded, else it reports both versions. */
  lemma WriteContinuesLoad(h: History, calls: seq<Call>, cid: u64, i: nat)
    requires IsRun(h, calls) && i + 1 < |calls| && calls[i + 1].now == calls[i].now && calls[i].op == Load(cid)
    requires (calls[i + 1].op.Upsert? || calls[i + 1].op.CompareAndSwap?) && calls[i + 1].op.cid == cid
    ensures h.answers[i].Loaded?
    ensures var w := calls[i + 1].op;
      var found := h.answers[i].found;
      var loaded := if found.Some? then Some(found.value.version) else None;
      var version :=
        if found.None? then 1 else if found.value.version < U64_MAX then found.value.version + 1 else U64_MAX;
      h.answers[i + 1] == Written(
        if w.CompareAndSwap? && w.expected != loaded then Err(CasConflict(w.expected, loaded))
        else Ok(VersionedRecord(version, w.record, EndOfLife(calls[i].now, w.ttlMs))))
  {
    assert StepOf(h, calls, i) && StepOf(h, calls, i + 1);
    var t, t' := h.tables[i], h.tables[i + 1];
    assert Live(t', cid, calls[i].now) == Live(t, cid, calls[i].now);
  }
}
