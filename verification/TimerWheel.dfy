/** The timer wheel both runtimes keep: for each deadline the timers that fire then, in the
    order they were scheduled. Polling takes the earliest due entries first. */
module TimerWheel {
  type Wheel<T> = map<nat, seq<T>>

  // ------------------------------------------------------------------ ordered entries

  lemma {:induction false} SetMin(keys: set<nat>) returns (m: nat)
    requires keys != {}
    ensures m in keys && forall k :: k in keys ==> m <= k
  {
    var x :| x in keys;
    var rest := keys - {x};
    m := x;
    if rest != {} {
      var y := SetMin(rest);
      m := if y < x then y else x;
    }
    assert forall k :: k in keys ==> k == x || k in rest;
  }

  lemma SetHasMin(keys: set<nat>)
    requires keys != {}
    ensures exists m :: m in keys && forall k :: k in keys ==> m <= k
  {
    var m := SetMin(keys);
  }

  function First(keys: set<nat>): (m: nat)
    requires keys != {}
    ensures m in keys && forall k :: k in keys ==> m <= k
  {
    SetHasMin(keys);
    var m :| m in keys && forall k :: k in keys ==> m <= k;
    m
  }

  function Tag<T>(deadline: nat, ids: seq<T>): (es: seq<(nat, T)>)
    ensures |es| == |ids|
    ensures forall i :: 0 <= i < |ids| ==> es[i] == (deadline, ids[i])
  {
    seq(|ids|, i requires 0 <= i < |ids| => (deadline, ids[i]))
  }

  /** The entries of some slots, by deadline and within a slot in scheduling order. */
  function Entries<T>(w: Wheel<T>, keys: set<nat>): seq<(nat, T)>
    requires keys <= w.Keys
    decreases |keys|
  {
    if keys == {} then []
    else
      var k := First(keys);
      Tag(k, w[k]) + Entries(w, keys - {k})
  }

  function DueKeys<T>(w: Wheel<T>, now: nat): set<nat> {
    set d | d in w && d <= now
  }

  function Take<T>(s: seq<T>, n: nat): seq<T> {
    if |s| <= n then s else s[..n]
  }

  /** What one poll takes. */
  function Due<T>(w: Wheel<T>, now: nat, limit: nat): seq<(nat, T)> {
    Take(Entries(w, DueKeys(w, now)), limit)
  }

  /** How often an entry is in the wheel. */
  ghost function Count<T>(w: Wheel<T>, deadline: nat, id: T): nat {
    if deadline in w then multiset(w[deadline])[id] else 0
  }

  lemma {:induction false} TagCounts<T>(d: nat, ids: seq<T>, deadline: nat, id: T)
    ensures multiset(Tag(d, ids))[(deadline, id)] == if d == deadline then multiset(ids)[id] else 0
  {
    if ids != [] {
      var n := |ids| - 1;
      TagCounts(d, ids[..n], deadline, id);
      assert ids == ids[..n] + [ids[n]];
      assert Tag(d, ids) == Tag(d, ids[..n]) + [(d, ids[n])];
    }
  }

  /** The listing of some slots holds each of their entries as often as the wheel does. */
  lemma {:induction false} EntriesCount<T>(w: Wheel<T>, keys: set<nat>, deadline: nat, id: T)
    requires keys <= w.Keys
    ensures multiset(Entries(w, keys))[(deadline, id)] == if deadline in keys then Count(w, deadline, id) else 0
    decreases |keys|
  {
    if keys != {} {
      var k := First(keys);
      TagCounts(k, w[k], deadline, id);
      EntriesCount(w, keys - {k}, deadline, id);
    }
  }

  lemma {:induction false} EntriesAreOrdered<T>(w: Wheel<T>, keys: set<nat>)
    requires keys <= w.Keys
    ensures forall i :: 0 <= i < |Entries(w, keys)| ==> Entries(w, keys)[i].0 in keys
    ensures forall i, j :: 0 <= i <= j < |Entries(w, keys)| ==> Entries(w, keys)[i].0 <= Entries(w, keys)[j].0
    decreases |keys|
  {
    if keys != {} {
      var k := First(keys);
      EntriesAreOrdered(w, keys - {k});
    }
  }

  lemma TakeSplits<T>(s: seq<T>, n: nat)
    ensures s == Take(s, n) + s[|Take(s, n)|..]
    ensures multiset(s) == multiset(Take(s, n)) + multiset(s[|Take(s, n)|..])
  {
    assert s == Take(s, n) + s[|Take(s, n)|..];
  }

  /** An entry is taken no more often than the wheel holds it; a due one taken less often is
      still listed behind those taken. */
  lemma TakenOrBehind<T>(w: Wheel<T>, now: nat, limit: nat, deadline: nat, id: T)
    ensures multiset(Due(w, now, limit))[(deadline, id)] <= Count(w, deadline, id)
    ensures LeftBehind(w, now, limit, deadline, id) ==>
      (deadline, id) in Entries(w, DueKeys(w, now))[|Due(w, now, limit)|..]
  {
    var all := Entries(w, DueKeys(w, now));
    TakeSplits(all, limit);
    EntriesCount(w, DueKeys(w, now), deadline, id);
    if LeftBehind(w, now, limit, deadline, id) {
      assert multiset(all[|Due(w, now, limit)|..])[(deadline, id)] > 0;
    }
  }

  /** Due, but beyond the limit. */
  ghost predicate LeftBehind<T>(w: Wheel<T>, now: nat, limit: nat, deadline: nat, id: T) {
    deadline <= now && multiset(Due(w, now, limit))[(deadline, id)] < Count(w, deadline, id)
  }

  /** A poll takes min(limit, due) entries in deadline order, all due, none more often than it
      is in the wheel, and every due entry it leaves behind is no earlier than any it takes. */
  lemma DueIsEarliest<T>(w: Wheel<T>, now: nat, limit: nat)
    ensures var all := Entries(w, DueKeys(w, now));
      |Due(w, now, limit)| == if |all| <= limit then |all| else limit
    ensures forall i, j :: 0 <= i <= j < |Due(w, now, limit)| ==> Due(w, now, limit)[i].0 <= Due(w, now, limit)[j].0
    ensures forall i :: 0 <= i < |Due(w, now, limit)| ==> Due(w, now, limit)[i].0 <= now
    ensures forall deadline: nat, id :: multiset(Due(w, now, limit))[(deadline, id)] <= Count(w, deadline, id)
    ensures forall deadline: nat, id, i :: (
      LeftBehind(w, now, limit, deadline, id) && 0 <= i < |Due(w, now, limit)| ==> Due(w, now, limit)[i].0 <= deadline)
  {
    hide Entries, LeftBehind, Count;
    var all := Entries(w, DueKeys(w, now));
    var due := Due(w, now, limit);
    EntriesAreOrdered(w, DueKeys(w, now));
    TakeSplits(all, limit);
    forall deadline: nat, id
      ensures multiset(due)[(deadline, id)] <= Count(w, deadline, id)
    {
      TakenOrBehind(w, now, limit, deadline, id);
    }
    forall deadline: nat, id, i | LeftBehind(w, now, limit, deadline, id) && 0 <= i < |due|
      ensures due[i].0 <= deadline
    {
      TakenOrBehind(w, now, limit, deadline, id);
      var rest := all[|due|..];
      var j :| 0 <= j < |rest| && rest[j] == (deadline, id);
      assert all[|due| + j] == rest[j];
    }
  }

  /** With room for all of them, a poll takes every due entry. */
  lemma LargePollTakesAll<T>(w: Wheel<T>, now: nat, limit: nat, deadline: nat, id: T)
    requires Count(w, deadline, id) > 0 && deadline <= now && |Entries(w, DueKeys(w, now))| <= limit
    ensures (deadline, id) in Due(w, now, limit)
  {
    EntriesCount(w, DueKeys(w, now), deadline, id);
  }

  lemma EntriesUnfold<T>(w: Wheel<T>, keys: set<nat>)
    requires keys <= w.Keys && keys != {}
    ensures Entries(w, keys) == Tag(First(keys), w[First(keys)]) + Entries(w, keys - {First(keys)})
  {
  }

  lemma FirstOfPart(keys: set<nat>, part: set<nat>)
    requires keys != {} && part <= keys && First(keys) in part
    ensures First(part) == First(keys)
  {
  }

  lemma PushedHere<T>(w: Wheel<T>, deadline: nat, id: T, keys: set<nat>)
    requires keys <= w.Keys + {deadline} && deadline in keys && First(keys) == deadline
    ensures PushedAt(Entries(w, keys * w.Keys), Entries(Push(w, deadline, id), keys), deadline, id, |Slot(w, deadline)|)
  {
    hide Entries, First;
    var v := Push(w, deadline, id);
    var rest, had := keys - {deadline}, keys * w.Keys;
    EntriesUnfold(v, keys);
    SameEntries(w, v, rest);
    EntriesAreOrdered(w, rest);
    assert Tag(deadline, v[deadline]) == Tag(deadline, Slot(w, deadline)) + [(deadline, id)];
    if deadline in w {
      FirstOfPart(keys, had);
      EntriesUnfold(w, had);
      assert had - {deadline} == rest;
    } else {
      assert had == rest;
    }
    assert Entries(w, had) == Tag(deadline, Slot(w, deadline)) + Entries(w, rest);
    LaterThanFirst(keys, w, rest);
  }

  lemma LaterThanFirst<T>(keys: set<nat>, w: Wheel<T>, rest: set<nat>)
    requires keys != {} && rest == keys - {First(keys)} && rest <= w.Keys
    ensures forall i :: 0 <= i < |Entries(w, rest)| ==> Entries(w, rest)[i].0 > First(keys)
  {
    hide Entries;
    EntriesAreOrdered(w, rest);
  }

  /** An entry scheduled is listed behind all entries of its deadline and earlier ones, and
      before all later ones: of one deadline, what was scheduled first fires first. */
  lemma {:induction false} PushedComesLast<T>(w: Wheel<T>, deadline: nat, id: T, keys: set<nat>)
    requires keys <= w.Keys + {deadline} && deadline in keys
    ensures exists k :: PushedAt(Entries(w, keys * w.Keys), Entries(Push(w, deadline, id), keys), deadline, id, k)
    decreases |keys|
  {
    hide Entries, First, PushedAt;
    var first := First(keys);
    if first == deadline {
      PushedHere(w, deadline, id, keys);
    } else {
      FirstIsLeast(keys, deadline);
      var rest, had := keys - {first}, keys * w.Keys;
      PushedComesLast(w, deadline, id, rest);
      FirstOfPart(keys, had);
      assert rest * w.Keys == had - {first};
      var v := Push(w, deadline, id);
      EntriesUnfold(w, had);
      EntriesUnfold(v, keys);
      var a, b := Entries(w, rest * w.Keys), Entries(v, rest);
      var k :| PushedAt(a, b, deadline, id, k);
      PushedBehind(Tag(first, w[first]), a, b, deadline, id, k);
    }
  }

  lemma FirstIsLeast(keys: set<nat>, k: nat)
    requires k in keys
    ensures First(keys) in keys && First(keys) <= k
  {
  }

  /** `b` is `a` with the entry put in at `k`, between what is due no later and what is due
      later. */
  ghost predicate PushedAt<T>(a: seq<(nat, T)>, b: seq<(nat, T)>, deadline: nat, id: T, k: nat) {
    && k <= |a| && b == a[..k] + [(deadline, id)] + a[k..]
    && (forall i :: 0 <= i < k ==> a[i].0 <= deadline) && (forall i :: k <= i < |a| ==> a[i].0 > deadline)
  }

  lemma PushedBehind<T>(front: seq<(nat, T)>, a: seq<(nat, T)>, b: seq<(nat, T)>, deadline: nat, id: T, k: nat)
    requires PushedAt(a, b, deadline, id, k) && forall i :: 0 <= i < |front| ==> front[i].0 <= deadline
    ensures PushedAt(front + a, front + b, deadline, id, |front| + k)
  {
    assert (front + a)[..|front| + k] == front + a[..k];
    assert (front + a)[|front| + k..] == a[k..];
  }

  lemma {:induction false} SameEntries<T>(w: Wheel<T>, v: Wheel<T>, keys: set<nat>)
    requires keys <= w.Keys && keys <= v.Keys
    requires forall d :: d in keys ==> w[d] == v[d]
    ensures Entries(w, keys) == Entries(v, keys)
    decreases |keys|
  {
    if keys != {} {
      SameEntries(w, v, keys - {First(keys)});
    }
  }

  // -------------------------------------------------------------------- collecting

  /** Walk the slots in deadline order, collecting until the limit or the first future slot. */
  method CollectDue<T>(w: Wheel<T>, now: nat, limit: nat) returns (due: seq<(nat, T)>)
    ensures due == Due(w, now, limit)
  {
    due := [];
    var left := w.Keys;
    assert DueKeys(w, now) * left == DueKeys(w, now);
    assert [] + Entries(w, DueKeys(w, now)) == Entries(w, DueKeys(w, now));
    while left != {}
      invariant left <= w.Keys && |due| <= limit
      invariant Take(due + Entries(w, DueKeys(w, now) * left), limit) == Due(w, now, limit)
      decreases |left|
    {
      var deadline := First(left);
      if deadline > now || |due| >= limit {
        if deadline > now {
          assert DueKeys(w, now) * left == {};
        }
        break;
      }
      SameFirst(DueKeys(w, now) * left, left, now);
      ghost var rest := Entries(w, DueKeys(w, now) * (left - {deadline}));
      assert DueKeys(w, now) * left - {deadline} == DueKeys(w, now) * (left - {deadline});
      ghost var before := due;
      var ids := w[deadline];
      var i := 0;
      while i < |ids| && |due| < limit
        invariant 0 <= i <= |ids|
        invariant due == before + Tag(deadline, ids)[..i] && |due| <= limit
      {
        due := due + [(deadline, ids[i])];
        i := i + 1;
      }
      TakeKeeps(before, Tag(deadline, ids), i, rest, limit);
      left := left - {deadline};
    }
    if left == {} {
      assert DueKeys(w, now) * left == {};
    }
    assert Take(due + Entries(w, DueKeys(w, now) * left), limit) == due;
  }

  lemma SameFirst(some: set<nat>, all: set<nat>, now: nat)
    requires all != {} && some <= all && First(all) in some
    ensures First(some) == First(all)
  {
  }

  lemma TakeKeeps<T>(before: seq<T>, slot: seq<T>, i: nat, rest: seq<T>, limit: nat)
    requires i <= |slot| && |before| + i <= limit && (i == |slot| || |before| + i == limit)
    ensures Take(before + slot[..i] + rest, limit) == Take(before + (slot + rest), limit)
  {
    if i == |slot| {
      assert slot[..i] == slot;
      assert before + slot + rest == before + (slot + rest);
    } else {
      assert (before + slot[..i] + rest)[..limit] == before + slot[..i];
      assert (before + (slot + rest))[..limit] == before + slot[..i];
    }
  }

  // ------------------------------------------------------------- removing and adding

  function RemoveFirst<T(==)>(s: seq<T>, x: T): seq<T> {
    if s == [] then []
    else if s[0] == x then s[1..]
    else [s[0]] + RemoveFirst(s[1..], x)
  }

  lemma {:induction false} RemoveFirstCounts<T>(s: seq<T>, x: T)
    ensures multiset(RemoveFirst(s, x)) == multiset(s) - multiset{x}
  {
    if s != [] {
      assert s == [s[0]] + s[1..];
      RemoveFirstCounts(s[1..], x);
    }
  }

  /** Take one entry out; a slot that becomes empty goes. */
  function Without<T(==)>(w: Wheel<T>, deadline: nat, id: T): Wheel<T> {
    if deadline !in w then w
    else
      var slot := RemoveFirst(w[deadline], id);
      if slot == [] then w - {deadline} else w[deadline := slot]
  }

  function Slot<T>(w: Wheel<T>, deadline: nat): seq<T> {
    if deadline in w then w[deadline] else []
  }

  function Push<T>(w: Wheel<T>, deadline: nat, id: T): Wheel<T> {
    w[deadline := Slot(w, deadline) + [id]]
  }

  /** Add an entry unless the slot has it. */
  function PushOnce<T(==)>(w: Wheel<T>, deadline: nat, id: T): Wheel<T> {
    if id in Slot(w, deadline) then w else Push(w, deadline, id)
  }

  lemma WithoutCounts<T>(w: Wheel<T>, d: nat, x: T, deadline: nat, id: T)
    ensures Count(Without(w, d, x), deadline, id)
         == if (deadline, id) == (d, x) && Count(w, d, x) > 0 then Count(w, d, x) - 1 else Count(w, deadline, id)
  {
    if d in w {
      RemoveFirstCounts(w[d], x);
    }
  }

  lemma PushCounts<T>(w: Wheel<T>, d: nat, x: T, deadline: nat, id: T)
    ensures Count(Push(w, d, x), deadline, id) == Count(w, deadline, id) + (if (deadline, id) == (d, x) then 1 else 0)
  {
    assert multiset(Slot(w, d) + [x]) == multiset(Slot(w, d)) + multiset{x};
  }

  lemma PushOnceCounts<T>(w: Wheel<T>, d: nat, x: T, deadline: nat, id: T)
    ensures Count(PushOnce(w, d, x), deadline, id)
         == if (deadline, id) == (d, x) && Count(w, d, x) == 0 then 1 else Count(w, deadline, id)
  {
    PushCounts(w, d, x, deadline, id);
    assert x in Slot(w, d) <==> multiset(Slot(w, d))[x] > 0;
  }

  lemma {:induction false} RemoveFirstAt<T>(s: seq<T>, x: T, pos: nat)
    requires pos <= |s| && x !in s[..pos] && (pos == |s| || s[pos] == x)
    ensures RemoveFirst(s, x) == if pos == |s| then s else s[..pos] + s[pos + 1..]
  {
    if pos > 0 {
      var tail := s[1..];
      assert s[0] == s[..pos][0];
      assert tail[..pos - 1] == s[..pos][1..];
      RemoveFirstAt(tail, x, pos - 1);
      if pos < |s| {
        assert [s[0]] + (tail[..pos - 1] + tail[pos..]) == s[..pos] + s[pos + 1..];
      } else {
        assert [s[0]] + tail == s;
      }
    }
  }

  /** Take one entry out as the runtimes do: find its place in the slot, remove it there. */
  method Pop<T(==)>(w: Wheel<T>, deadline: nat, id: T) returns (after: Wheel<T>)
    ensures after == Without(w, deadline, id)
  {
    if deadline !in w {
      return w;
    }
    var slot := w[deadline];
    var pos := 0;
    while pos < |slot| && slot[pos] != id
      invariant 0 <= pos <= |slot|
      invariant id !in slot[..pos]
    {
      pos := pos + 1;
    }
    RemoveFirstAt(slot, id, pos);
    hide RemoveFirst;
    if pos < |slot| {
      slot := slot[..pos] + slot[pos + 1..];
    }
    if slot == [] {
      return w - {deadline};
    }
    return w[deadline := slot];
  }

  // ------------------------------------------------------------- one entry in all slots

  /** How often an entry is in some slots together. */
  ghost function Sum<T>(w: Wheel<T>, id: T, ds: set<nat>): nat
    decreases |ds|
  {
    if ds == {} then 0
    else
      var d := First(ds);
      Count(w, d, id) + Sum(w, id, ds - {d})
  }

  ghost function Total<T>(w: Wheel<T>, id: T): nat {
    Sum(w, id, w.Keys)
  }

  lemma {:induction false} SumSplits<T>(w: Wheel<T>, id: T, ds: set<nat>, d: nat)
    requires d in ds
    ensures Sum(w, id, ds) == Count(w, d, id) + Sum(w, id, ds - {d})
    decreases |ds|
  {
    hide Count;
    var f := First(ds);
    if f != d {
      SumSplits(w, id, ds - {f}, d);
      assert f in ds - {d} && First(ds - {d}) in ds;
      assert ds - {f} - {d} == ds - {d} - {f};
    }
  }

  lemma {:induction false} SumAgrees<T>(v: Wheel<T>, w: Wheel<T>, id: T, ds: set<nat>)
    requires forall d: nat :: d in ds ==> Count(v, d, id) == Count(w, d, id)
    ensures Sum(v, id, ds) == Sum(w, id, ds)
    decreases |ds|
  {
    if ds != {} {
      SumAgrees(v, w, id, ds - {First(ds)});
    }
  }

  lemma {:induction false} SumOverMore<T>(w: Wheel<T>, id: T, ds: set<nat>)
    requires w.Keys <= ds
    ensures Sum(w, id, ds) == Total(w, id)
    decreases |ds|
  {
    var extra := ds - w.Keys;
    if extra == {} {
      assert ds == w.Keys;
    } else {
      var d :| d in extra;
      SumSplits(w, id, ds, d);
      SumOverMore(w, id, ds - {d});
    }
  }

  /** Where two wheels differ in one slot, their totals differ by as much. */
  lemma TotalMoves<T>(v: Wheel<T>, w: Wheel<T>, id: T, d: nat)
    requires forall e: nat :: e != d ==> Count(v, e, id) == Count(w, e, id)
    ensures Total(w, id) - Total(v, id) == Count(w, d, id) - Count(v, d, id)
  {
    hide Count;
    var ds := v.Keys + w.Keys + {d};
    SumOverMore(v, id, ds);
    SumOverMore(w, id, ds);
    SumSplits(v, id, ds, d);
    SumSplits(w, id, ds, d);
    SumAgrees(v, w, id, ds - {d});
  }

  lemma CountWithinTotal<T>(w: Wheel<T>, id: T, d: nat)
    ensures Count(w, d, id) <= Total(w, id)
  {
    if d in w {
      SumSplits(w, id, w.Keys, d);
    }
  }

  lemma {:induction false} SumOfNone<T>(w: Wheel<T>, id: T, ds: set<nat>)
    requires forall d: nat :: d in ds ==> Count(w, d, id) == 0
    ensures Sum(w, id, ds) == 0
    decreases |ds|
  {
    if ds != {} {
      SumOfNone(w, id, ds - {First(ds)});
    }
  }
}
