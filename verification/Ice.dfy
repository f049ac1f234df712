/** The ICE checklist of v3-nat: pairing, ordering, checking and nominating candidates. */
module Ice {
  import opened ByteOrder
  import opened Wrappers

  /** The fields of a candidate the checklist consults. */
  datatype Candidate = Candidate(component: u16, transport: string, priority: u32)

  datatype PairState = Frozen | InProgress | Succeeded | Failed

  datatype Pair = Pair(localIndex: nat, remoteIndex: nat, priority: u64, nominated: bool, state: PairState)

  // -------------------------------------------------------------------- pair priority

  function Min(a: nat, b: nat): nat {
    if a <= b then a else b
  }

  function Max(a: nat, b: nat): nat {
    if a <= b then b else a
  }

  /** The formula of section 6.1.2.3 of RFC 8445, over unbounded numbers. */
  function Formula(local: u32, remote: u32): nat {
    0x1_0000_0000 * Min(local, remote) + 2 * Max(local, remote) + (if local > remote then 1 else 0)
  }

  /** The same in 64-bit arithmetic. */
  function PairPriority(local: u32, remote: u32): u64 {
    Formula(local, remote) % 0x1_0000_0000_0000_0000
  }

  /** The 64-bit sum overflows for exactly one pair of priorities. */
  lemma OverflowExactly(local: u32, remote: u32)
    ensures Formula(local, remote) > U64_MAX <==> local == U32_MAX && remote == U32_MAX
    ensures PairPriority(local, remote) == Formula(local, remote) <==> !(local == U32_MAX && remote == U32_MAX)
  {
  }

  /** First the smaller priority, then the larger, then local above remote. */
  predicate LexLess(l1: nat, r1: nat, l2: nat, r2: nat) {
    || Min(l1, r1) < Min(l2, r2)
    || (Min(l1, r1) == Min(l2, r2) && Max(l1, r1) < Max(l2, r2))
    || (Min(l1, r1) == Min(l2, r2) && Max(l1, r1) == Max(l2, r2) && l1 <= r1 && l2 > r2)
  }

  const MAX_CANDIDATE_PRIORITY: u32 := 0x7FFF_FFFF

  /** The largest bound on priorities under which the order holds; one above the range of
      section 5.1.2 of RFC 8445. */
  const MAX_ORDERED_PRIORITY: u32 := 0x8000_0000

  /** Pair priority orders the two pairs lexicographically, and is equal on no other pair. */
  predicate Ordered(l1: u32, r1: u32, l2: u32, r2: u32) {
    && (PairPriority(l1, r1) < PairPriority(l2, r2) <==> LexLess(l1, r1, l2, r2))
    && (PairPriority(l1, r1) == PairPriority(l2, r2) <==> l1 == l2 && r1 == r2)
  }

  lemma PriorityOrder(l1: u32, r1: u32, l2: u32, r2: u32)
    requires l1 <= MAX_ORDERED_PRIORITY && r1 <= MAX_ORDERED_PRIORITY
    requires l2 <= MAX_ORDERED_PRIORITY && r2 <= MAX_ORDERED_PRIORITY
    ensures Ordered(l1, r1, l2, r2)
  {
    OverflowExactly(l1, r1);
    OverflowExactly(l2, r2);
  }

  /** The order holds for all priorities up to a bound. */
  ghost predicate OrderedUpTo(bound: u32) {
    forall l1: u32, r1: u32, l2: u32, r2: u32 ::
      l1 <= bound && r1 <= bound && l2 <= bound && r2 <= bound ==> Ordered(l1, r1, l2, r2)
  }

  /** Pair priority orders pairs by the smaller priority, then the larger, then local above
      remote, and tells any two pairs apart, for all priorities up to 2^31 and not beyond. */
  lemma OrderedExactlyUpTo(bound: u32)
    ensures OrderedUpTo(bound) <==> bound <= MAX_ORDERED_PRIORITY
    ensures OrderedUpTo(MAX_CANDIDATE_PRIORITY)
    ensures PairPriority(0, MAX_ORDERED_PRIORITY + 1) == PairPriority(1, 1)
  {
    forall l1: u32, r1: u32, l2: u32, r2: u32 |
      (&& l1 <= MAX_ORDERED_PRIORITY && r1 <= MAX_ORDERED_PRIORITY
       && l2 <= MAX_ORDERED_PRIORITY && r2 <= MAX_ORDERED_PRIORITY)
      ensures Ordered(l1, r1, l2, r2)
    {
      PriorityOrder(l1, r1, l2, r2);
    }
    assert !Ordered(0, MAX_ORDERED_PRIORITY + 1, 1, 1);
  }

  // ---------------------------------------------------------------------- the pairs

  predicate Compatible(l: Candidate, r: Candidate) {
    l.component == r.component && l.transport == r.transport
  }

  function FreshPair(local: seq<Candidate>, remote: seq<Candidate>, li: nat, ri: nat): Pair
    requires li < |local| && ri < |remote|
  {
    Pair(li, ri, PairPriority(local[li].priority, remote[ri].priority), false, Frozen)
  }

  /** The pairs of one local candidate with the first `n` remote ones. */
  function Row(local: seq<Candidate>, remote: seq<Candidate>, li: nat, n: nat): seq<Pair>
    requires li < |local| && n <= |remote|
  {
    if n == 0 then []
    else
      Row(local, remote, li, n - 1)
      + (if Compatible(local[li], remote[n - 1]) then [FreshPair(local, remote, li, n - 1)] else [])
  }

  /** The pairs of the first `n` local candidates with all remote ones. */
  function Rows(local: seq<Candidate>, remote: seq<Candidate>, n: nat): seq<Pair>
    requires n <= |local|
  {
    if n == 0 then [] else Rows(local, remote, n - 1) + Row(local, remote, n - 1, |remote|)
  }

  /** Put `p` behind every pair of at least its priority: what a stable descending sort does. */
  function Insert(ps: seq<Pair>, p: Pair): seq<Pair> {
    if ps == [] then [p]
    else if ps[|ps| - 1].priority >= p.priority then ps + [p]
    else Insert(ps[..|ps| - 1], p) + [ps[|ps| - 1]]
  }

  function SortDescending(ps: seq<Pair>): seq<Pair> {
    if ps == [] then [] else Insert(SortDescending(ps[..|ps| - 1]), ps[|ps| - 1])
  }

  /** The position of a pair among those generated. */
  predicate Earlier(p: Pair, q: Pair) {
    p.localIndex < q.localIndex || (p.localIndex == q.localIndex && p.remoteIndex < q.remoteIndex)
  }

  /** The order of a checklist: by descending priority, ties as generated. */
  predicate Before(p: Pair, q: Pair) {
    p.priority > q.priority || (p.priority == q.priority && Earlier(p, q))
  }

  ghost predicate Increasing(ps: seq<Pair>) {
    forall i, j :: 0 <= i < j < |ps| ==> Earlier(ps[i], ps[j])
  }

  ghost predicate Sorted(ps: seq<Pair>) {
    forall i, j :: 0 <= i < j < |ps| ==> Before(ps[i], ps[j])
  }

  /** The pair is one of the generated ones. */
  ghost predicate Pairs(local: seq<Candidate>, remote: seq<Candidate>, p: Pair) {
    && p.localIndex < |local| && p.remoteIndex < |remote|
    && Compatible(local[p.localIndex], remote[p.remoteIndex])
    && p == FreshPair(local, remote, p.localIndex, p.remoteIndex)
  }

  lemma {:induction false} RowIsIncreasing(local: seq<Candidate>, remote: seq<Candidate>, li: nat, n: nat)
    requires li < |local| && n <= |remote|
    ensures Increasing(Row(local, remote, li, n))
    ensures forall p :: p in Row(local, remote, li, n) <==>
      Pairs(local, remote, p) && p.localIndex == li && p.remoteIndex < n
  {
    if n > 0 {
      RowIsIncreasing(local, remote, li, n - 1);
      var front := Row(local, remote, li, n - 1);
      assert forall k :: 0 <= k < |front| ==> front[k] in front;
      var last := FreshPair(local, remote, li, n - 1);
      assert forall p :: p in Row(local, remote, li, n) <==>
        p in front || (Compatible(local[li], remote[n - 1]) && p == last);
    }
  }

  lemma {:induction false} RowsAreIncreasing(local: seq<Candidate>, remote: seq<Candidate>, n: nat)
    requires n <= |local|
    ensures Increasing(Rows(local, remote, n))
    ensures forall p :: p in Rows(local, remote, n) <==> Pairs(local, remote, p) && p.localIndex < n
  {
    hide Row, Compatible, FreshPair;
    if n > 0 {
      RowsAreIncreasing(local, remote, n - 1);
      RowIsIncreasing(local, remote, n - 1, |remote|);
      var above, row := Rows(local, remote, n - 1), Row(local, remote, n - 1, |remote|);
      var all := above + row;
      assert forall k :: 0 <= k < |above| ==> above[k] in above;
      assert forall k :: 0 <= k < |row| ==> row[k] in row;
      assert forall p :: p in all <==> p in above || p in row;
      assert forall p :: Pairs(local, remote, p) ==> p.remoteIndex < |remote|;
    }
  }

  lemma {:induction false} InsertAdds(ps: seq<Pair>, p: Pair)
    ensures multiset(Insert(ps, p)) == multiset(ps) + multiset{p}
  {
    if ps != [] {
      InsertAdds(ps[..|ps| - 1], p);
      assert ps == ps[..|ps| - 1] + [ps[|ps| - 1]];
    }
  }

  lemma SortedAppend(ps: seq<Pair>, last: Pair)
    requires Sorted(ps) && forall q :: q in ps ==> Before(q, last)
    ensures Sorted(ps + [last])
  {
  }

  lemma {:induction false} InsertKeeps(ps: seq<Pair>, p: Pair)
    requires Sorted(ps) && forall q :: q in ps ==> Earlier(q, p)
    ensures Sorted(Insert(ps, p))
    ensures multiset(Insert(ps, p)) == multiset(ps) + multiset{p}
  {
    InsertAdds(ps, p);
    if ps != [] {
      var front, last := ps[..|ps| - 1], ps[|ps| - 1];
      if last.priority >= p.priority {
        assert forall k :: 0 <= k < |ps| ==> ps[k].priority >= last.priority && ps[k] in ps;
        SortedAppend(ps, p);
      } else {
        InsertKeeps(front, p);
        InsertAdds(front, p);
        forall q | q in Insert(front, p)
          ensures Before(q, last)
        {
          assert q in multiset(Insert(front, p));
          assert q == p || q in multiset(front);
        }
        SortedAppend(Insert(front, p), last);
      }
    }
  }

  lemma {:induction false} SortKeeps(ps: seq<Pair>)
    requires Increasing(ps)
    ensures Sorted(SortDescending(ps))
    ensures multiset(SortDescending(ps)) == multiset(ps)
  {
    if ps != [] {
      var front, last := ps[..|ps| - 1], ps[|ps| - 1];
      SortKeeps(front);
      assert ps == front + [last];
      forall q | q in SortDescending(front)
        ensures Earlier(q, last)
      {
        assert q in multiset(front);
      }
      InsertKeeps(SortDescending(front), last);
    }
  }

  function Generated(local: seq<Candidate>, remote: seq<Candidate>): seq<Pair> {
    SortDescending(Rows(local, remote, |local|))
  }

  /** A checklist holds every compatible pair, and only those, each once, highest priority
      first and ties in the order of their indices. */
  lemma ChecklistIsOrderedAndComplete(local: seq<Candidate>, remote: seq<Candidate>)
    ensures Sorted(Generated(local, remote))
    ensures forall p :: p in Generated(local, remote) <==> Pairs(local, remote, p)
    ensures Distinct(Generated(local, remote))
  {
    var rows := Rows(local, remote, |local|);
    RowsAreIncreasing(local, remote, |local|);
    SortKeeps(rows);
    var ps := Generated(local, remote);
    forall p
      ensures p in ps <==> p in rows
    {
      assert p in ps <==> p in multiset(ps);
      assert p in rows <==> p in multiset(rows);
    }
    DistinctPairs(local, remote, ps);
  }

  /** The list has a pair with these indices. */
  ghost predicate Lists(ps: seq<Pair>, li: nat, ri: nat) {
    exists k :: 0 <= k < |ps| && ps[k].localIndex == li && ps[k].remoteIndex == ri
  }

  /** Told by the candidates: two are paired if and only if they agree in component and
      transport; every pair starts frozen, not nominated, with the priority of the two. */
  lemma PairedExactlyWhenAlike(local: seq<Candidate>, remote: seq<Candidate>, li: nat, ri: nat)
    requires li < |local| && ri < |remote|
    ensures Lists(Generated(local, remote), li, ri) <==>
      local[li].component == remote[ri].component && local[li].transport == remote[ri].transport
    ensures forall p :: p in Generated(local, remote) && p.localIndex == li && p.remoteIndex == ri ==>
      p == Pair(li, ri, PairPriority(local[li].priority, remote[ri].priority), false, Frozen)
  {
    hide Generated, PairPriority;
    ChecklistIsOrderedAndComplete(local, remote);
    var ps := Generated(local, remote);
    var p := FreshPair(local, remote, li, ri);
    if Compatible(local[li], remote[ri]) {
      assert Pairs(local, remote, p);
      assert p in ps;
    }
    if Lists(ps, li, ri) {
      var k :| 0 <= k < |ps| && ps[k].localIndex == li && ps[k].remoteIndex == ri;
      assert ps[k] in ps;
    }
  }

  lemma DistinctPairs(local: seq<Candidate>, remote: seq<Candidate>, ps: seq<Pair>)
    requires Sorted(ps) && forall p :: p in ps ==> Pairs(local, remote, p)
    ensures Distinct(ps)
  {
    forall i, j | 0 <= i < j < |ps|
      ensures !Names(ps[j], ps[i].localIndex, ps[i].remoteIndex)
    {
      assert ps[i] in ps && ps[j] in ps;
      assert Before(ps[i], ps[j]);
    }
  }

  // ------------------------------------------------------------- checks and nomination

  predicate Names(p: Pair, li: nat, ri: nat) {
    p.localIndex == li && p.remoteIndex == ri
  }

  ghost predicate Distinct(ps: seq<Pair>) {
    forall i, j :: 0 <= i < j < |ps| ==> !Names(ps[j], ps[i].localIndex, ps[i].remoteIndex)
  }

  /** The first frozen pair, or the length when there is none. */
  function FirstFrozen(ps: seq<Pair>): (k: nat)
    ensures k <= |ps|
    ensures k < |ps| ==> ps[k].state == Frozen
    ensures forall i :: 0 <= i < k ==> ps[i].state != Frozen
  {
    if ps == [] || ps[0].state == Frozen then 0 else 1 + FirstFrozen(ps[1..])
  }

  function FirstNamed(ps: seq<Pair>, li: nat, ri: nat): (k: nat)
    ensures k <= |ps|
    ensures k < |ps| ==> Names(ps[k], li, ri)
    ensures forall i :: 0 <= i < k ==> !Names(ps[i], li, ri)
  {
    if ps == [] || Names(ps[0], li, ri) then 0 else 1 + FirstNamed(ps[1..], li, ri)
  }

  function NextCheck(ps: seq<Pair>): (seq<Pair>, Option<(nat, nat)>) {
    var k := FirstFrozen(ps);
    if k == |ps| then (ps, None)
    else (ps[k := ps[k].(state := InProgress)], Some((ps[k].localIndex, ps[k].remoteIndex)))
  }

  function MarkCheckResult(ps: seq<Pair>, li: nat, ri: nat, ok: bool): seq<Pair> {
    var k := FirstNamed(ps, li, ri);
    if k == |ps| then ps else ps[k := ps[k].(state := if ok then Succeeded else Failed)]
  }

  /** `k` is the succeeded pair of highest priority, the last of them if several tie. */
  ghost predicate IsBest(ps: seq<Pair>, k: nat) {
    && k < |ps| && ps[k].state == Succeeded
    && (forall i :: 0 <= i < |ps| && ps[i].state == Succeeded ==> ps[i].priority <= ps[k].priority)
    && (forall i :: k < i < |ps| && ps[i].state == Succeeded ==> ps[i].priority < ps[k].priority)
  }

  class IceChecklist {
    const local: seq<Candidate>
    const remote: seq<Candidate>
    var pairs: seq<Pair>

    constructor (local: seq<Candidate>, remote: seq<Candidate>)
      ensures this.local == local && this.remote == remote
      ensures pairs == Generated(local, remote)
    {
      var all: seq<Pair> := [];
      var li := 0;
      while li < |local|
        invariant 0 <= li <= |local|
        invariant all == Rows(local, remote, li)
      {
        var ri := 0;
        var before := all;
        while ri < |remote|
          invariant 0 <= ri <= |remote|
          invariant all == before + Row(local, remote, li, ri)
        {
          if Compatible(local[li], remote[ri]) {
            all := all + [Pair(li, ri, PairPriority(local[li].priority, remote[ri].priority), false, Frozen)];
          }
          ri := ri + 1;
        }
        li := li + 1;
      }
      this.local, this.remote := local, remote;
      pairs := SortDescending(all);
    }

    method Next() returns (next: Option<(nat, nat)>)
      modifies this`pairs
      ensures pairs == NextCheck(old(pairs)).0
      ensures next == NextCheck(old(pairs)).1
    {
      var k := 0;
      while k < |pairs| && pairs[k].state != Frozen
        invariant 0 <= k <= |pairs|
        invariant forall i :: 0 <= i < k ==> pairs[i].state != Frozen
      {
        k := k + 1;
      }
      assert k == FirstFrozen(pairs);
      if k == |pairs| {
        return None;
      }
      next := Some((pairs[k].localIndex, pairs[k].remoteIndex));
      pairs := pairs[k := pairs[k].(state := InProgress)];
    }

    method Mark(li: nat, ri: nat, ok: bool)
      modifies this`pairs
      ensures pairs == MarkCheckResult(old(pairs), li, ri, ok)
    {
      var k := 0;
      while k < |pairs| && !Names(pairs[k], li, ri)
        invariant 0 <= k <= |pairs|
        invariant forall i :: 0 <= i < k ==> !Names(pairs[i], li, ri)
      {
        k := k + 1;
      }
      assert k == FirstNamed(pairs, li, ri);
      if k < |pairs| {
        pairs := pairs[k := pairs[k].(state := if ok then Succeeded else Failed)];
      }
    }

    method NominateBest() returns (best: Option<Pair>)
      modifies this`pairs
      ensures best.None? ==> pairs == old(pairs) && forall i :: 0 <= i < |pairs| ==> pairs[i].state != Succeeded
      ensures best.Some? ==> exists k: nat ::
        IsBest(old(pairs), k) && best.value == old(pairs)[k].(nominated := true) && pairs == old(pairs)[k := best.value]
    {
      var found: Option<nat> := None;
      var i := 0;
      while i < |pairs|
        invariant 0 <= i <= |pairs|
        invariant found.None? ==> forall j :: 0 <= j < i ==> pairs[j].state != Succeeded
        invariant found.Some? ==> found.value < i && IsBest(pairs[..i], found.value)
      {
        assert pairs[..i + 1] == pairs[..i] + [pairs[i]];
        if pairs[i].state == Succeeded && (found.None? || pairs[i].priority >= pairs[found.value].priority) {
          found := Some(i);
        }
        i := i + 1;
      }
      if found.None? {
        return None;
      }
      assert pairs[..i] == pairs;
      var k := found.value;
      var chosen := pairs[k].(nominated := true);
      pairs := pairs[k := chosen];
      return Some(chosen);
    }
  }

  /** A state reached by checking the first `n` pairs with the given results. */
  ghost predicate Checked(start: seq<Pair>, ps: seq<Pair>, results: seq<bool>) {
    && |ps| == |start| && |results| <= |start|
    && (forall i :: 0 <= i < |results| ==> ps[i] == start[i].(state := if results[i] then Succeeded else Failed))
    && (forall i :: |results| <= i < |start| ==> ps[i] == start[i])
  }

  /** One round of the loop: take the next check, report its result. */
  function Round(ps: seq<Pair>, ok: bool): (seq<Pair>, Option<(nat, nat)>) {
    var (taken, next) := NextCheck(ps);
    if next.None? then (taken, next) else (MarkCheckResult(taken, next.value.0, next.value.1, ok), next)
  }

  /** The pairs visited, and the list left, by one round for each result. */
  function Rounds(ps: seq<Pair>, results: seq<bool>): (seq<Pair>, seq<Option<(nat, nat)>>) {
    if results == [] then (ps, [])
    else
      var before := Rounds(ps, results[..|results| - 1]);
      var last := Round(before.0, results[|results| - 1]);
      (last.0, before.1 + [last.1])
  }

  lemma RoundChecksNext(start: seq<Pair>, ps: seq<Pair>, results: seq<bool>, ok: bool)
    requires Distinct(start) && (forall i :: 0 <= i < |start| ==> start[i].state == Frozen)
    requires Checked(start, ps, results) && |results| < |start|
    ensures var k := |results|;
      && Round(ps, ok).1 == Some((start[k].localIndex, start[k].remoteIndex))
      && Checked(start, Round(ps, ok).0, results + [ok])
  {
    var k := |results|;
    assert FirstFrozen(ps) == k;
    var taken := ps[k := ps[k].(state := InProgress)];
    var li, ri := start[k].localIndex, start[k].remoteIndex;
    assert Names(taken[k], li, ri);
    forall i | 0 <= i < k
      ensures !Names(taken[i], li, ri)
    {
      assert !Names(start[k], start[i].localIndex, start[i].remoteIndex);
    }
    assert FirstNamed(taken, li, ri) == k;
  }

  lemma {:induction false} RoundsVisitInOrder(start: seq<Pair>, results: seq<bool>)
    requires Distinct(start) && (forall i :: 0 <= i < |start| ==> start[i].state == Frozen)
    requires |results| <= |start|
    ensures Checked(start, Rounds(start, results).0, results)
    ensures |Rounds(start, results).1| == |results|
    ensures forall k :: 0 <= k < |results| ==>
      Rounds(start, results).1[k] == Some((start[k].localIndex, start[k].remoteIndex))
  {
    if results != [] {
      var front, ok := results[..|results| - 1], results[|results| - 1];
      RoundsVisitInOrder(start, front);
      RoundChecksNext(start, Rounds(start, front).0, front, ok);
      assert front + [ok] == results;
    }
  }

  /** The check loop visits every compatible pair exactly once, in checklist order, then has
      nothing left to check; and what `NominateBest` returns is the highest-priority pair
      whose check was reported ok, if there is one. */
  lemma CheckLoopVisitsEachOnce(local: seq<Candidate>, remote: seq<Candidate>, results: seq<bool>)
    requires |results| == |Generated(local, remote)|
    ensures var start := Generated(local, remote);
      var (ps, visits) := Rounds(start, results);
      && |visits| == |start|
      && (forall k :: 0 <= k < |start| ==> visits[k] == Some((start[k].localIndex, start[k].remoteIndex)))
      && NextCheck(ps).1 == None
      && (forall k :: 0 <= k < |start| && IsBest(ps, k) ==>
            results[k] && forall i :: 0 <= i < |results| && results[i] ==> start[i].priority <= start[k].priority)
  {
    hide Generated, Rounds, Distinct;
    var start := Generated(local, remote);
    ChecklistIsOrderedAndComplete(local, remote);
    forall i | 0 <= i < |start|
      ensures start[i].state == Frozen
    {
      assert start[i] in start;
    }
    RoundsVisitInOrder(start, results);
    var ps := Rounds(start, results).0;
    assert Checked(start, ps, results);
    assert FirstFrozen(ps) == |ps|;
    forall k | 0 <= k < |start| && IsBest(ps, k)
      ensures results[k] && forall i :: 0 <= i < |results| && results[i] ==> start[i].priority <= start[k].priority
    {
      forall i | 0 <= i < |results| && results[i]
        ensures start[i].priority <= start[k].priority
      {
        assert ps[i].state == Succeeded;
      }
    }
  }
}
