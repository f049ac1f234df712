/** What a poll of the client runtime gives its caller: exactly what the machine alone gives out
    when the due timers fire one after another. */
module ClientPolls {
  import opened Protocol
  import opened CoreSpec
  import opened MachineRuns
  import opened TimerWheel
  import opened CoreTimers
  import opened ClientRuntime

  /** The due entries as inputs of a machine. */
  function Timers(now: nat, due: seq<(nat, TimerId)>): (inputs: seq<Input>)
    ensures |inputs| == |due|
    ensures forall i :: 0 <= i < |due| ==> inputs[i] == Timer(now, due[i].1)
  {
    seq(|due|, i requires 0 <= i < |due| => Timer(now, due[i].1))
  }

  lemma RunOne(t: Trace, now: nat, id: TimerId)
    ensures OnTimer(t.core, now, id).out.Ok?
    ensures var s := OnTimer(t.core, now, id);
      Run(t, [Timer(now, id)]) == Trace(s.core, Plus(t.out, s.out.value))
  {
    hide OnTimer;
    TimerRules(t.core, now, id);
    assert [Timer(now, id)][1..] == [];
    assert Run(Advance(t, Timer(now, id)), []) == Advance(t, Timer(now, id));
  }

  lemma {:induction false} FireAllRuns(c: ClientState, now: nat, due: seq<(nat, TimerId)>)
    ensures var f := FireAll(c, now, due);
      Run(Trace(c.core, NOTHING), Timers(now, due)) == Trace(f.0.core, f.1)
    decreases |due|
  {
    hide OnTimer;
    if due != [] {
      var n := |due| - 1;
      FireAllRuns(c, now, due[..n]);
      assert Timers(now, due) == Timers(now, due[..n]) + [Timer(now, due[n].1)];
      RunConcat(Trace(c.core, NOTHING), Timers(now, due[..n]), [Timer(now, due[n].1)]);
      var front := FireAll(c, now, due[..n]);
      RunOne(Trace(front.0.core, front.1), now, due[n].1);
    }
  }

  /** A poll leaves the machine where a lone one is after the timers of the due entries, in
      order, and gives out what that one gives out: every datagram, every event, every timer,
      in order, and nothing else. */
  lemma PollIsRunOfDueTimers(c: ClientState, now: nat, limit: nat)
    ensures var p := Poll(c, now, limit);
      Run(Trace(c.core, NOTHING), Timers(now, Due(c.timers, now, limit))) == Trace(p.0.core, p.1)
  {
    hide FireAll, Due;
    FireAllRuns(c, now, Due(c.timers, now, limit));
  }
}
