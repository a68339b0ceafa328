module ThreadCalls {

  // The callers of ThreadScheduler: step takes the arguments it is given, and stop returns only after
  // all workers have returned.

  import opened ThreadProtocol

  /** Thread 0 has joined the workers below u. */
  ghost predicate Joined(pcs: seq<Pc>, u: nat) {
    forall w :: 1 <= w < u && w < |pcs| ==> pcs[w].Gone?
  }

  ghost predicate JoinOk(pcs: seq<Pc>) {
    |pcs| >= 1 && (pcs[0].Join? ==> Joined(pcs, pcs[0].worker)) && (pcs[0].Gone? ==> Joined(pcs, |pcs|))
  }

  lemma MovesOne(sch: Schedule, s: State, t: nat)
    requires ValidReqs(sch) && Shaped(sch, s) && CanMove(sch, s, t)
    ensures Move(sch, s, t).pcs == s.pcs[t := NextPc(sch, s, t)]
  {
    hide NextPc;
  }

  /** Thread 0 gets past a worker only when that worker has returned. */
  lemma MainJoins(sch: Schedule, s: State)
    requires ValidReqs(sch) && Shaped(sch, s) && CanMove(sch, s, 0) && JoinOk(s.pcs)
    ensures JoinOk(s.pcs[0 := NextPc(sch, s, 0)])
  {
  }

  lemma WorkerMoves(sch: Schedule, s: State, t: nat)
    requires ValidReqs(sch) && Shaped(sch, s) && CanMove(sch, s, t) && JoinOk(s.pcs) && t != 0
    ensures JoinOk(s.pcs[t := NextPc(sch, s, t)])
  {
    assert !s.pcs[t].Gone?;
  }

  lemma JoinNext(sch: Schedule, s: State, s': State)
    requires ValidReqs(sch) && Shaped(sch, s) && JoinOk(s.pcs) && Next(sch, s, s')
    ensures JoinOk(s'.pcs)
  {
    if t: nat :| CanMove(sch, s, t) && s' == Move(sch, s, t) {
      MovesOne(sch, s, t);
      hide CanMove, Move, NextPc, Shaped, JoinOk;
      if t == 0 { MainJoins(sch, s); } else { WorkerMoves(sch, s, t); }
    }
  }

  lemma {:induction false} JoinRun(sch: Schedule, run: seq<State>)
    requires IsRun(sch, run) && JoinOk(run[0].pcs)
    ensures JoinOk(run[|run| - 1].pcs)
    decreases |run|
  {
    if |run| > 1 {
      var n := |run| - 1;
      assert IsRun(sch, run[..n]);
      JoinRun(sch, run[..n]);
      assert Next(sch, run[n - 1], run[n - 1 + 1]);
      JoinNext(sch, run[n - 1], run[n]);
    }
  }

  /** When stop has returned, all workers have returned before it. */
  lemma StopJoinsWorkers(sch: Schedule, s: State)
    requires Reachable(sch, s)
    ensures |s.pcs| == |sch| >= 1
    ensures s.pcs[0].Gone? ==> forall w :: 1 <= w < |sch| ==> s.pcs[w].Gone?
  {
    var run :| IsRun(sch, run) && run[0] == Init(sch) && run[|run| - 1] == s;
    JoinRun(sch, run);
  }

  /** Between calls, before stop, step may be called with any time; that time and the number of calls
      before it are what the tasks of the call will see. */
  lemma StepTakesArguments(sch: Schedule, s: State, time: real)
    requires Reachable(sch, s) && |s.pcs| >= 1 && s.pcs[0] == Idle
    ensures var s' := CallStep(s, time);
            && Reachable(sch, s') && s'.time == time && s'.stepCount == |s.past|
            && s'.times == s.times + [time] && s'.past == s.past && s'.pcs[0] == Load
  {
    ReachableInv(sch, s);
    hide Inv;
    var run :| IsRun(sch, run) && run[0] == Init(sch) && run[|run| - 1] == s;
    hide Reachable;
    assert Reachable(sch, s) by { StillReachable(sch, run); }
    assert Next(sch, s, CallStep(s, time));
    ReachableNext(sch, s, CallStep(s, time));
  }

  lemma StillReachable(sch: Schedule, run: seq<State>)
    requires IsRun(sch, run) && run[0] == Init(sch)
    ensures Reachable(sch, run[|run| - 1])
  {
  }
}
