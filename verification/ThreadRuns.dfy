module ThreadRuns {

  // What the threads did, event by event: each task on the attributes as it finds them, with the time
  // and the step number that it read.

  import opened TaskGraph
  import opened TaskEffects
  import opened ThreadProtocol
  import opened ThreadPlacement

  /** The store after the events of a log, each with its own arguments. */
  function Executed(body: Body, sch: Schedule, log: seq<Event>, st: Store): Store
    requires forall e :: 0 <= e < |log| ==> IsSlot(sch, log[e].slot)
  {
    if log == [] then st else
    assert IsSlot(sch, log[0].slot);
    Executed(body, sch, log[1..], body(sch[log[0].slot.thread][log[0].slot.index].task, log[0].time, log[0].count, st))
  }

  /** The store after the first n calls. */
  function ExecutedCalls(body: Body, sch: Schedule, logs: seq<seq<Event>>, n: nat, st: Store): Store
    requires n <= |logs| && forall k, e :: 0 <= k < |logs| && 0 <= e < |logs[k]| ==> IsSlot(sch, logs[k][e].slot)
  {
    if n == 0 then st else Executed(body, sch, logs[n - 1], ExecutedCalls(body, sch, logs, n - 1, st))
  }

  lemma {:induction false} ExecutedIsEffect(body: Body, sch: Schedule, log: seq<Event>, time: real, k: int, st: Store)
    requires forall e :: 0 <= e < |log| ==> IsSlot(sch, log[e].slot) && log[e].time == time && log[e].count == k
    ensures Executed(body, sch, log, st) == Effect(body, TaskLog(sch, log), time, k, st)
  {
    if log != [] {
      var task := sch[log[0].slot.thread][log[0].slot.index].task;
      ExecutedIsEffect(body, sch, log[1..], time, k, body(task, time, k, st));
      assert TaskLog(sch, log) == [task] + TaskLog(sch, log[1..]);
      EffectFirst(body, task, TaskLog(sch, log[1..]), time, k, st);
    }
  }

  /** In every reachable state, the returned calls did what Parallel says. */
  lemma {:induction false} ParallelIsExecuted(body: Body, sch: Schedule, s: State, n: nat, st: Store)
    requires WellFormed(sch) && Reachable(sch, s) && n <= |s.past|
    ensures |s.past| <= |s.times|
    ensures forall k, e :: 0 <= k < |s.past| && 0 <= e < |s.past[k]| ==> IsSlot(sch, s.past[k][e].slot)
    ensures ExecutedCalls(body, sch, s.past, n, st) == Parallel(body, sch, s.past, s.times, n, st)
  {
    hide WellFormed, Reachable, IsSlot, CompleteLog;
    LogsInRange(sch, s);
    if n > 0 {
      ParallelIsExecuted(body, sch, s, n - 1, st);
      ArgumentsOf(sch, s.past[n - 1], s.times[n - 1], n - 1);
      ExecutedIsEffect(body, sch, s.past[n - 1], s.times[n - 1], n - 1, ExecutedCalls(body, sch, s.past, n - 1, st));
    }
  }

  lemma ArgumentsOf(sch: Schedule, log: seq<Event>, time: real, k: int)
    requires CompleteLog(sch, log, time, k)
    ensures forall e :: 0 <= e < |log| ==> log[e].time == time && log[e].count == k
  {
  }

  /** SequentialScheduler, called step after step. */
  method SequentialSteps(body: Body, order: seq<Task>, times: seq<real>, st: Store) returns (st': Store)
    ensures st' == Sequential(body, order, times, |times|, st)
  {
    st' := st;
    for n := 0 to |times|
      invariant st' == Sequential(body, order, times, n, st)
    {
      st' := SequentialStep(body, order, times[n], n, st');
    }
  }
}
