module TaskLevels {

  // Scheduler::levelSchedule: splits a sorted task list by longest distance from a source.

  import opened TaskGraph
  import opened Scheduler

  /** The tasks of a list that are on level l, in list order. */
  function AtLevel(level: map<Task, nat>, tasks: seq<Task>, l: nat): seq<Task> {
    if tasks == [] then [] else
    var t := tasks[|tasks| - 1];
    AtLevel(level, tasks[..|tasks| - 1], l) + if t in level && level[t] == l then [t] else []
  }

  lemma {:induction false} AtLevelAppend(level: map<Task, nat>, tasks: seq<Task>, t: Task, l: nat)
    ensures AtLevel(level, tasks + [t], l) == AtLevel(level, tasks, l) + if t in level && level[t] == l then [t] else []
  {
    assert (tasks + [t])[..|tasks|] == tasks;
  }

  /** Each task of the list is on exactly one level, once. */
  lemma {:induction false} LevelsPartition(level: map<Task, nat>, tasks: seq<Task>, l: nat)
    requires Distinct(tasks) && forall t :: t in tasks ==> t in level
    ensures Distinct(AtLevel(level, tasks, l))
    ensures forall t :: t in AtLevel(level, tasks, l) <==> t in tasks && level[t] == l
  {
    if tasks != [] {
      var n := |tasks| - 1;
      assert tasks == tasks[..n] + [tasks[n]] && tasks[n] !in tasks[..n];
      LevelsPartition(level, tasks[..n], l);
    }
  }

  method MaxDistance(time: map<Task, nat>, befores: seq<Task>) returns (maxdist: nat)
    ensures maxdist == MaxLevel(time, befores)
  {
    maxdist := 0;
    for i := 0 to |befores|
      invariant maxdist == MaxLevel(time, befores[..i])
    {
      assert befores[..i + 1][..i] == befores[..i];
      if befores[i] in time && time[befores[i]] > maxdist {
        maxdist := time[befores[i]];
      }
    }
    assert befores[..|befores|] == befores;
  }

  method Distances(tasks: seq<Task>, inEdges: Edges) returns (time: map<Task, nat>)
    ensures time == Levels(inEdges, tasks)
  {
    time := map[];
    for i := 0 to |tasks|
      invariant time == Levels(inEdges, tasks[..i])
    {
      LevelsAppend(inEdges, tasks[..i], tasks[i]);
      assert tasks[..i + 1] == tasks[..i] + [tasks[i]];
      if Get(inEdges, tasks[i]) == [] {
        time := time[tasks[i] := 0];
      } else {
        var maxdist := MaxDistance(time, Get(inEdges, tasks[i]));
        time := time[tasks[i] := maxdist + 1];
      }
    }
    assert tasks[..|tasks|] == tasks;
  }

  /** The levels; their number is taken from the last task, so every level index is in range only
      because the levels of a sorted list climb. */
  method LevelSchedule(tasks: seq<Task>, inEdges: Edges) returns (levels: seq<seq<Task>>)
    requires tasks != [] && Climbing(Levels(inEdges, tasks), tasks)
    ensures |levels| == Levels(inEdges, tasks)[tasks[|tasks| - 1]] + 1
    ensures forall l :: 0 <= l < |levels| ==> levels[l] == AtLevel(Levels(inEdges, tasks), tasks, l)
    ensures forall t :: t in tasks ==> Levels(inEdges, tasks)[t] < |levels|
  {
    var time := Distances(tasks, inEdges);
    levels := seq(time[tasks[|tasks| - 1]] + 1, l => []);
    for i := 0 to |tasks|
      invariant |levels| == time[tasks[|tasks| - 1]] + 1
      invariant forall l :: 0 <= l < |levels| ==> levels[l] == AtLevel(time, tasks[..i], l)
    {
      assert tasks[..i + 1] == tasks[..i] + [tasks[i]];
      var d := time[tasks[i]];
      forall l | 0 <= l < |levels|
        ensures AtLevel(time, tasks[..i + 1], l) == levels[l] + if d == l then [tasks[i]] else []
      {
        AtLevelAppend(time, tasks[..i], tasks[i], l);
      }
      levels := levels[d := levels[d] + [tasks[i]]];
    }
    assert tasks[..|tasks|] == tasks;
  }

  /** An order of the same tasks in which the levels climb respects all edges. */
  lemma {:induction false} ClimbingRespects(inEdges: Edges, tasks: seq<Task>, order: seq<Task>)
    requires Distinct(tasks) && Respects(inEdges, tasks) && Climbing(Levels(inEdges, tasks), order)
    requires forall t :: t in order <==> t in tasks
    ensures Respects(inEdges, order)
  {
    forall j, x | 0 <= j < |order| && HasEdge(inEdges, x, order[j]) ensures x in order[..j] {
      assert order[j] in order;
      EdgesClimb(inEdges, tasks, x, order[j]);
      assert x in order;
      var i :| 0 <= i < |order| && order[i] == x;
    }
  }

  /** The tasks without in-edges come first in the sorted list. */
  lemma {:induction false} SourcesFirst(inEdges: Edges, tasks: seq<Task>, i: nat, j: nat)
    requires Distinct(tasks) && Respects(inEdges, tasks) && Climbing(Levels(inEdges, tasks), tasks)
    requires i <= j < |tasks| && Get(inEdges, tasks[j]) == []
    ensures Get(inEdges, tasks[i]) == []
  {
    LevelFromEdges(inEdges, tasks, tasks[i]);
    LevelFromEdges(inEdges, tasks, tasks[j]);
  }
}
