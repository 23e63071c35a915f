/**
 Concrete runs: the worlds a run goes through, and which worlds a run without a lost goodbye leads to.
*/
module Runs {
  import opened Packets
  import opened Endpoint
  import opened Protocol

  const GOOD := Env(set b: byte | true, true, true, true)

  function Mine(act: Act): Step { Step(true, act, GOOD) }

  function Theirs(act: Act): Step { Step(false, act, GOOD) }

  /** The worlds a run goes through. */
  predicate Path(worlds: seq<World>, steps: seq<Step>) {
    && |worlds| == |steps| + 1
    && (forall i :: 0 <= i < |worlds| ==> Sound(worlds[i]))
    && (forall i :: 0 <= i < |steps| ==> Next(worlds[i], steps[i]) == worlds[i + 1])
  }

  lemma {:induction false} PathRuns(worlds: seq<World>, steps: seq<Step>)
    requires Path(worlds, steps)
    ensures Run(worlds[0], steps) == worlds[|steps|]
    decreases |steps|
  {
    if steps != [] { PathRuns(worlds[1..], steps[1..]); }
  }

  /** Some run without a lost goodbye leads from the start to w. */
  ghost predicate Reachable(w: World) {
    exists steps :: GoodbyesSent(steps) && Run(START, steps) == w
  }

  lemma StartReachable()
    ensures Reachable(START)
  {
    assert GoodbyesSent([]) && Run(START, []) == START;
  }

  lemma PathReaches(worlds: seq<World>, steps: seq<Step>)
    requires Path(worlds, steps) && GoodbyesSent(steps) && Reachable(worlds[0])
    ensures Reachable(worlds[|steps|])
  {
    var before :| GoodbyesSent(before) && Run(START, before) == worlds[0];
    PathRuns(worlds, steps);
    RunAppend(START, before, steps);
    assert GoodbyesSent(before + steps) && Run(START, before + steps) == worlds[|steps|];
  }
}
