/**
 Real packets die out too: after any byte-level run only boundedly many packets can be read or lost, and
 when the control channels have drained nobody is stuck half way.
*/
module Settlement {
  import opened Packets
  import opened Endpoint
  import opened BytePair
  import P = Protocol
  import A = Agreement
  import Q = Quiescence
  import D = Delivery

  /** A packet is taken out of a channel: read, or lost on a lossy one. */
  predicate TakesPacket(w: Pair, step: Step) {
    var v := if step.mine then w else Mirror(w);
    match step.act
    case Deliver => v.inn != []
    case DeliverLossy(i) => i < |v.lossyIn|
    case LoseLossy(i) => i < |v.lossyIn|
    case _ => false
  }

  /** Every step of the run takes a packet out of a channel. */
  predicate OnlyDeliveries(w: Pair, steps: seq<Step>)
    requires Sound(w)
    decreases |steps|
  {
    steps == [] ||
    (&& TakesPacket(w, steps[0])
     && (Next(w, steps[0]).Some? ==> (SoundKept(w, steps[0]); OnlyDeliveries(Next(w, steps[0]).value, steps[1..]))))
  }

  lemma AbstractTakes(w: Pair, step: Step)
    requires TakesPacket(w, step)
    ensures Q.TakesPacket(Abstract(w), AbstractStep(w, step))
  {
  }

  lemma {:induction false} AbstractDeliveries(w: Pair, steps: seq<Step>, end: Pair)
    requires Reaches(w, steps, end) && Sound(w) && OnlyDeliveries(w, steps)
    ensures P.Sound(Abstract(w)) && Q.OnlyDeliveries(Abstract(w), AbstractRun(w, steps))
    decreases |steps|
  {
    if steps != [] {
      var w' := Next(w, steps[0]).value;
      AbstractTakes(w, steps[0]);
      StepRefines(w, steps[0]);
      AbstractDeliveries(w', steps[1..], end);
      assert AbstractRun(w, steps)[1..] == AbstractRun(w', steps[1..]);
    }
  }

  /** Some control packet can be read next, and reading it does not end the program. */
  predicate CanRead(w: Pair, step: Step)
    requires Sound(w)
  {
    step.act == Deliver && TakesPacket(w, step) && Next(w, step).Some?
  }

  /** After any byte-level run, deliveries end within the bound of the protocol; as long as control packets
      are under way one can be read; and once they have drained, no goodbye lost, the two ends are
      connected together or nobody is in the middle of anything. */
  lemma BytesSettle(steps: seq<Step>, before: Pair, deliveries: seq<Step>, after: Pair)
    requires Reaches(START, steps, before) && Reaches(before, deliveries, after)
    requires Sound(before) && OnlyDeliveries(before, deliveries)
    requires forall s <- steps + deliveries :: s.env.goodbyeOk
    ensures |deliveries| <= Q.Measure(Abstract(before)) && Sound(after)
    ensures after.out == [] && after.inn == [] ==> A.Settled(Abstract(after))
    ensures after.out != [] || after.inn != [] ==> exists next: Step :: CanRead(after, next)
  {
    var first := RunRefines(START, steps, before);
    var second := RunRefines(before, deliveries, after);
    AbstractDeliveries(before, deliveries, after);
    assert Abstract(START) == P.START;
    AllSent(first, second, steps, deliveries);
    Q.EverySessionSettles(first, second);
    ReachedIsHonest(before, deliveries, after);
    if after.out != [] || after.inn != [] {
      NextRead(after, Step(after.inn != [], Deliver, Env({}, true, true, true)));
    }
  }

  lemma DrainedBytesSettle(steps: seq<Step>, end: Pair)
    requires Reaches(START, steps, end) && end.out == [] && end.inn == []
    requires forall s <- steps :: s.env.goodbyeOk
    ensures A.Settled(Abstract(end))
  {
    ReachedIsHonest(START, steps, end);
    assert steps + [] == steps && Reaches(end, [], end);
    BytesSettle(steps, end, [], end);
  }

  lemma AllSent(first: seq<P.Step>, second: seq<P.Step>, steps: seq<Step>, deliveries: seq<Step>)
    requires |first| == |steps| && |second| == |deliveries|
    requires forall i :: 0 <= i < |steps| ==> first[i].env == steps[i].env
    requires forall i :: 0 <= i < |deliveries| ==> second[i].env == deliveries[i].env
    requires forall s <- steps + deliveries :: s.env.goodbyeOk
    ensures P.GoodbyesSent(first) && P.GoodbyesSent(second)
  {
    forall i | 0 <= i < |steps|
      ensures first[i].env.goodbyeOk
    {
      assert steps[i] in steps + deliveries;
    }
    forall i | 0 <= i < |deliveries|
      ensures second[i].env.goodbyeOk
    {
      assert deliveries[i] in steps + deliveries;
    }
  }

  lemma {:induction false} ReachedIsHonest(w: Pair, steps: seq<Step>, end: Pair)
    requires Reaches(w, steps, end)
    ensures Honest(end)
    decreases |steps|
  {
    if steps != [] { ReachedIsHonest(Next(w, steps[0]).value, steps[1..], end); }
  }

  lemma NextRead(w: Pair, step: Step)
    requires Honest(w) && step.act == Deliver && (if step.mine then w.inn else w.out) != []
    ensures CanRead(w, step)
  {
    MirrorAbstracts(w);
    DeliverRefines(if step.mine then w else Mirror(w), step.env);
  }

  /** On a link that keeps its conditions this holds of every run, without assuming that it goes on. */
  lemma LinkSettles(steps: seq<Step>, deliveries: seq<Step>)
    requires D.LinkHoldsAlong(D.START, steps) && D.Run(D.START, steps).Some?
    requires Sound(D.Run(D.START, steps).value.pair) && D.LinkHoldsAlong(D.Run(D.START, steps).value, deliveries)
    requires OnlyDeliveries(D.Run(D.START, steps).value.pair, deliveries)
    requires forall s <- steps + deliveries :: s.env.goodbyeOk
    ensures var before := D.Run(D.START, steps).value; var end := D.Run(before, deliveries);
      && end.Some? && |deliveries| <= Q.Measure(Abstract(before.pair)) && Sound(end.value.pair)
      && (end.value.pair.out == [] && end.value.pair.inn == [] ==> A.Settled(Abstract(end.value.pair)))
  {
    hide D.Fits;
    var before := D.Run(D.START, steps).value;
    D.StartFits();
    D.RunFits(D.START, steps);
    D.RunFits(before, deliveries);
    BytesSettle(steps, before.pair, deliveries, D.Run(before, deliveries).value.pair);
  }
}
