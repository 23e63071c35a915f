/**
 Control traffic dies out: without further user calls and without new payload, only finitely many
 deliveries are possible from any state, and once they are over nobody is stuck.
*/
module Quiescence {
  import opened Packets
  import opened Endpoint
  import opened Protocol
  import opened Agreement

  /** A Reset provokes nothing; every other packet at most a Reset, except a proposal, which may be
      refused, and refusals and acceptances, whose new proposals the initiator's budget pays for. */
  function Weight(m: Msg): nat {
    match m
    case Reset => 1
    case IpProposal(_, _) => 3
    case _ => 2
  }

  function ChannelWeight(c: seq<Msg>): nat {
    if c == [] then 0 else Weight(c[0]) + ChannelWeight(c[1..])
  }

  /** What an initiator's remaining subnets may still cost. */
  function Budget(e: End): nat {
    if IsUp(e, OwnRequestPending) || IsUp(e, ExpectingIpConfirmation) then
      if -1 <= e.s.subnet <= 256 then 3 * (256 - e.s.subnet) else 0
    else 0
  }

  function Measure(w: World): nat {
    Budget(w.me) + Budget(w.peer) + ChannelWeight(w.out) + ChannelWeight(w.inn) + 2 * w.lossyOut + 2 * w.lossyIn
  }

  /** A packet is taken out of a channel: read, or lost on a lossy one. */
  predicate TakesPacket(w: World, step: Step) {
    var v := if step.mine then w else Mirror(w);
    match step.act
    case Deliver => v.inn != []
    case DeliverLossy(_) => v.lossyIn > 0
    case LoseLossy => v.lossyIn > 0
    case _ => false
  }

  lemma {:induction false} ChannelWeightAppend(c: seq<Msg>, out: seq<Msg>)
    ensures ChannelWeight(c + out) == ChannelWeight(c) + ChannelWeight(out)
  {
    if c == [] {
      assert c + out == out;
    } else {
      assert (c + out)[1..] == c[1..] + out;
      ChannelWeightAppend(c[1..], out);
    }
  }

  lemma ChannelWeightShort(out: seq<Msg>)
    requires |out| <= 1
    ensures ChannelWeight(out) == if out == [] then 0 else Weight(out[0])
  {
  }

  /** Reading a control packet costs more than what the reaction puts back. */
  lemma ReadingPays(e: End, m: Msg, env: Env)
    requires WellFormed(e)
    ensures var r := React(e, Control(m), env);
      Budget(r.end) + ChannelWeight(r.out) < Budget(e) + Weight(m)
  {
    var r := React(e, Control(m), env);
    ReactKeepsShape(e, Control(m), env);
    ChannelWeightShort(r.out);
  }

  lemma LossyPays(e: End, input: Input, env: Env)
    requires WellFormed(e) && (input == Payload || input == Noise)
    ensures var r := React(e, input, env);
      Budget(r.end) + ChannelWeight(r.out) <= Budget(e) + 1
  {
    var r := React(e, input, env);
    ReactKeepsShape(e, input, env);
    ChannelWeightShort(r.out);
  }

  lemma StepPays(w: World, step: Step)
    requires Sound(w) && TakesPacket(w, step)
    ensures Measure(Next(w, step)) < Measure(w)
  {
    var v := if step.mine then w else Mirror(w);
    match step.act
    case Deliver =>
      ReadingPays(v.me, v.inn[0], step.env);
      ChannelWeightAppend(v.out, React(v.me, Control(v.inn[0]), step.env).out);
    case DeliverLossy(payload) =>
      var input := if payload then Payload else Noise;
      LossyPays(v.me, input, step.env);
      ChannelWeightAppend(v.out, React(v.me, input, step.env).out);
    case LoseLossy =>
  }

  /** Every step of the run takes a packet out of a channel. */
  predicate OnlyDeliveries(w: World, steps: seq<Step>)
    requires Sound(w)
    decreases |steps|
  {
    steps == [] || (TakesPacket(w, steps[0]) && (SoundKept(w, steps[0]); OnlyDeliveries(Next(w, steps[0]), steps[1..])))
  }

  /** From every state, whatever fails, a run of deliveries is no longer than the measure: no
      packet, and no Reset in particular, is bounced back for ever. */
  lemma {:induction false} TrafficDiesOut(w: World, steps: seq<Step>)
    requires Sound(w) && OnlyDeliveries(w, steps)
    ensures |steps| + Measure(Run(w, steps)) <= Measure(w)
    decreases |steps|
  {
    if steps != [] {
      StepPays(w, steps[0]);
      SoundKept(w, steps[0]);
      TrafficDiesOut(Next(w, steps[0]), steps[1..]);
    }
  }

  /** After any run of the pair, delivering whatever is under way ends after boundedly many
      packets; if no goodbye was lost it ends settled, with both connected together or none. */
  lemma EverySessionSettles(steps: seq<Step>, deliveries: seq<Step>)
    requires GoodbyesSent(steps) && GoodbyesSent(deliveries)
    requires OnlyDeliveries(Run(START, steps), deliveries)
    ensures var before := Run(START, steps); var after := Run(before, deliveries);
      && |deliveries| <= Measure(before)
      && (NoControlInFlight(after) ==> Settled(after))
      && (!NoControlInFlight(after) ==> exists next: Step :: TakesPacket(after, next))
  {
    var before := Run(START, steps);
    var after := Run(before, deliveries);
    TrafficDiesOut(before, deliveries);
    RunAppend(START, steps, deliveries);
    if NoControlInFlight(after) {
      DrainedIsSettled(steps + deliveries);
    } else {
      var env := Env({}, true, true, true);
      assert TakesPacket(after, Step(after.inn != [], Deliver, env));
    }
  }
}
