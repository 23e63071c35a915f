/**
 A session in which nothing goes wrong: one end requests, the other accepts, sends succeed and payload
 does not overtake control packets. Then no "unexpected" branch of the code is ever taken.
*/
module CleanSession {
  import opened Packets
  import opened Endpoint
  import opened Protocol

  /** The branches that log an unexpected packet, and the reply to a packet from a stranger. */
  predicate Unexpected(e: End, input: Input) {
    if e.Idle? then input != Control(Request) && input != Control(Reset)
    else match input
      case Control(Request) => true
      case Control(Accept) => e.s.phase != OwnRequestPending
      case Control(Reject) => e.s.phase != OwnRequestPending
      case Control(Close) => e.s.phase != Connected
      case Control(Reset) => false
      case Control(IpProposal(_, _)) => e.s.phase != ExpectingIpPacket
      case Control(IpAccept) => e.s.phase != ExpectingIpConfirmation
      case Control(IpReject) => e.s.phase != ExpectingIpConfirmation
      case BadProposal => true
      case Payload => e.s.phase != Connected
      case Noise => false
  }

  predicate Trips(w: World, step: Step) {
    var v := if step.mine then w else Mirror(w);
    match step.act
    case Deliver => v.inn != [] && Unexpected(v.me, Control(v.inn[0]))
    case DeliverLossy(payload) => v.lossyIn > 0 && Unexpected(v.me, if payload then Payload else Noise)
    case _ => false
  }

  /** `me` requests while the pair is idle, the peer accepts when it is asked, nobody closes;
      payload is handed over only when no control packet sent earlier is still under way. */
  predicate CleanStep(w: World, step: Step) {
    && step.env.sendOk && step.env.goodbyeOk && step.env.tunOk
    && match step.act
       case User(RequestConnection) => step.mine && w == START
       case User(AcceptConnection) => !step.mine && IsUp(w.peer, FriendsRequestPending)
       case User(_) => false
       case DeliverLossy(_) => if step.mine then w.inn == [] else w.out == []
       case _ => true
  }

  predicate CleanRun(w: World, steps: seq<Step>)
    requires Sound(w)
    decreases |steps|
  {
    steps == [] || (CleanStep(w, steps[0]) && (SoundKept(w, steps[0]); CleanRun(Next(w, steps[0]), steps[1..])))
  }

  /** Every shape a clean session goes through. */
  predicate CleanWorld(w: World) {
    && Sound(w)
    && (w.lossyOut > 0 ==> UpAsInitiator(w.me))
    && (w.lossyIn > 0 ==> Answered(w.peer))
    && if w.me.Idle? then
         w.inn == [] && (if w.out == [] then w == START else w.out == [Reset] && IsUp(w.peer, ExpectingIpPacket))
       else
         && w.me.s.initiator
         && match w.me.s.phase
            case OwnRequestPending =>
              || (w.peer.Idle? && w.out == [Request] && w.inn == [])
              || (IsUp(w.peer, FriendsRequestPending) && w.out == [] && w.inn == [])
              || (IsUp(w.peer, ExpectingIpPacket) && w.out == [] && w.inn == [Accept])
            case ExpectingIpConfirmation =>
              || (IsUp(w.peer, ExpectingIpPacket) && w.out == [IpProposal(w.me.s.subnet, 2)] && w.inn == [])
              || (IsUp(w.peer, ExpectingIpPacket) && w.out == [] && w.inn == [IpReject])
              || (Answered(w.peer) && SameSubnet(w.me, w.peer) && w.out == [] && w.inn == [IpAccept])
            case Connected =>
              Answered(w.peer) && SameSubnet(w.me, w.peer) && w.out == [] && w.inn == []
            case _ => false
  }

  lemma CleanReadByMe(w: World, env: Env)
    requires CleanWorld(w) && CleanStep(w, Step(true, Deliver, env))
    ensures var step := Step(true, Deliver, env); CleanWorld(Next(w, step)) && !Trips(w, step)
  {
    SoundKept(w, Step(true, Deliver, env));
  }

  lemma CleanReadByPeer(w: World, env: Env)
    requires CleanWorld(w) && CleanStep(w, Step(false, Deliver, env))
    ensures var step := Step(false, Deliver, env); CleanWorld(Next(w, step)) && !Trips(w, step)
  {
    SoundKept(w, Step(false, Deliver, env));
  }

  lemma CleanKept(w: World, step: Step)
    requires CleanWorld(w) && CleanStep(w, step)
    ensures CleanWorld(Next(w, step)) && !Trips(w, step)
  {
    SoundKept(w, step);
    if step.act == Deliver {
      if step.mine { CleanReadByMe(w, step.env); } else { CleanReadByPeer(w, step.env); }
    }
  }

  /** From the idle pair, a clean run never trips, and never has more than one control packet under
      way. */
  lemma {:induction false} CleanNeverTrips(w: World, steps: seq<Step>)
    requires CleanWorld(w) && CleanRun(w, steps)
    ensures CleanWorld(Run(w, steps)) && |Run(w, steps).out| + |Run(w, steps).inn| <= 1
    ensures forall next: Step :: CleanStep(Run(w, steps), next) ==> !Trips(Run(w, steps), next)
    decreases |steps|
  {
    if steps == [] {
      forall next: Step | CleanStep(w, next)
        ensures !Trips(w, next)
      {
        CleanKept(w, next);
      }
    } else {
      CleanKept(w, steps[0]);
      CleanNeverTrips(Next(w, steps[0]), steps[1..]);
    }
  }

  /** The condition on payload is exact: in a clean session, payload trips its receiver and ends the
      session if and only if it overtakes the acceptance that is still under way. */
  lemma OvertakingPayloadTrips(w: World, env: Env)
    requires CleanWorld(w) && w.lossyIn > 0
    ensures Trips(w, Step(true, DeliverLossy(true), env)) <==> w.inn != []
    ensures Next(w, Step(true, DeliverLossy(true), env)).me.Idle? <==> w.inn != []
  {
  }

  /** The other direction cannot overtake: an initiator sends payload only after its last control packet was read. */
  lemma InitiatorPayloadNeverTrips(w: World, env: Env, payload: bool)
    requires CleanWorld(w) && w.lossyOut > 0
    ensures !Trips(w, Step(false, DeliverLossy(payload), env))
  {
  }
}
