/**
 What one end owes its user and its friend, for every state and every input: which events it reports, what
 the user is shown, which packets it ignores and to which it answers with a Reset.
*/
module Reactions {
  import opened Packets
  import opened Tun
  import opened Endpoint
  import opened Protocol

  // ----------------------------------------------------------------- what is shown

  /** The state shown says exactly whether there is a connection, whether it has an address, and whose
      request it began with. */
  predicate ShownRight(e: End) {
    && (Shown(e) == Disconnected <==> e.Idle?)
    && (Shown(e) == ShownConnected <==> e.Up? && e.s.ip.Some?)
    && (Shown(e) == FriendIsRinging <==> e.Up? && !e.s.initiator && e.s.ip.None?)
    && (Shown(e) == RingingAtFriend <==> e.Up? && e.s.initiator && e.s.ip.None?)
  }

  lemma ShownExactly(e: End)
    requires WellFormed(e)
    ensures ShownRight(e)
  {
  }

  /** At every moment of every run, at both ends. */
  lemma ShownInEveryRun(steps: seq<Step>)
    ensures ShownRight(Run(START, steps).me) && ShownRight(Run(START, steps).peer)
  {
    ShownExactly(Run(START, steps).me);
    ShownExactly(Run(START, steps).peer);
  }

  // --------------------------------------------------------------- coming up, going down

  /** A connection comes up exactly when a request arrives or is sent and there is a tun device for it; the
      user is told of an arriving one. */
  lemma ComesUpExactly(input: Input, call: Call, env: Env)
    ensures var r := React(Idle, input, env);
      && (r.end.Up? <==> input == Control(Request) && env.tunOk)
      && (r.end.Up? ==> r == Reaction(Up(NewSession(false)), [], [ConnectionRequested]))
      && (r.end.Idle? ==> r == Reaction(Idle, Say(Reset, env.goodbyeOk && input != Control(Reset)), []))
    ensures var r := UserCall(Idle, call, env);
      && (r.end.Up? <==> call == RequestConnection && env.tunOk && env.sendOk)
      && r == if r.end.Up? then Reaction(Up(NewSession(true)), [Request], []) else Reaction(Idle, [], [])
  {
  }

  /** A packet that ends a connection is reported by exactly one event: Rejected if it is the rejection of the
      own request, otherwise Closed. Coming to be connected is the only other thing that is reported. */
  lemma PacketsReportedExactly(e: End, input: Input, env: Env)
    requires WellFormed(e) && e.Up?
    ensures var r := React(e, input, env);
      r.events ==
        if r.end.Idle? then
          [if input == Control(Reject) && e.s.phase == OwnRequestPending then ConnectionRejected else ConnectionClosed]
        else if e.s.phase != Connected && r.end.s.phase == Connected then [ConnectionAccepted]
        else []
  {
    match input
    case Control(Accept) =>
    case Control(IpReject) =>
    case Control(m) =>
    case _ =>
  }

  /** The call ends the own connection: closing, rejecting, or accepting what is not a pending request. */
  predicate HangsUp(e: End, call: Call) {
    e.Up? && (call == CloseConnection || call == RejectConnection
              || (call == AcceptConnection && e.s.phase != FriendsRequestPending))
  }

  /** The goodbye by state. */
  function GoodbyeFrom(phase: Phase): Msg {
    match phase
    case FriendsRequestPending => Reject
    case Connected => Close
    case _ => Reset
  }

  /** Hanging up sends the goodbye of the state; the own user is told nothing of the end of a ringing or
      connected session, and Closed of any other. */
  lemma HangUpReported(e: End, call: Call, env: Env)
    requires WellFormed(e) && HangsUp(e, call)
    ensures UserCall(e, call, env) ==
      Reaction(Idle, Say(GoodbyeFrom(e.s.phase), env.goodbyeOk),
               if IsUp(e, FriendsRequestPending) || IsUp(e, Connected) then [] else [ConnectionClosed])
  {
  }

  /** Accepting a pending request goes on to the negotiation, without an event; if the acceptance cannot be
      sent, the friend is sent a Reset and the user is told that the connection is closed. */
  lemma AcceptReported(e: End, env: Env)
    requires WellFormed(e) && IsUp(e, FriendsRequestPending)
    ensures UserCall(e, AcceptConnection, env) ==
      if env.sendOk then Reaction(Up(Session(ExpectingIpPacket, false, -1, None)), [Msg.Accept], [])
      else Reaction(Idle, Say(Reset, env.goodbyeOk), [ConnectionClosed])
  {
  }

  /** A second request changes nothing. */
  lemma SecondRequestIgnored(e: End, env: Env)
    requires e.Up?
    ensures UserCall(e, RequestConnection, env) == Reaction(e, [], [])
  {
  }

  // ----------------------------------------------- expected, ignored, answered with Reset

  /** The states in which a packet has its place. */
  predicate Expected(phase: Phase, input: Input) {
    match input
    case Control(Accept) => phase == OwnRequestPending
    case Control(Reject) => phase == OwnRequestPending
    case Control(Close) => phase == Connected
    case Control(IpProposal(_, _)) => phase == ExpectingIpPacket
    case Control(IpAccept) => phase == ExpectingIpConfirmation
    case Control(IpReject) => phase == ExpectingIpConfirmation
    case BadProposal => phase == ExpectingIpPacket
    case Payload => phase == Connected
    case _ => true
  }

  /** An expected packet whose answer cannot be sent, or for which no subnet is left to propose. */
  predicate CannotGoOn(s: Session, input: Input, env: Env)
    requires -1 <= s.subnet <= 255
  {
    match input
    case Control(Accept) => !env.sendOk || NextFree(s.subnet, env.free) == 256
    case Control(IpReject) => !env.sendOk || NextFree(s.subnet, env.free) == 256
    case Control(IpProposal(_, _)) => !env.sendOk
    case _ => false
  }

  /** An open connection is given up with a Reset exactly when a packet has no place in its state or cannot
      be answered. */
  lemma ResetsExactly(e: End, input: Input, env: Env)
    requires WellFormed(e) && e.Up?
    ensures -1 <= e.s.subnet <= 255
    ensures var giveUp := !Expected(e.s.phase, input) || CannotGoOn(e.s, input, env);
      && (giveUp ==> React(e, input, env) == Reaction(Idle, Say(Reset, env.goodbyeOk), [ConnectionClosed]))
      && (!giveUp ==> Reset !in React(e, input, env).out)
  {
  }

  /** An open connection is left exactly as it is by a second request, by what is no payload and no control
      packet, by a proposal of the wrong size where a proposal is expected, and by payload when connected. */
  lemma IgnoredExactly(e: End, input: Input, env: Env)
    requires WellFormed(e) && e.Up?
    ensures React(e, input, env) == Reaction(e, [], []) <==>
      || input == Control(Request) || input == Noise
      || (input == BadProposal && e.s.phase == ExpectingIpPacket)
      || (input == Payload && e.s.phase == Connected)
  {
  }

  /** A proposal is accepted exactly when the proposed subnet is free here, and then its address is taken. */
  lemma ProposalAnswered(e: End, subnet: byte, postfix: byte, env: Env)
    requires WellFormed(e) && IsUp(e, ExpectingIpPacket) && env.sendOk
    ensures var r := React(e, Control(IpProposal(subnet, postfix)), env);
      if subnet in env.free then r.out == [IpAccept] && r.end.Up? && r.end.s.ip == Some(Address(subnet, postfix))
      else r.out == [IpReject] && r.end == e
  {
  }
}
