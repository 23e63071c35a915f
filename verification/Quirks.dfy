/**
 Concrete runs that mark the edges of the results: what goes wrong when a goodbye is lost, ends that ring
 for nobody, and the states in which an open connection reads a request.
*/
module Quirks {
  import opened Tun
  import opened Endpoint
  import opened Protocol
  import opened Agreement
  import opened Runs
  import opened Callers

  const LOST_GOODBYE := GOOD.(goodbyeOk := false)

  const ASKING := NewSession(true)
  const ASKED := NewSession(false)
  const ACCEPTING := ASKED.(phase := ExpectingIpPacket)
  const OFFERING := ASKING.(phase := ExpectingIpConfirmation, subnet := 0)
  const OWNER := OFFERING.(phase := Connected, ip := Some(Address(0, 1)))
  const GUEST := ASKED.(phase := Connected, ip := Some(Address(0, 2)))

  // ------------------------------------------------------------- a lost goodbye

  const PEER_ACCEPTED := World(Up(ASKING), Up(ACCEPTING), [], [Accept], 0, 0)

  lemma PeerAccepted()
    ensures Reachable(PEER_ACCEPTED)
  {
    var ws := [START,
               World(Up(ASKING), Idle, [Request], [], 0, 0),
               World(Up(ASKING), Up(ASKED), [], [], 0, 0),
               PEER_ACCEPTED];
    var steps := [Mine(User(RequestConnection)), Theirs(Deliver), Theirs(User(AcceptConnection))];
    assert Next(ws[0], steps[0]) == ws[1];
    assert Next(ws[1], steps[1]) == ws[2];
    assert Next(ws[2], steps[2]) == ws[3];
    StartReachable();
    PathReaches(ws, steps);
  }

  const CONNECTED_PAIR := World(Up(OWNER), Up(GUEST), [], [], 0, 0)

  lemma ConnectedPair()
    ensures Reachable(CONNECTED_PAIR)
  {
    var ws := [PEER_ACCEPTED,
               World(Up(OFFERING), Up(ACCEPTING), [IpProposal(0, 2)], [], 0, 0),
               World(Up(OFFERING), Up(GUEST), [], [IpAccept], 0, 0),
               CONNECTED_PAIR];
    var steps := [Mine(Deliver), Theirs(Deliver), Mine(Deliver)];
    assert Next(ws[0], steps[0]) == ws[1];
    assert Next(ws[1], steps[1]) == ws[2];
    assert Next(ws[2], steps[2]) == ws[3];
    PeerAccepted();
    PathReaches(ws, steps);
  }

  /** The condition on goodbyes cannot be dropped: one lost Close leaves the peer connected to nobody
      with nothing under way. */
  lemma LostGoodbyeStrands()
    ensures exists steps ::
      var w := Run(START, steps); NoControlInFlight(w) && IsUp(w.peer, Connected) && !Together(w)
  {
    var close := Step(true, User(CloseConnection), LOST_GOODBYE);
    ConnectedPair();
    var steps :| GoodbyesSent(steps) && Run(START, steps) == CONNECTED_PAIR;
    PathRuns([CONNECTED_PAIR, World(Idle, Up(GUEST), [], [], 0, 0)], [close]);
    RunAppend(START, steps, [close]);
    assert Run(START, steps + [close]) == World(Idle, Up(GUEST), [], [], 0, 0);
  }

  // --------------------------------------------------------- ringing for nobody

  const STALE_PAYLOAD := World(Idle, Idle, [], [], 1, 0)

  lemma StalePayload()
    ensures Reachable(STALE_PAYLOAD)
  {
    var ws := [CONNECTED_PAIR,
               World(Up(OWNER), Up(GUEST), [], [], 1, 0),
               World(Idle, Up(GUEST), [Close], [], 1, 0),
               STALE_PAYLOAD];
    var steps := [Mine(SendPackets(1)), Mine(User(CloseConnection)), Theirs(Deliver)];
    assert Next(ws[0], steps[0]) == ws[1];
    assert Next(ws[1], steps[1]) == ws[2];
    assert Next(ws[2], steps[2]) == ws[3];
    ConnectedPair();
    PathReaches(ws, steps);
  }

  const CALL_ENDED := World(Idle, Idle, [Request], [], 0, 0)

  lemma PayloadEndsCall()
    ensures Reachable(CALL_ENDED)
  {
    var ws := [STALE_PAYLOAD,
               World(Up(ASKING), Idle, [Request], [], 1, 0),
               World(Up(ASKING), Idle, [Request], [Reset], 0, 0),
               CALL_ENDED];
    var steps := [Mine(User(RequestConnection)), Theirs(DeliverLossy(true)), Mine(Deliver)];
    assert Next(ws[0], steps[0]) == ws[1];
    assert Next(ws[1], steps[1]) == ws[2];
    assert Next(ws[2], steps[2]) == ws[3];
    StalePayload();
    PathReaches(ws, steps);
  }

  const RUNG_PAST_PAYLOAD := World(Idle, Up(ASKED), [], [], 0, 0)

  lemma PayloadRings()
    ensures Reachable(RUNG_PAST_PAYLOAD)
  {
    var ws := [CALL_ENDED,
               RUNG_PAST_PAYLOAD];
    var steps := [Theirs(Deliver)];
    assert Next(ws[0], steps[0]) == ws[1];
    PayloadEndsCall();
    PathReaches(ws, steps);
  }

  const RUNG := World(Up(ASKED), Up(ASKING), [], [], 0, 0)

  lemma Rung()
    ensures Reachable(RUNG)
  {
    var ws := [START,
               World(Idle, Up(ASKING), [], [Request], 0, 0),
               RUNG];
    var steps := [Theirs(User(RequestConnection)), Mine(Deliver)];
    assert Next(ws[0], steps[0]) == ws[1];
    assert Next(ws[1], steps[1]) == ws[2];
    StartReachable();
    PathReaches(ws, steps);
  }

  const REJECTED_AND_CLOSED := World(Idle, Idle, [Reject], [Reset], 0, 0)

  lemma Rejected()
    ensures Reachable(REJECTED_AND_CLOSED)
  {
    var ws := [RUNG,
               World(Idle, Up(ASKING), [Reject], [], 0, 0),
               REJECTED_AND_CLOSED];
    var steps := [Mine(User(RejectConnection)), Theirs(User(CloseConnection))];
    assert Next(ws[0], steps[0]) == ws[1];
    assert Next(ws[1], steps[1]) == ws[2];
    Rung();
    PathReaches(ws, steps);
  }

  const CALLED_AGAIN := World(Idle, Up(ASKING), [Reject], [Request], 0, 0)

  lemma CalledAgain()
    ensures Reachable(CALLED_AGAIN)
  {
    var ws := [REJECTED_AND_CLOSED,
               World(Idle, Up(ASKING), [Reject], [Reset, Request], 0, 0),
               CALLED_AGAIN];
    var steps := [Theirs(User(RequestConnection)), Mine(Deliver)];
    assert Next(ws[0], steps[0]) == ws[1];
    assert Next(ws[1], steps[1]) == ws[2];
    Rejected();
    PathReaches(ws, steps);
  }

  const RUNG_PAST_REJECT := World(Up(ASKED), Idle, [], [], 0, 0)

  lemma RejectedRings()
    ensures Reachable(RUNG_PAST_REJECT)
  {
    var ws := [CALLED_AGAIN,
               World(Up(ASKED), Up(ASKING), [Reject], [], 0, 0),
               RUNG_PAST_REJECT];
    var steps := [Mine(Deliver), Theirs(Deliver)];
    assert Next(ws[0], steps[0]) == ws[1];
    assert Next(ws[1], steps[1]) == ws[2];
    CalledAgain();
    PathReaches(ws, steps);
  }

  /** Two causes, with every goodbye sent, of a pair that drains with one end ringing and nobody calling. A
      rejection that crosses the caller's second attempt ends that attempt on the caller's side only;
      and payload of a session that is over on both sides makes the idle friend answer with a Reset
      that ends a new call before the call is read. Both requests are sent against MayCall. */
  lemma RingingWithoutCaller()
    ensures Reachable(REJECTED_AND_CLOSED) && !MayCall(Mirror(REJECTED_AND_CLOSED))
    ensures Reachable(RUNG_PAST_REJECT) && NoControlInFlight(RUNG_PAST_REJECT)
    ensures Reachable(STALE_PAYLOAD) && NoControlInFlight(STALE_PAYLOAD) && !MayCall(STALE_PAYLOAD)
    ensures Reachable(RUNG_PAST_PAYLOAD) && NoControlInFlight(RUNG_PAST_PAYLOAD)
    ensures !ShownFit(RUNG_PAST_REJECT) && !ShownFit(RUNG_PAST_PAYLOAD)
  {
    Rejected();
    RejectedRings();
    StalePayload();
    PayloadRings();
  }

  // ------------------------------------------ an open connection reads a request

  /** In some run without a lost goodbye, an end in this role and state is about to read a request. */
  ghost predicate ReadsRequest(initiator: bool, phase: Phase) {
    exists w :: Reachable(w) && RequestAtHead(w, initiator, phase)
  }

  predicate RequestAtHead(w: World, initiator: bool, phase: Phase) {
    IsUp(w.me, phase) && w.me.s.initiator == initiator && w.inn != [] && w.inn[0] == Request
  }

  lemma ReadWhileAsking()
    ensures ReadsRequest(true, OwnRequestPending)
  {
    var ws := [START,
               World(Up(ASKING), Idle, [Request], [], 0, 0),
               World(Up(ASKING), Up(ASKING), [Request], [Request], 0, 0)];
    var steps := [Mine(User(RequestConnection)), Theirs(User(RequestConnection))];
    assert Next(ws[0], steps[0]) == ws[1];
    assert Next(ws[1], steps[1]) == ws[2];
    StartReachable();
    PathReaches(ws, steps);
    assert RequestAtHead(ws[2], true, OwnRequestPending);
  }

  const HUNG_UP := World(Idle, Idle, [Request, Reset], [], 0, 0)

  lemma HungUp()
    ensures Reachable(HUNG_UP)
  {
    var ws := [START,
               World(Up(ASKING), Idle, [Request], [], 0, 0),
               HUNG_UP];
    var steps := [Mine(User(RequestConnection)), Mine(User(CloseConnection))];
    assert Next(ws[0], steps[0]) == ws[1];
    assert Next(ws[1], steps[1]) == ws[2];
    StartReachable();
    PathReaches(ws, steps);
  }

  const RINGING_HUNG_UP := World(Up(ASKED), Up(ASKING), [Request, Reset], [], 0, 0)

  lemma RingingHungUp()
    ensures Reachable(RINGING_HUNG_UP)
  {
    var ws := [HUNG_UP,
               World(Idle, Up(ASKING), [Request, Reset], [Request], 0, 0),
               RINGING_HUNG_UP];
    var steps := [Theirs(User(RequestConnection)), Mine(Deliver)];
    assert Next(ws[0], steps[0]) == ws[1];
    assert Next(ws[1], steps[1]) == ws[2];
    HungUp();
    PathReaches(ws, steps);
  }

  lemma ReadWhileRinging()
    ensures ReadsRequest(false, FriendsRequestPending)
  {
    var ws := [RINGING_HUNG_UP,
               World(Up(ASKED), Up(ASKING), [Reset], [], 0, 0),
               World(Up(ASKED), Idle, [], [], 0, 0),
               World(Up(ASKED), Up(ASKING), [], [Request], 0, 0)];
    var steps := [Theirs(Deliver), Theirs(Deliver), Theirs(User(RequestConnection))];
    assert Next(ws[0], steps[0]) == ws[1];
    assert Next(ws[1], steps[1]) == ws[2];
    assert Next(ws[2], steps[2]) == ws[3];
    RingingHungUp();
    PathReaches(ws, steps);
    assert RequestAtHead(ws[3], false, FriendsRequestPending);
  }

  const ACCEPTED_HUNG_UP := World(Up(ACCEPTING), Up(ASKING), [Reset, Accept], [], 0, 0)

  lemma AcceptedHungUp()
    ensures Reachable(ACCEPTED_HUNG_UP)
  {
    var ws := [RINGING_HUNG_UP,
               World(Up(ACCEPTING), Up(ASKING), [Request, Reset, Accept], [], 0, 0),
               ACCEPTED_HUNG_UP];
    var steps := [Mine(User(AcceptConnection)), Theirs(Deliver)];
    assert Next(ws[0], steps[0]) == ws[1];
    assert Next(ws[1], steps[1]) == ws[2];
    RingingHungUp();
    PathReaches(ws, steps);
  }

  lemma ReadWhileAccepting()
    ensures ReadsRequest(false, ExpectingIpPacket)
  {
    var ws := [ACCEPTED_HUNG_UP,
               World(Up(ACCEPTING), Idle, [Accept], [], 0, 0),
               World(Up(ACCEPTING), Up(ASKING), [Accept], [Request], 0, 0)];
    var steps := [Theirs(Deliver), Theirs(User(RequestConnection))];
    assert Next(ws[0], steps[0]) == ws[1];
    assert Next(ws[1], steps[1]) == ws[2];
    AcceptedHungUp();
    PathReaches(ws, steps);
    assert RequestAtHead(ws[2], false, ExpectingIpPacket);
  }

  const ASKED_AGAIN := World(Up(ASKING), Up(ASKED), [Reset, Request], [], 0, 0)

  lemma AskedAgain()
    ensures Reachable(ASKED_AGAIN)
  {
    var ws := [HUNG_UP,
               World(Up(ASKING), Idle, [Request, Reset, Request], [], 0, 0),
               ASKED_AGAIN];
    var steps := [Mine(User(RequestConnection)), Theirs(Deliver)];
    assert Next(ws[0], steps[0]) == ws[1];
    assert Next(ws[1], steps[1]) == ws[2];
    HungUp();
    PathReaches(ws, steps);
  }

  const OFFER_BEHIND_RESET := World(Up(OFFERING), Up(ACCEPTING), [Reset, Request, IpProposal(0, 2)], [], 0, 0)

  lemma OfferBehindReset()
    ensures Reachable(OFFER_BEHIND_RESET)
  {
    var ws := [ASKED_AGAIN,
               World(Up(ASKING), Up(ACCEPTING), [Reset, Request], [Accept], 0, 0),
               OFFER_BEHIND_RESET];
    var steps := [Theirs(User(AcceptConnection)), Mine(Deliver)];
    assert Next(ws[0], steps[0]) == ws[1];
    assert Next(ws[1], steps[1]) == ws[2];
    AskedAgain();
    PathReaches(ws, steps);
  }

  lemma ReadWhileOffering()
    ensures ReadsRequest(true, ExpectingIpConfirmation)
  {
    var ws := [OFFER_BEHIND_RESET,
               World(Up(OFFERING), Idle, [Request, IpProposal(0, 2)], [], 0, 0),
               World(Up(OFFERING), Up(ASKING), [Request, IpProposal(0, 2)], [Request], 0, 0)];
    var steps := [Theirs(Deliver), Theirs(User(RequestConnection))];
    assert Next(ws[0], steps[0]) == ws[1];
    assert Next(ws[1], steps[1]) == ws[2];
    OfferBehindReset();
    PathReaches(ws, steps);
    assert RequestAtHead(ws[2], true, ExpectingIpConfirmation);
  }

  const OFFER_DROPPED := World(Idle, Idle, [Request, IpProposal(0, 2), Reset], [], 0, 0)

  lemma OfferDropped()
    ensures Reachable(OFFER_DROPPED)
  {
    var ws := [OFFER_BEHIND_RESET,
               World(Idle, Up(ACCEPTING), [Reset, Request, IpProposal(0, 2), Reset], [], 0, 0),
               OFFER_DROPPED];
    var steps := [Mine(User(CloseConnection)), Theirs(Deliver)];
    assert Next(ws[0], steps[0]) == ws[1];
    assert Next(ws[1], steps[1]) == ws[2];
    OfferBehindReset();
    PathReaches(ws, steps);
  }

  const ACCEPTED_AGAIN := World(Up(ASKING), Up(ACCEPTING), [IpProposal(0, 2), Reset, Request], [Accept], 0, 0)

  lemma AcceptedAgain()
    ensures Reachable(ACCEPTED_AGAIN)
  {
    var ws := [OFFER_DROPPED,
               World(Up(ASKING), Idle, [Request, IpProposal(0, 2), Reset, Request], [], 0, 0),
               World(Up(ASKING), Up(ASKED), [IpProposal(0, 2), Reset, Request], [], 0, 0),
               ACCEPTED_AGAIN];
    var steps := [Mine(User(RequestConnection)), Theirs(Deliver), Theirs(User(AcceptConnection))];
    assert Next(ws[0], steps[0]) == ws[1];
    assert Next(ws[1], steps[1]) == ws[2];
    assert Next(ws[2], steps[2]) == ws[3];
    OfferDropped();
    PathReaches(ws, steps);
  }

  const OWNER_BEHIND_RESET := World(Up(OWNER), Up(GUEST), [Reset, Request, IpProposal(0, 2)], [], 0, 0)

  lemma OwnerBehindReset()
    ensures Reachable(OWNER_BEHIND_RESET)
  {
    var ws := [ACCEPTED_AGAIN,
               World(Up(OFFERING), Up(ACCEPTING), [IpProposal(0, 2), Reset, Request, IpProposal(0, 2)], [], 0, 0),
               World(Up(OFFERING), Up(GUEST), [Reset, Request, IpProposal(0, 2)], [IpAccept], 0, 0),
               OWNER_BEHIND_RESET];
    var steps := [Mine(Deliver), Theirs(Deliver), Mine(Deliver)];
    assert Next(ws[0], steps[0]) == ws[1];
    assert Next(ws[1], steps[1]) == ws[2];
    assert Next(ws[2], steps[2]) == ws[3];
    AcceptedAgain();
    PathReaches(ws, steps);
  }

  lemma ReadWhileOwner()
    ensures ReadsRequest(true, Connected)
  {
    var ws := [OWNER_BEHIND_RESET,
               World(Up(OWNER), Idle, [Request, IpProposal(0, 2)], [], 0, 0),
               World(Up(OWNER), Up(ASKING), [Request, IpProposal(0, 2)], [Request], 0, 0)];
    var steps := [Theirs(Deliver), Theirs(User(RequestConnection))];
    assert Next(ws[0], steps[0]) == ws[1];
    assert Next(ws[1], steps[1]) == ws[2];
    OwnerBehindReset();
    PathReaches(ws, steps);
    assert RequestAtHead(ws[2], true, Connected);
  }

  const ACCEPTED := World(Up(ACCEPTING), Up(ASKING), [Accept], [], 0, 0)

  lemma Accepted()
    ensures Reachable(ACCEPTED)
  {
    var ws := [START,
               World(Idle, Up(ASKING), [], [Request], 0, 0),
               World(Up(ASKED), Up(ASKING), [], [], 0, 0),
               ACCEPTED];
    var steps := [Theirs(User(RequestConnection)), Mine(Deliver), Mine(User(AcceptConnection))];
    assert Next(ws[0], steps[0]) == ws[1];
    assert Next(ws[1], steps[1]) == ws[2];
    assert Next(ws[2], steps[2]) == ws[3];
    StartReachable();
    PathReaches(ws, steps);
  }

  const BOTH_HUNG_UP := World(Idle, Idle, [Accept, Reset], [], 0, 0)

  lemma BothHungUp()
    ensures Reachable(BOTH_HUNG_UP)
  {
    var ws := [ACCEPTED,
               World(Idle, Up(ASKING), [Accept, Reset], [], 0, 0),
               World(Idle, Idle, [Accept, Reset], [Reset], 0, 0),
               BOTH_HUNG_UP];
    var steps := [Mine(User(CloseConnection)), Theirs(User(CloseConnection)), Mine(Deliver)];
    assert Next(ws[0], steps[0]) == ws[1];
    assert Next(ws[1], steps[1]) == ws[2];
    assert Next(ws[2], steps[2]) == ws[3];
    Accepted();
    PathReaches(ws, steps);
  }

  const RUNG_AGAIN := World(Up(ASKED), Up(ASKING), [Accept, Reset], [], 0, 0)

  lemma RungAgain()
    ensures Reachable(RUNG_AGAIN)
  {
    var ws := [BOTH_HUNG_UP,
               World(Idle, Up(ASKING), [Accept, Reset], [Request], 0, 0),
               RUNG_AGAIN];
    var steps := [Theirs(User(RequestConnection)), Mine(Deliver)];
    assert Next(ws[0], steps[0]) == ws[1];
    assert Next(ws[1], steps[1]) == ws[2];
    BothHungUp();
    PathReaches(ws, steps);
  }

  const OFFER_BEHIND_OWN_RESET := World(Up(ACCEPTING), Up(OFFERING), [Reset, Accept], [IpProposal(0, 2)], 0, 0)

  lemma OfferBehindOwnReset()
    ensures Reachable(OFFER_BEHIND_OWN_RESET)
  {
    var ws := [RUNG_AGAIN,
               World(Up(ACCEPTING), Up(ASKING), [Accept, Reset, Accept], [], 0, 0),
               OFFER_BEHIND_OWN_RESET];
    var steps := [Mine(User(AcceptConnection)), Theirs(Deliver)];
    assert Next(ws[0], steps[0]) == ws[1];
    assert Next(ws[1], steps[1]) == ws[2];
    RungAgain();
    PathReaches(ws, steps);
  }

  lemma ReadWhileGuest()
    ensures ReadsRequest(false, Connected)
  {
    var ws := [OFFER_BEHIND_OWN_RESET,
               World(Up(GUEST), Up(OFFERING), [Reset, Accept, IpAccept], [], 0, 0),
               World(Up(GUEST), Idle, [Accept, IpAccept], [], 0, 0),
               World(Up(GUEST), Up(ASKING), [Accept, IpAccept], [Request], 0, 0)];
    var steps := [Mine(Deliver), Theirs(Deliver), Theirs(User(RequestConnection))];
    assert Next(ws[0], steps[0]) == ws[1];
    assert Next(ws[1], steps[1]) == ws[2];
    assert Next(ws[2], steps[2]) == ws[3];
    OfferBehindOwnReset();
    PathReaches(ws, steps);
    assert RequestAtHead(ws[3], false, Connected);
  }

  /** Which states an end may be in when it reads a request, in runs without a lost goodbye: each that its
      role can be in at all. */
  lemma RequestsReachEveryState()
    ensures forall initiator: bool, phase: Phase :: ReadsRequest(initiator, phase) <==>
      && phase != Deleting
      && (initiator ==> phase != FriendsRequestPending && phase != ExpectingIpPacket)
      && (!initiator ==> phase != OwnRequestPending && phase != ExpectingIpConfirmation)
  {
    ReadWhileAsking();
    ReadWhileRinging();
    ReadWhileOffering();
    ReadWhileAccepting();
    ReadWhileGuest();
    ReadWhileOwner();
  }
}
