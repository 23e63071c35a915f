/**
 What an undisturbed negotiation computes: with fixed answers to the local address checks, the least
 subnet unused on both ends, or the end of both connections when there is none.
*/
module Negotiation {
  import opened Packets
  import opened Tun
  import opened Endpoint
  import opened Protocol
  import opened Quiescence

  /** The environment of an end whose sends succeed and whose used addresses do not change. */
  function Fixed(free: set<byte>): Env { Env(free, true, true, true) }

  /** The responder has just accepted. */
  const ACCEPTED := World(Up(NewSession(true)), Up(NewSession(false).(phase := ExpectingIpPacket)), [], [Accept], 0, 0)

  /** A session that starts from the idle pair with one request and its acceptance gets there. */
  lemma AcceptedReached(mine: set<byte>, theirs: set<byte>)
    ensures Run(START, [Step(true, User(RequestConnection), Fixed(mine)), Step(false, Deliver, Fixed(theirs)),
                        Step(false, User(AcceptConnection), Fixed(theirs))]) == ACCEPTED
  {
    var w1 := Next(START, Step(true, User(RequestConnection), Fixed(mine)));
    assert w1 == World(Up(NewSession(true)), Idle, [Request], [], 0, 0);
    var w2 := Next(w1, Step(false, Deliver, Fixed(theirs)));
    assert w2 == World(Up(NewSession(true)), Up(NewSession(false)), [], [], 0, 0);
    assert Next(w2, Step(false, User(AcceptConnection), Fixed(theirs))) == ACCEPTED;
    var steps := [Step(false, Deliver, Fixed(theirs)), Step(false, User(AcceptConnection), Fixed(theirs))];
    assert Run(w1, steps) == Run(w2, steps[1..]);
    assert Run(w2, steps[1..]) == Run(ACCEPTED, []);
  }

  /** Each end only reads packets, with its fixed free subnets. */
  predicate Undisturbed(steps: seq<Step>, mine: set<byte>, theirs: set<byte>) {
    forall s <- steps :: s.act == Deliver && s.env == Fixed(if s.mine then mine else theirs)
  }

  datatype Drained = Drained(end: World, proposals: seq<byte>)

  /** Read everything under way, collecting the subnets the peer is offered. */
  function Drain(w: World, mine: set<byte>, theirs: set<byte>): Drained
    requires Sound(w)
    decreases Measure(w)
  {
    if w.inn != [] then
      var step := Step(true, Deliver, Fixed(mine));
      SoundKept(w, step); StepPays(w, step);
      Drain(Next(w, step), mine, theirs)
    else if w.out != [] then
      var step := Step(false, Deliver, Fixed(theirs));
      SoundKept(w, step); StepPays(w, step);
      var d := Drain(Next(w, step), mine, theirs);
      d.(proposals := Offered(w.out[0]) + d.proposals)
    else Drained(w, [])
  }

  function Offered(m: Msg): seq<byte> { if m.IpProposal? then [m.subnet] else [] }

  /** The least subnet above `after` free on both ends, 256 if there is none. */
  function LeastCommon(after: int, mine: set<byte>, theirs: set<byte>): int
    requires -1 <= after <= 255
  {
    NextFree(after, mine * theirs)
  }

  lemma LeastCommonStep(after: int, mine: set<byte>, theirs: set<byte>)
    requires -1 <= after <= 255
    ensures var n := NextFree(after, mine);
      LeastCommon(after, mine, theirs) ==
        if n == 256 || n in theirs then n else LeastCommon(n, mine, theirs)
  {
    var n := NextFree(after, mine);
    var c := LeastCommon(after, mine, theirs);
    assert c < 256 ==> c in mine;
    assert n <= c;
    if n < 256 && n !in theirs {
      var d := LeastCommon(n, mine, theirs);
      assert c < 256 ==> c !in {n};
      assert d < c ==> d in mine * theirs;
      assert c < d ==> c in mine * theirs;
    }
  }

  /** The outcome of a negotiation whose least common subnet is `best`. */
  function Outcome(best: int): World
    requires 0 <= best <= 256
  {
    if best == 256 then START
    else World(Up(Session(Connected, true, best, Some(Address(best, 1)))),
               Up(Session(Connected, false, -1, Some(Address(best, 2)))), [], [], 0, 0)
  }

  /** `proposals` are, in ascending order, the initiator's free subnets above `after` up to `best`. */
  predicate TriesInOrder(proposals: seq<byte>, after: int, best: int, mine: set<byte>) {
    && (forall i, j :: 0 <= i < j < |proposals| ==> proposals[i] < proposals[j])
    && (forall b: byte :: b in proposals <==> b in mine && after < b <= best)
  }

  function Negotiating(s: int, out: seq<Msg>, inn: seq<Msg>): World {
    World(Up(Session(ExpectingIpConfirmation, true, s, None)),
          Up(Session(ExpectingIpPacket, false, -1, None)), out, inn, 0, 0)
  }

  lemma TriesPrepend(s: byte, rest: seq<byte>, after: int, best: int, mine: set<byte>)
    requires -1 <= after <= 255 && s == NextFree(after, mine) && s < best
    requires TriesInOrder(rest, s, best, mine)
    ensures TriesInOrder([s] + rest, after, best, mine)
  {
    var all := [s] + rest;
    forall b: byte
      ensures b in all <==> b in mine && after < b <= best
    {
      assert b in all <==> b == s || b in rest;
    }
    forall j | 0 <= j < |rest|
      ensures s < rest[j]
    {
      assert rest[j] in rest;
    }
  }

  lemma OfferAccepted(s: byte, mine: set<byte>, theirs: set<byte>)
    requires s in theirs
    ensures Drain(Negotiating(s, [IpProposal(s, 2)], []), mine, theirs) == Drained(Outcome(s), [s])
  {
    var w := Negotiating(s, [IpProposal(s, 2)], []);
    var w1 := Next(w, Step(false, Deliver, Fixed(theirs)));
    assert w1.inn == [IpAccept] && w1.out == [];
    var w2 := Next(w1, Step(true, Deliver, Fixed(mine)));
    assert w2 == Outcome(s);
    assert Drain(w1, mine, theirs) == Drained(Outcome(s), []);
  }

  lemma OfferRefused(s: byte, mine: set<byte>, theirs: set<byte>)
    requires s !in theirs
    ensures Drain(Negotiating(s, [IpProposal(s, 2)], []), mine, theirs) ==
      var d := Drain(Negotiating(s, [], [IpReject]), mine, theirs); d.(proposals := [s] + d.proposals)
  {
    var w := Negotiating(s, [IpProposal(s, 2)], []);
    var w1 := Next(w, Step(false, Deliver, Fixed(theirs)));
    assert w1 == Negotiating(s, [], [IpReject]);
  }

  lemma DrainOffer(s: byte, after: int, mine: set<byte>, theirs: set<byte>)
    requires -1 <= after <= 255 && s == NextFree(after, mine)
    ensures var d := Drain(Negotiating(s, [IpProposal(s, 2)], []), mine, theirs);
      && d.end == Outcome(LeastCommon(after, mine, theirs))
      && TriesInOrder(d.proposals, after, LeastCommon(after, mine, theirs), mine)
    decreases 256 - s
  {
    LeastCommonStep(after, mine, theirs);
    if s in theirs {
      OfferAccepted(s, mine, theirs);
    } else {
      OfferRefused(s, mine, theirs);
      var rest := DrainRefused(s, mine, theirs);
      TriesPrepend(s, rest.proposals, after, LeastCommon(s, mine, theirs), mine);
    }
  }

  lemma DrainRefused(s: byte, mine: set<byte>, theirs: set<byte>) returns (d: Drained)
    ensures d == Drain(Negotiating(s, [], [IpReject]), mine, theirs)
    ensures d.end == Outcome(LeastCommon(s, mine, theirs))
    ensures TriesInOrder(d.proposals, s, LeastCommon(s, mine, theirs), mine)
    decreases 256 - s, 0
  {
    var w := Negotiating(s, [], [IpReject]);
    d := Drain(w, mine, theirs);
    var n := NextFree(s, mine);
    var w1 := Next(w, Step(true, Deliver, Fixed(mine)));
    LeastCommonStep(s, mine, theirs);
    if n < 256 {
      assert w1 == Negotiating(n, [IpProposal(n, 2)], []);
      DrainOffer(n, s, mine, theirs);
    } else {
      DrainGivenUp(w1, mine, theirs);
    }
  }

  lemma DrainGivenUp(w: World, mine: set<byte>, theirs: set<byte>)
    requires w == World(Idle, Up(Session(ExpectingIpPacket, false, -1, None)), [Reset], [], 0, 0)
    ensures Drain(w, mine, theirs) == Drained(START, [])
  {
    var w1 := Next(w, Step(false, Deliver, Fixed(theirs)));
    assert w1 == START;
    assert Drain(w1, mine, theirs) == Drained(START, []);
  }

  lemma FirstRead(mine: set<byte>)
    ensures var n := NextFree(-1, mine);
      Next(ACCEPTED, Step(true, Deliver, Fixed(mine))) ==
        if n < 256 then Negotiating(n, [IpProposal(n, 2)], [])
        else World(Idle, Up(Session(ExpectingIpPacket, false, -1, None)), [Reset], [], 0, 0)
  {
  }

  lemma FirstOffer(mine: set<byte>, theirs: set<byte>)
    ensures var n := NextFree(-1, mine);
      Drain(ACCEPTED, mine, theirs) ==
        if n < 256 then Drain(Negotiating(n, [IpProposal(n, 2)], []), mine, theirs) else Drained(START, [])
  {
    FirstRead(mine);
    var w1 := Next(ACCEPTED, Step(true, Deliver, Fixed(mine)));
    assert Drain(ACCEPTED, mine, theirs) == Drain(w1, mine, theirs);
    if NextFree(-1, mine) == 256 {
      DrainGivenUp(w1, mine, theirs);
    }
  }

  /** The negotiation itself, and the subnets it goes through. */
  lemma DrainFindsLeast(mine: set<byte>, theirs: set<byte>)
    ensures var d := Drain(ACCEPTED, mine, theirs); var best := LeastCommon(-1, mine, theirs);
      && d.end == Outcome(best)
      && TriesInOrder(d.proposals, -1, best, mine)
  {
    var n := NextFree(-1, mine);
    FirstOffer(mine, theirs);
    LeastCommonStep(-1, mine, theirs);
    if n < 256 {
      DrainOffer(n, -1, mine, theirs);
    }
  }

  predicate OneInFlight(w: World) { |w.inn| + |w.out| <= 1 && w.lossyIn == 0 && w.lossyOut == 0 }

  /** The offer, if any, that the peer reads in a step. */
  function OfferRead(w: World, step: Step): seq<byte> {
    if !step.mine && step.act == Deliver && w.out != [] then Offered(w.out[0]) else []
  }

  /** The subnets the peer is offered during a run. */
  function OffersRead(w: World, steps: seq<Step>): seq<byte>
    requires Sound(w)
    decreases |steps|
  {
    if steps == [] then []
    else SoundKept(w, steps[0]); OfferRead(w, steps[0]) + OffersRead(Next(w, steps[0]), steps[1..])
  }

  /** With at most one packet under way every order of reading is the drain's own. */
  lemma OrderForced(w: World, step: Step, mine: set<byte>, theirs: set<byte>)
    requires Sound(w) && OneInFlight(w)
    requires step.act == Deliver && step.env == Fixed(if step.mine then mine else theirs)
    ensures Sound(Next(w, step)) && OneInFlight(Next(w, step))
    ensures Drain(Next(w, step), mine, theirs).end == Drain(w, mine, theirs).end
    ensures OfferRead(w, step) + Drain(Next(w, step), mine, theirs).proposals == Drain(w, mine, theirs).proposals
  {
    SoundKept(w, step);
    var v := if step.mine then w else Mirror(w);
    if v.inn != [] {
      ReactKeepsShape(v.me, Control(v.inn[0]), step.env);
    }
  }

  lemma Associate(a: seq<byte>, b: seq<byte>, c: seq<byte>)
    ensures (a + b) + c == a + (b + c)
  {
  }

  lemma {:induction false} AnyOrder(w: World, steps: seq<Step>, mine: set<byte>, theirs: set<byte>)
    requires Sound(w) && OneInFlight(w) && Undisturbed(steps, mine, theirs)
    ensures Drain(Run(w, steps), mine, theirs).end == Drain(w, mine, theirs).end
    ensures OffersRead(w, steps) + Drain(Run(w, steps), mine, theirs).proposals == Drain(w, mine, theirs).proposals
    decreases |steps|
  {
    if steps != [] {
      assert steps[0] in steps;
      var w' := Next(w, steps[0]);
      OrderForced(w, steps[0], mine, theirs);
      AnyOrder(w', steps[1..], mine, theirs);
      Associate(OfferRead(w, steps[0]), OffersRead(w', steps[1..]), Drain(Run(w', steps[1..]), mine, theirs).proposals);
    }
  }

  predicate IsLeastCommon(best: byte, mine: set<byte>, theirs: set<byte>) {
    && best in mine && best in theirs
    && forall b: byte :: b in mine && b in theirs ==> best <= b
  }

  lemma BestIsLeastCommon(mine: set<byte>, theirs: set<byte>)
    ensures var best := LeastCommon(-1, mine, theirs);
      if best == 256 then mine !! theirs else IsLeastCommon(best, mine, theirs)
  {
    var best := LeastCommon(-1, mine, theirs);
    assert best < 256 ==> best in mine * theirs;
    forall b: byte | b in mine && b in theirs
      ensures best <= b
    {
      assert b in mine * theirs;
    }
  }

  /** Negotiation computes an optimum: an undisturbed session, in whatever order its packets are
      read, ends with both connected on the least subnet unused on both ends, and with both
      connections deleted when there is none. */
  lemma NegotiationFindsLeast(steps: seq<Step>, mine: set<byte>, theirs: set<byte>)
    requires Undisturbed(steps, mine, theirs) && NoControlInFlight(Run(ACCEPTED, steps))
    ensures var w := Run(ACCEPTED, steps);
      (exists best: byte :: IsLeastCommon(best, mine, theirs) && w == Outcome(best))
      || (mine !! theirs && w == START)
  {
    var best := LeastCommon(-1, mine, theirs);
    AnyOrder(ACCEPTED, steps, mine, theirs);
    DrainFindsLeast(mine, theirs);
    BestIsLeastCommon(mine, theirs);
    assert Drain(Run(ACCEPTED, steps), mine, theirs).end == Run(ACCEPTED, steps);
    if best < 256 {
      assert IsLeastCommon(best, mine, theirs);
    }
  }

  predicate UnusedOnBoth(subnet: byte, mine: Answers, theirs: Answers) {
    !KnownUsed(mine, subnet) && !KnownUsed(theirs, subnet)
  }

  /** In terms of what the operating systems answer, failing queries included: the pair ends on the least
      192.168.x that is known to be in use on neither machine, the initiator as .1 and the responder as
      .2, or not connected at all when there is none. */
  lemma LeastUnusedSubnet(steps: seq<Step>, mine: Answers, theirs: Answers)
    requires Undisturbed(steps, Free(mine), Free(theirs))
    requires NoControlInFlight(Run(ACCEPTED, steps))
    ensures var w := Run(ACCEPTED, steps);
      || (w == START && forall b: byte :: !UnusedOnBoth(b, mine, theirs))
      || (&& UpAsInitiator(w.me) && Answered(w.peer)
          && exists best: byte :: (
               && w.me.s.ip == Some(Address(best, 1)) && w.peer.s.ip == Some(Address(best, 2))
               && UnusedOnBoth(best, mine, theirs)
               && forall b: byte :: UnusedOnBoth(b, mine, theirs) ==> best <= b))
  {
    var m, t := Free(mine), Free(theirs);
    FreeExactly(mine);
    FreeExactly(theirs);
    NegotiationFindsLeast(steps, m, t);
    assert forall b: byte :: b in m && b in t <==> UnusedOnBoth(b, mine, theirs);
    if best: byte :| IsLeastCommon(best, m, t) && Run(ACCEPTED, steps) == Outcome(best) {
      assert UnusedOnBoth(best, mine, theirs);
    }
  }

  /** When every query fails on both machines, nothing is known to be in use, and the pair ends on
      192.168.0.x. */
  lemma NoAnswersMeetAtZero(steps: seq<Step>, mine: Answers, theirs: Answers)
    requires forall b: byte :: mine[b].None? && theirs[b].None?
    requires Undisturbed(steps, Free(mine), Free(theirs))
    requires NoControlInFlight(Run(ACCEPTED, steps))
    ensures Run(ACCEPTED, steps).me.Up? && Run(ACCEPTED, steps).me.s.ip == Some(Address(0, 1))
    ensures Run(ACCEPTED, steps).peer.Up? && Run(ACCEPTED, steps).peer.s.ip == Some(Address(0, 2))
  {
    LeastUnusedSubnet(steps, mine, theirs);
    assert UnusedOnBoth(0, mine, theirs);
  }

  /** On the way the initiator offers, in ascending order and each once, exactly its free subnets
      up to the one agreed on, at most 256; in whatever order the packets are read. */
  lemma ProposalsMade(steps: seq<Step>, mine: set<byte>, theirs: set<byte>)
    requires Undisturbed(steps, mine, theirs) && NoControlInFlight(Run(ACCEPTED, steps))
    ensures var ps := OffersRead(ACCEPTED, steps);
      && (forall i, j :: 0 <= i < j < |ps| ==> ps[i] < ps[j])
      && (forall b: byte :: b in ps <==>
            b in mine && forall c: byte :: c < b ==> !(c in mine && c in theirs))
      && |ps| <= 256
  {
    var ps := OffersRead(ACCEPTED, steps);
    var best := LeastCommon(-1, mine, theirs);
    AnyOrder(ACCEPTED, steps, mine, theirs);
    assert Drain(Run(ACCEPTED, steps), mine, theirs).proposals == [];
    assert ps == Drain(ACCEPTED, mine, theirs).proposals;
    DrainFindsLeast(mine, theirs);
    BestIsLeastCommon(mine, theirs);
    AscendingBytes(ps);
  }

  lemma {:induction false} AscendingBytes(s: seq<byte>)
    requires forall i, j :: 0 <= i < j < |s| ==> s[i] < s[j]
    ensures s != [] ==> |s| <= s[|s| - 1] as int + 1
  {
    if |s| > 1 {
      AscendingBytes(s[..|s| - 1]);
    }
  }
}
