/**
 Two ends, two ordered control channels and two lossy channels, over any number of sessions and any
 interleaving of user calls, deliveries, losses and payload traffic.
*/
module Protocol {
  import opened Packets
  import opened Tun
  import opened Endpoint

  /** The pair as seen from one end: `out` carries its control packets, `inn` those of the peer,
      oldest first; lossy packets are only counted, they may arrive in any order or not at all. */
  datatype World = World(me: End, peer: End, out: seq<Msg>, inn: seq<Msg>, lossyOut: nat, lossyIn: nat)

  function Mirror(w: World): World {
    World(w.peer, w.me, w.inn, w.out, w.lossyIn, w.lossyOut)
  }

  const START := World(Idle, Idle, [], [], 0, 0)

  /** `DeliverLossy(true)` hands over payload, either in one packet or with the last fragment of a
      set; `DeliverLossy(false)` a fragment that is kept. `SendPackets(n)` reads one frame from the
      tun device of a connected end and sends it as n lossy packets. */
  datatype Act =
    | User(call: Call)
    | Deliver
    | DeliverLossy(payload: bool)
    | LoseLossy
    | SendPackets(n: nat)

  predicate Sound(w: World) { WellFormed(w.me) && WellFormed(w.peer) }

  function Apply(w: World, r: Reaction): World {
    w.(me := r.end, out := w.out + r.out)
  }

  /** A step of the end called `me`; a step that is not enabled changes nothing. */
  function Own(w: World, act: Act, env: Env): World
    requires Sound(w)
  {
    match act
    case User(call) => Apply(w, UserCall(w.me, call, env))
    case Deliver =>
      if w.inn == [] then w else Apply(w.(inn := w.inn[1..]), React(w.me, Control(w.inn[0]), env))
    case DeliverLossy(payload) =>
      if w.lossyIn == 0 then w
      else Apply(w.(lossyIn := w.lossyIn - 1), React(w.me, if payload then Payload else Noise, env))
    case LoseLossy => if w.lossyIn == 0 then w else w.(lossyIn := w.lossyIn - 1)
    case SendPackets(n) => if IsUp(w.me, Connected) then w.(lossyOut := w.lossyOut + n) else w
  }

  datatype Step = Step(mine: bool, act: Act, env: Env)

  function Next(w: World, step: Step): World
    requires Sound(w)
  {
    if step.mine then Own(w, step.act, step.env) else Mirror(Own(Mirror(w), step.act, step.env))
  }

  lemma SoundKept(w: World, step: Step)
    requires Sound(w)
    ensures Sound(Next(w, step))
  {
    var v := if step.mine then w else Mirror(w);
    match step.act
    case User(call) => CallKeepsShape(v.me, call, step.env);
    case Deliver => if v.inn != [] { ReactKeepsShape(v.me, Control(v.inn[0]), step.env); }
    case DeliverLossy(payload) => ReactKeepsShape(v.me, if payload then Payload else Noise, step.env);
    case _ =>
  }

  function Run(w: World, steps: seq<Step>): (r: World)
    requires Sound(w)
    ensures Sound(r)
    decreases |steps|
  {
    if steps == [] then w
    else SoundKept(w, steps[0]); Run(Next(w, steps[0]), steps[1..])
  }

  lemma {:induction false} RunAppend(w: World, first: seq<Step>, second: seq<Step>)
    requires Sound(w)
    ensures Run(w, first + second) == Run(Run(w, first), second)
    decreases |first|
  {
    if first == [] {
      assert first + second == second;
    } else {
      SoundKept(w, first[0]);
      assert (first + second)[1..] == first[1..] + second;
      RunAppend(Next(w, first[0]), first[1..], second);
    }
  }

  /** The same run with the names of the two ends exchanged. */
  function Flip(steps: seq<Step>): (r: seq<Step>)
    ensures |r| == |steps|
  {
    seq(|steps|, i requires 0 <= i < |steps| => steps[i].(mine := !steps[i].mine))
  }

  lemma {:induction false} MirrorRun(w: World, steps: seq<Step>)
    requires Sound(w)
    ensures Run(Mirror(w), Flip(steps)) == Mirror(Run(w, steps))
    decreases |steps|
  {
    if steps != [] {
      SoundKept(w, steps[0]);
      assert Flip(steps)[1..] == Flip(steps[1..]);
      assert Next(Mirror(w), Flip(steps)[0]) == Mirror(Next(w, steps[0]));
      MirrorRun(Next(w, steps[0]), steps[1..]);
    }
  }

  /** The control packets `me` puts under way during one step. */
  function Emitted(w: World, step: Step): seq<Msg>
    requires Sound(w)
  {
    if step.mine then Own(w, step.act, step.env).out[|w.out|..] else []
  }

  /** All control packets `me` sends during a run, oldest first. */
  function SentByMe(w: World, steps: seq<Step>): seq<Msg>
    requires Sound(w)
    decreases |steps|
  {
    if steps == [] then []
    else SoundKept(w, steps[0]); Emitted(w, steps[0]) + SentByMe(Next(w, steps[0]), steps[1..])
  }

  function SentByPeer(w: World, steps: seq<Step>): seq<Msg>
    requires Sound(w)
  {
    SentByMe(Mirror(w), Flip(steps))
  }

  /** No goodbye (Reset, Reject, Close) is ever lost on sending; other sends may fail. */
  predicate GoodbyesSent(steps: seq<Step>) {
    forall s <- steps :: s.env.goodbyeOk
  }

  predicate NoControlInFlight(w: World) { w.out == [] && w.inn == [] }

  // ------------------------------------------------- what the channels contain

  predicate AllRequests(c: seq<Msg>) { forall i :: 0 <= i < |c| ==> c[i] == Request }

  function Last(c: seq<Msg>): Msg
    requires c != []
  {
    c[|c| - 1]
  }

  /** The last packet that is not a Request. */
  function LastWord(c: seq<Msg>): Option<Msg> {
    if c == [] then None
    else if Last(c) != Request then Some(Last(c))
    else LastWord(c[..|c| - 1])
  }

  predicate Proposing(e: End) {
    e.Up? && e.s.initiator && (e.s.phase == ExpectingIpConfirmation || e.s.phase == Connected)
  }

  predicate Answered(e: End) { e.Up? && !e.s.initiator && e.s.phase == Connected }

  predicate UpAsInitiator(e: End) { e.Up? && e.s.initiator && e.s.phase == Connected }

  /** The responder's address is the second one of the subnet the initiator proposed last. */
  predicate SameSubnet(initiator: End, responder: End)
    requires initiator.Up? && responder.Up?
  {
    0 <= initiator.s.subnet <= 255 && responder.s.ip == Some(Address(initiator.s.subnet, 2))
  }

  /** What holds with `me` in the role of the initiator, whatever sends fail: the newest packet
      of a proposing end still under way is its current proposal; once the peer has read it, a
      connected peer has that subnet. */
  predicate Tracks(w: World) {
    Proposing(w.me) ==>
      if w.out != [] then 0 <= w.me.s.subnet <= 255 && Last(w.out) == IpProposal(w.me.s.subnet, 2)
      else Answered(w.peer) ==> SameSubnet(w.me, w.peer)
  }

  /** A proposing end whose proposal has been read: the answer is under way, and if that is an
      acceptance, or has been read already, the peer is connected. */
  predicate ProposalBacked(w: World) {
    && (IsUp(w.me, ExpectingIpConfirmation) && w.out == [] ==>
          LastWord(w.inn).Some? && (LastWord(w.inn).value == IpAccept ==> Answered(w.peer)))
    && (UpAsInitiator(w.me) && w.out == [] ==> LastWord(w.inn).Some? || Answered(w.peer))
  }

  /** A responder to which nothing but requests is under way: its acceptance is the newest packet
      under way to the initiator, or the initiator is connected and has read everything; while it
      still waits for a proposal, its own last word is the newest packet under way. */
  predicate AnswerBacked(w: World) {
    && (Answered(w.peer) && AllRequests(w.out) ==>
          (UpAsInitiator(w.me) && w.inn == []) || (w.inn != [] && Last(w.inn) == IpAccept))
    && (IsUp(w.peer, ExpectingIpPacket) && AllRequests(w.out) ==>
          w.inn != [] && (Last(w.inn) == Accept || Last(w.inn) == IpReject))
  }

  /** A requesting end: its request is the newest packet under way, or something comes back, or
      the peer has an unanswered request too. */
  predicate RequestBacked(w: World) {
    && (IsUp(w.me, OwnRequestPending) && w.out != [] ==> Last(w.out) == Request)
    && (IsUp(w.me, OwnRequestPending) && w.out == [] && LastWord(w.inn).None? ==>
          IsUp(w.peer, FriendsRequestPending) || IsUp(w.peer, OwnRequestPending))
  }

  /** What holds in addition when goodbyes are sent: every end that waits is answered for by a packet
      under way or by the other end's state. */
  predicate Backed(w: World) { ProposalBacked(w) && AnswerBacked(w) && RequestBacked(w) }

  predicate Tracked(w: World) { Sound(w) && Tracks(w) && Tracks(Mirror(w)) }

  predicate FullyBacked(w: World) { Tracked(w) && Backed(w) && Backed(Mirror(w)) }

  // --------------------------------------------------- reading and appending

  lemma {:induction false} LastWordNone(c: seq<Msg>)
    ensures LastWord(c).None? <==> AllRequests(c)
  {
    if c != [] {
      LastWordNone(c[..|c| - 1]);
    }
  }

  lemma {:induction false} LastWordPrefix(first: Msg, c: seq<Msg>)
    ensures LastWord([first] + c) ==
      if !AllRequests(c) then LastWord(c) else if first == Request then None else Some(first)
  {
    if c == [] {
      assert [first] + c == [first];
      assert [first][..0] == [];
    } else {
      assert c == c[..|c| - 1] + [Last(c)];
      assert ([first] + c)[..|c|] == [first] + c[..|c| - 1];
      LastWordPrefix(first, c[..|c| - 1]);
    }
  }

  /** Everything the invariants ask about a channel, after its oldest packet is read. */
  lemma Read(c: seq<Msg>)
    requires c != []
    ensures AllRequests(c) <==> c[0] == Request && AllRequests(c[1..])
    ensures c[1..] != [] ==> Last(c[1..]) == Last(c)
    ensures c[1..] == [] ==> Last(c) == c[0]
    ensures LastWord(c) == if !AllRequests(c[1..]) then LastWord(c[1..])
                           else if c[0] == Request then None else Some(c[0])
    ensures LastWord(c[1..]).None? <==> AllRequests(c[1..])
  {
    assert c == [c[0]] + c[1..];
    LastWordPrefix(c[0], c[1..]);
    LastWordNone(c[1..]);
  }

  /** The same after at most one packet is appended. */
  lemma Write(c: seq<Msg>, out: seq<Msg>)
    requires |out| <= 1
    ensures out == [] ==> c + out == c
    ensures out != [] ==> c + out != [] && Last(c + out) == out[0]
    ensures out != [] ==> LastWord(c + out) == if out[0] == Request then LastWord(c) else Some(out[0])
    ensures AllRequests(c + out) <==> AllRequests(c) && (out == [] || out[0] == Request)
    ensures LastWord(c).None? <==> AllRequests(c)
  {
    LastWordNone(c);
    if out != [] {
      assert (c + out)[..|c|] == c;
      assert out == [out[0]];
    }
  }

  // -------------------------------------------------------- steps keep it all

  /** Steps that replace the own end and append to its channel. */
  lemma CallKeepsTracks(w: World, call: Call, env: Env)
    requires Tracked(w)
    ensures var w' := Apply(w, UserCall(w.me, call, env)); Tracks(w') && Tracks(Mirror(w'))
  {
    CallKeepsShape(w.me, call, env);
    Write(w.out, UserCall(w.me, call, env).out);
  }

  lemma DeliverKeepsTracks(w: World, env: Env)
    requires Tracked(w) && w.inn != []
    ensures var w' := Apply(w.(inn := w.inn[1..]), React(w.me, Control(w.inn[0]), env));
      Tracks(w') && Tracks(Mirror(w'))
  {
    ReactKeepsShape(w.me, Control(w.inn[0]), env);
    Read(w.inn);
    Write(w.out, React(w.me, Control(w.inn[0]), env).out);
  }

  lemma LossyKeepsTracks(w: World, input: Input, env: Env)
    requires Tracked(w) && (input == Payload || input == Noise)
    ensures var w' := Apply(w, React(w.me, input, env)); Tracks(w') && Tracks(Mirror(w'))
  {
    ReactKeepsShape(w.me, input, env);
    Write(w.out, React(w.me, input, env).out);
  }

  lemma TrackedKept(w: World, step: Step)
    requires Tracked(w)
    ensures Tracked(Next(w, step))
  {
    SoundKept(w, step);
    var v := if step.mine then w else Mirror(w);
    match step.act
    case User(call) => CallKeepsTracks(v, call, step.env);
    case Deliver => if v.inn != [] { DeliverKeepsTracks(v, step.env); }
    case DeliverLossy(payload) => LossyKeepsTracks(v, if payload then Payload else Noise, step.env);
    case _ =>
  }

  lemma CallKeepsBacked(w: World, call: Call, env: Env)
    requires Sound(w) && Backed(w) && Backed(Mirror(w)) && env.goodbyeOk
    ensures var w' := Apply(w, UserCall(w.me, call, env)); Backed(w') && Backed(Mirror(w'))
  {
    hide AllRequests, LastWord;
    CallKeepsShape(w.me, call, env);
    Write(w.out, UserCall(w.me, call, env).out);
    LastWordNone(w.inn);
  }

  function AfterDelivery(w: World, env: Env): World
    requires Sound(w) && w.inn != []
  {
    Apply(w.(inn := w.inn[1..]), React(w.me, Control(w.inn[0]), env))
  }

  // Reading a packet, clause by clause: first for the reader as initiator, then as responder.

  lemma ReaderKeepsProposalBacked(w: World, env: Env)
    requires Sound(w) && ProposalBacked(w)
    requires env.goodbyeOk && w.inn != []
    ensures ProposalBacked(AfterDelivery(w, env))
  {
    hide AllRequests, LastWord;
    ReactKeepsShape(w.me, Control(w.inn[0]), env);
    Read(w.inn);
    Write(w.out, React(w.me, Control(w.inn[0]), env).out);
  }

  /** Whoever reads a proposal answers it, and accepts it only by becoming connected. */
  lemma ProposalIsAnswered(e: End, m: Msg, env: Env)
    requires WellFormed(e) && m.IpProposal? && env.goodbyeOk
    ensures var r := React(e, Control(m), env);
      |r.out| == 1 && r.out[0] != Request && (r.out[0] == IpAccept ==> Answered(r.end))
  {
  }

  lemma ReplierKeepsProposalBacked(w: World, env: Env)
    requires Sound(w) && Tracks(Mirror(w))
    requires env.goodbyeOk && w.inn != []
    ensures ProposalBacked(Mirror(AfterDelivery(w, env)))
  {
    if Proposing(w.peer) && w.inn[1..] == [] {
      assert Last(w.inn) == w.inn[0];
      ProposalIsAnswered(w.me, w.inn[0], env);
      Write(w.out, React(w.me, Control(w.inn[0]), env).out);
    }
  }

  lemma ReaderKeepsAnswerBacked(w: World, env: Env)
    requires Sound(w) && AnswerBacked(w)
    requires env.goodbyeOk && w.inn != []
    ensures AnswerBacked(AfterDelivery(w, env))
  {
    hide AllRequests, LastWord;
    ReactKeepsShape(w.me, Control(w.inn[0]), env);
    Read(w.inn);
    Write(w.out, React(w.me, Control(w.inn[0]), env).out);
  }

  lemma ReplierKeepsAnswerBacked(w: World, env: Env)
    requires Sound(w) && AnswerBacked(Mirror(w))
    requires env.goodbyeOk && w.inn != []
    ensures AnswerBacked(Mirror(AfterDelivery(w, env)))
  {
    hide AllRequests, LastWord;
    ReactKeepsShape(w.me, Control(w.inn[0]), env);
    Read(w.inn);
    Write(w.out, React(w.me, Control(w.inn[0]), env).out);
  }

  lemma ReaderKeepsRequestBacked(w: World, env: Env)
    requires Sound(w) && RequestBacked(w)
    requires env.goodbyeOk && w.inn != []
    ensures RequestBacked(AfterDelivery(w, env))
  {
    hide AllRequests, LastWord;
    ReactKeepsShape(w.me, Control(w.inn[0]), env);
    Read(w.inn);
    Write(w.out, React(w.me, Control(w.inn[0]), env).out);
  }

  lemma ReplierKeepsRequestBacked(w: World, env: Env)
    requires Sound(w) && Tracks(w) && ProposalBacked(w) && AnswerBacked(Mirror(w)) && RequestBacked(Mirror(w))
    requires env.goodbyeOk && w.inn != []
    ensures RequestBacked(Mirror(AfterDelivery(w, env)))
  {
    ReactKeepsShape(w.me, Control(w.inn[0]), env);
    Read(w.inn);
    Write(w.out, React(w.me, Control(w.inn[0]), env).out);
  }

  lemma LossyKeepsBacked(w: World, input: Input, env: Env)
    requires Sound(w) && Backed(w) && Backed(Mirror(w)) && env.goodbyeOk && (input == Payload || input == Noise)
    ensures var w' := Apply(w, React(w.me, input, env)); Backed(w') && Backed(Mirror(w'))
  {
    hide AllRequests, LastWord;
    ReactKeepsShape(w.me, input, env);
    Write(w.out, React(w.me, input, env).out);
    LastWordNone(w.inn);
  }

  lemma OwnKeepsBacked(w: World, act: Act, env: Env)
    requires FullyBacked(w) && env.goodbyeOk
    ensures Backed(Own(w, act, env)) && Backed(Mirror(Own(w, act, env)))
  {
    match act
    case User(call) => CallKeepsBacked(w, call, env);
    case Deliver =>
      if w.inn != [] {
        ReaderKeepsProposalBacked(w, env);
        ReaderKeepsAnswerBacked(w, env);
        ReaderKeepsRequestBacked(w, env);
        ReplierKeepsProposalBacked(w, env);
        ReplierKeepsAnswerBacked(w, env);
        ReplierKeepsRequestBacked(w, env);
      }
    case DeliverLossy(payload) => LossyKeepsBacked(w, if payload then Payload else Noise, env);
    case _ =>
  }

  lemma FullyBackedKept(w: World, step: Step)
    requires FullyBacked(w) && step.env.goodbyeOk
    ensures FullyBacked(Next(w, step))
  {
    TrackedKept(w, step);
    OwnKeepsBacked(if step.mine then w else Mirror(w), step.act, step.env);
  }
}
