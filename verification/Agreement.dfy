/**
 What both users may rely on, over every run of the pair: agreement on the subnet, connected together
 or not at all, and no end left waiting in the middle of a negotiation.
*/
module Agreement {
  import opened Packets
  import opened Tun
  import opened Endpoint
  import opened Protocol
  import opened Reactions

  lemma {:induction false} RunKeepsTracked(w: World, steps: seq<Step>)
    requires Tracked(w)
    ensures Tracked(Run(w, steps))
    decreases |steps|
  {
    if steps != [] {
      TrackedKept(w, steps[0]);
      RunKeepsTracked(Next(w, steps[0]), steps[1..]);
    }
  }

  lemma {:induction false} RunKeepsBacked(w: World, steps: seq<Step>)
    requires FullyBacked(w) && GoodbyesSent(steps)
    ensures FullyBacked(Run(w, steps))
    decreases |steps|
  {
    if steps != [] {
      assert steps[0] in steps;
      FullyBackedKept(w, steps[0]);
      RunKeepsBacked(Next(w, steps[0]), steps[1..]);
    }
  }

  /** The last control packet an initiator that is negotiating or connected has sent, ever, is the
      proposal of its current subnet. */
  predicate LastSentProposes(e: End, sent: seq<Msg>) {
    Proposing(e) ==> 0 <= e.s.subnet <= 255 && sent != [] && Last(sent) == IpProposal(e.s.subnet, 2)
  }

  lemma StepKeepsLastSent(w: World, step: Step, sent: seq<Msg>)
    requires Sound(w) && LastSentProposes(w.me, sent)
    ensures LastSentProposes(Next(w, step).me, sent + Emitted(w, step))
  {
    if step.mine {
      match step.act
      case User(call) => CallKeepsShape(w.me, call, step.env);
      case Deliver => if w.inn != [] { ReactKeepsShape(w.me, Control(w.inn[0]), step.env); }
      case _ =>
    }
  }

  lemma {:induction false} RunKeepsLastSent(w: World, steps: seq<Step>, sent: seq<Msg>)
    requires Sound(w) && LastSentProposes(w.me, sent)
    ensures LastSentProposes(Run(w, steps).me, sent + SentByMe(w, steps))
    decreases |steps|
  {
    if steps == [] {
      assert sent + [] == sent;
    } else {
      hide Emitted, Next, LastSentProposes;
      var first, w' := Emitted(w, steps[0]), Next(w, steps[0]);
      StepKeepsLastSent(w, steps[0], sent);
      SoundKept(w, steps[0]);
      RunKeepsLastSent(w', steps[1..], sent + first);
      AppendAssociates(sent, first, SentByMe(w', steps[1..]));
    }
  }

  lemma AppendAssociates(a: seq<Msg>, b: seq<Msg>, c: seq<Msg>)
    ensures a + b + c == a + (b + c)
  {
  }

  /** In every run, whatever sends fail, and read or not: the newest control packet that an initiator
      in ExpectingIpConfirmation or Connected has sent is the proposal of its current subnet. */
  lemma NewestPacketIsProposal(steps: seq<Step>)
    ensures LastSentProposes(Run(START, steps).me, SentByMe(START, steps))
    ensures LastSentProposes(Run(START, steps).peer, SentByPeer(START, steps))
  {
    RunKeepsLastSent(START, steps, []);
    RunKeepsLastSent(START, Flip(steps), []);
    MirrorRun(START, steps);
    assert [] + SentByMe(START, steps) == SentByMe(START, steps);
    assert [] + SentByPeer(START, steps) == SentByPeer(START, steps);
  }

  /** The packet of `me` that the peer reads in a step. */
  function ReadInStep(w: World, step: Step): seq<Msg> {
    if !step.mine && step.act == Deliver && w.out != [] then [w.out[0]] else []
  }

  /** What the peer reads of `me` during a run. */
  function ReadByPeer(w: World, steps: seq<Step>): seq<Msg>
    requires Sound(w)
    decreases |steps|
  {
    if steps == [] then []
    else SoundKept(w, steps[0]); ReadInStep(w, steps[0]) + ReadByPeer(Next(w, steps[0]), steps[1..])
  }

  lemma StepSendsAndReads(w: World, step: Step)
    requires Sound(w)
    ensures w.out + Emitted(w, step) == ReadInStep(w, step) + Next(w, step).out
  {
  }

  /** No control packet is lost, reordered or made up: what was sent is what was read, in order, and
      then what is still under way. */
  lemma {:induction false} SentIsReadOrUnderWay(w: World, steps: seq<Step>)
    requires Sound(w)
    ensures w.out + SentByMe(w, steps) == ReadByPeer(w, steps) + Run(w, steps).out
    decreases |steps|
  {
    hide Next, Emitted, ReadInStep, Sound;
    if steps != [] {
      var w' := Next(w, steps[0]);
      SoundKept(w, steps[0]);
      StepSendsAndReads(w, steps[0]);
      SentIsReadOrUnderWay(w', steps[1..]);
      Regroup(w.out, Emitted(w, steps[0]), SentByMe(w', steps[1..]),
              ReadInStep(w, steps[0]), w'.out, ReadByPeer(w', steps[1..]), Run(w', steps[1..]).out);
    }
  }

  lemma Regroup(out: seq<Msg>, first: seq<Msg>, rest: seq<Msg>,
                read: seq<Msg>, between: seq<Msg>, later: seq<Msg>, end: seq<Msg>)
    requires out + first == read + between && between + rest == later + end
    ensures out + (first + rest) == (read + later) + end
  {
    assert out + (first + rest) == (out + first) + rest;
    assert (read + between) + rest == read + (between + rest);
    assert read + (later + end) == (read + later) + end;
  }

  /** One subnet, the initiator on address 1, the responder on address 2. */
  predicate AgreeOnSubnet(initiator: End, responder: End)
    requires initiator.Up? && responder.Up?
  {
    exists subnet: byte ::
      initiator.s.ip == Some(Address(subnet, 1)) && responder.s.ip == Some(Address(subnet, 2))
  }

  /** Whatever sends fail, however sessions overlap: when an initiator and a responder are both
      connected and the responder has read all the initiator sent, they agree on the subnet. */
  lemma SubnetsAgree(steps: seq<Step>)
    ensures var w := Run(START, steps);
      && (UpAsInitiator(w.me) && Answered(w.peer) && w.out == [] ==> AgreeOnSubnet(w.me, w.peer))
      && (UpAsInitiator(w.peer) && Answered(w.me) && w.inn == [] ==> AgreeOnSubnet(w.peer, w.me))
  {
    RunKeepsTracked(START, steps);
    var w := Run(START, steps);
    AgreementFromTracks(w);
    AgreementFromTracks(Mirror(w));
  }

  lemma AgreementFromTracks(w: World)
    requires Tracked(w)
    ensures UpAsInitiator(w.me) && Answered(w.peer) && w.out == [] ==> AgreeOnSubnet(w.me, w.peer)
  {
    if UpAsInitiator(w.me) && Answered(w.peer) && w.out == [] {
      var subnet: byte := w.me.s.subnet;
      assert w.me.s.ip == Some(Address(subnet, 1)) && w.peer.s.ip == Some(Address(subnet, 2));
    }
  }

  /** Both ends are connected, in opposite roles, on one subnet. */
  predicate Together(w: World) {
    || (UpAsInitiator(w.me) && Answered(w.peer) && AgreeOnSubnet(w.me, w.peer))
    || (UpAsInitiator(w.peer) && Answered(w.me) && AgreeOnSubnet(w.peer, w.me))
  }

  /** With no control packet under way and no goodbye lost, one end is connected only together with
      the other: no half-open connection survives, after any number of sessions. */
  lemma ConnectedTogether(steps: seq<Step>)
    requires GoodbyesSent(steps) && NoControlInFlight(Run(START, steps))
    ensures var w := Run(START, steps);
      IsUp(w.me, Connected) || IsUp(w.peer, Connected) ==> Together(w)
  {
    RunKeepsBacked(START, steps);
    var w := Run(START, steps);
    AgreementFromTracks(w);
    AgreementFromTracks(Mirror(w));
  }

  predicate Waiting(e: End) { IsUp(e, OwnRequestPending) || IsUp(e, FriendsRequestPending) }

  /** All that can remain once the control channels have drained: connected together, or no end in
      a negotiation and no request without anybody at the other end. */
  predicate Settled(w: World) {
    || Together(w)
    || (&& (w.me.Idle? || Waiting(w.me)) && (w.peer.Idle? || Waiting(w.peer))
        && (IsUp(w.me, OwnRequestPending) ==> w.peer.Up?)
        && (IsUp(w.peer, OwnRequestPending) ==> w.me.Up?))
  }

  lemma SettledFromBacked(w: World)
    requires FullyBacked(w) && NoControlInFlight(w)
    ensures Settled(w)
  {
    AgreementFromTracks(w);
    AgreementFromTracks(Mirror(w));
  }

  /** No goodbye lost and the control channels drained: nobody is stuck half way. */
  lemma DrainedIsSettled(steps: seq<Step>)
    requires GoodbyesSent(steps) && NoControlInFlight(Run(START, steps))
    ensures Settled(Run(START, steps))
  {
    RunKeepsBacked(START, steps);
    SettledFromBacked(Run(START, steps));
  }

  /** What the two users are then shown fits together: connected on both sides or on neither, and an
      end that shows ringing at the friend has a friend that is ringing or requesting too. */
  lemma ShownStatesMatch(steps: seq<Step>)
    requires GoodbyesSent(steps) && NoControlInFlight(Run(START, steps))
    ensures var w := Run(START, steps);
      && (Shown(w.me) == ShownConnected <==> Shown(w.peer) == ShownConnected)
      && (Shown(w.me) == RingingAtFriend ==> Shown(w.peer) == FriendIsRinging || Shown(w.peer) == RingingAtFriend)
      && (Shown(w.peer) == RingingAtFriend ==> Shown(w.me) == FriendIsRinging || Shown(w.me) == RingingAtFriend)
  {
    DrainedIsSettled(steps);
  }

  /** Hanging up a settled pair, also by accepting what is not a pending request, takes one packet and ends
      both sides. The peer is told why: rejected if it was waiting for the answer, closed otherwise; the
      own user is told nothing, unless it gave up its own request. */
  lemma HangUpReachesPeer(w: World, call: Call, env: Env, peerEnv: Env)
    requires Sound(w) && Settled(w) && NoControlInFlight(w) && w.me.Up? && w.peer.Up?
    requires !(IsUp(w.me, FriendsRequestPending) && IsUp(w.peer, FriendsRequestPending))
    requires HangsUp(w.me, call) && env.goodbyeOk
    ensures var w1 := Next(w, Step(true, User(call), env));
      && Sound(w1)
      && w1.out == [if IsUp(w.me, Connected) then Close
                    else if IsUp(w.me, FriendsRequestPending) then Reject else Reset]
      && Next(w1, Step(false, Deliver, peerEnv)) == w.(me := Idle, peer := Idle)
      && React(w.peer, Control(w1.out[0]), peerEnv).events ==
           (if IsUp(w.me, FriendsRequestPending) then [ConnectionRejected] else [ConnectionClosed])
      && UserCall(w.me, call, env).events ==
           (if IsUp(w.me, OwnRequestPending) then [ConnectionClosed] else [])
  {
    SoundKept(w, Step(true, User(call), env));
    HangUpReported(w.me, call, env);
  }

  predicate IsGoodbye(m: Msg) { m.Reject? || m.Close? || m.Reset? }

  /** The peer reads, once per entry. */
  function Reads(envs: seq<Env>): (steps: seq<Step>)
    ensures |steps| == |envs|
  {
    seq(|envs|, i requires 0 <= i < |envs| => Step(false, Deliver, envs[i]))
  }

  lemma {:induction false} GoodbyeReadLast(w: World, envs: seq<Env>)
    requires Sound(w) && |w.out| == |envs| > 0 && IsGoodbye(w.out[|w.out| - 1])
    ensures var r := Run(w, Reads(envs)); r.peer.Idle? && r.me == w.me && r.out == []
    decreases |envs|
  {
    var step := Step(false, Deliver, envs[0]);
    SoundKept(w, step);
    assert Reads(envs)[0] == step && Reads(envs)[1..] == Reads(envs[1..]);
    if |envs| > 1 { GoodbyeReadLast(Next(w, step), envs[1..]); }
  }

  /** In whatever state the pair is and whatever is under way, in the middle of a negotiation or with packets
      that nobody expects: one hang-up whose goodbye is sent ends both sides once the peer has read what
      there is. */
  lemma HangUpAlwaysEnds(w: World, call: Call, env: Env, envs: seq<Env>)
    requires Sound(w) && HangsUp(w.me, call) && env.goodbyeOk && |envs| == |w.out| + 1
    ensures var w1 := Next(w, Step(true, User(call), env));
      && w1.out == w.out + [GoodbyeFrom(w.me.s.phase)]
      && Sound(w1)
      && var w2 := Run(w1, Reads(envs)); w2.me.Idle? && w2.peer.Idle? && w2.out == []
  {
    SoundKept(w, Step(true, User(call), env));
    HangUpReported(w.me, call, env);
    GoodbyeReadLast(Next(w, Step(true, User(call), env)), envs);
  }

  /** Exactly the loss of a goodbye makes a half-open connection: when one of two connected ends hangs
      up, the pair settles again with the peer's reading if the goodbye was sent, and is drained but
      not settled if it was not. */
  lemma GoodbyeDecides(w: World, call: Call, env: Env, peerEnv: Env)
    requires Sound(w) && Together(w) && NoControlInFlight(w) && HangsUp(w.me, call)
    ensures var w1 := Next(w, Step(true, User(call), env));
      && Sound(w1) && w1.me.Idle?
      && (var w2 := Next(w1, Step(false, Deliver, peerEnv));
          NoControlInFlight(w2) && (Settled(w2) <==> env.goodbyeOk))
  {
    SoundKept(w, Step(true, User(call), env));
    HangUpReported(w.me, call, env);
  }
}
