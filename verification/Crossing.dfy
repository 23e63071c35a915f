/**
 Requests that cross are read by ends that already have a connection, and ignored (src/Connection.cpp:75-78):
 when this leaves both ends waiting for an answer.
*/
module Crossing {
  import opened Packets
  import opened Tun
  import opened Endpoint
  import opened Protocol

  // ------------------------------------------------------------ both ends asking

  predicate BothAsking(w: World) { IsUp(w.me, OwnRequestPending) && IsUp(w.peer, OwnRequestPending) }

  /** Both ends wait for an answer and both requests are unread. */
  predicate Crossed(w: World) {
    BothAsking(w) && w.out != [] && Last(w.out) == Request && w.inn != [] && Last(w.inn) == Request
  }

  /** Of two callers whose requests have not crossed, one will learn that its call is over. */
  predicate OneGivesUp(w: World) {
    BothAsking(w) ==> (w.out == [] && LastWord(w.inn).Some?) || (w.inn == [] && LastWord(w.out).Some?)
  }

  /** A call makes two callers at once only by a request; the other's is then unread, or it is going to
      hear that its call is over. */
  lemma CallKeepsOneGivesUp(w: World, call: Call, env: Env)
    requires FullyBacked(w) && OneGivesUp(w)
    ensures var w' := Apply(w, UserCall(w.me, call, env)); OneGivesUp(w') || Crossed(w')
  {
    Write(w.out, UserCall(w.me, call, env).out);
  }

  lemma DeliverKeepsOneGivesUp(w: World, env: Env)
    requires FullyBacked(w) && OneGivesUp(w) && w.inn != []
    ensures OneGivesUp(AfterDelivery(w, env))
  {
    Read(w.inn);
    LastWordNone(w.inn);
  }

  lemma OwnKeepsOneGivesUp(w: World, act: Act, env: Env)
    requires FullyBacked(w) && OneGivesUp(w)
    ensures var w' := Own(w, act, env); OneGivesUp(w') || Crossed(w')
  {
    match act
    case User(call) => CallKeepsOneGivesUp(w, call, env);
    case Deliver => if w.inn != [] { DeliverKeepsOneGivesUp(w, env); }
    case DeliverLossy(payload) => Write(w.out, React(w.me, if payload then Payload else Noise, env).out);
    case _ =>
  }

  /** Both ends go on asking to the end of the run. */
  predicate StaysAsking(w: World, steps: seq<Step>)
    requires Sound(w)
    decreases |steps|
  {
    BothAsking(w) && (steps == [] || (SoundKept(w, steps[0]); StaysAsking(Next(w, steps[0]), steps[1..])))
  }

  /** The requests cross at some moment of the run, and from then on both ends go on asking. */
  predicate CrossesForGood(w: World, steps: seq<Step>)
    requires Sound(w)
    decreases |steps|
  {
    (Crossed(w) && StaysAsking(w, steps))
    || (steps != [] && (SoundKept(w, steps[0]); CrossesForGood(Next(w, steps[0]), steps[1..])))
  }

  lemma {:induction false} AskingMeansCrossed(w: World, steps: seq<Step>)
    requires FullyBacked(w) && GoodbyesSent(steps)
    requires NoControlInFlight(Run(w, steps)) && BothAsking(Run(w, steps))
    ensures CrossesForGood(w, steps) || (!OneGivesUp(w) && StaysAsking(w, steps))
    decreases |steps|
  {
    if steps != [] {
      assert steps[0] in steps;
      var v := if steps[0].mine then w else Mirror(w);
      if OneGivesUp(w) { OwnKeepsOneGivesUp(v, steps[0].act, steps[0].env); }
      FullyBackedKept(w, steps[0]);
      AskingMeansCrossed(Next(w, steps[0]), steps[1..]);
    }
  }

  lemma {:induction false} CrossedForGoodAt(w: World, steps: seq<Step>)
    requires Sound(w) && CrossesForGood(w, steps)
    ensures exists n: nat :: n <= |steps| && CrossedSince(w, steps, n)
    decreases |steps|
  {
    if Crossed(w) && StaysAsking(w, steps) {
      assert steps[..0] == [] && steps[0..] == steps;
      assert CrossedSince(w, steps, 0);
    } else {
      SoundKept(w, steps[0]);
      var w' := Next(w, steps[0]);
      CrossedForGoodAt(w', steps[1..]);
      var n: nat :| n <= |steps| - 1 && CrossedSince(w', steps[1..], n);
      assert steps[..n + 1][0] == steps[0] && steps[..n + 1][1..] == steps[1..][..n];
      assert steps[1..][n..] == steps[n + 1..];
      assert CrossedSince(w, steps, n + 1);
    }
  }

  /** After n steps both requests were unread, and both ends have gone on asking since. */
  predicate CrossedSince(w: World, steps: seq<Step>, n: nat)
    requires Sound(w) && n <= |steps|
  {
    Crossed(Run(w, steps[..n])) && StaysAsking(Run(w, steps[..n]), steps[n..])
  }

  lemma {:induction false} StillAsking(w: World, steps: seq<Step>)
    requires Sound(w) && StaysAsking(w, steps)
    ensures BothAsking(Run(w, steps))
    decreases |steps|
  {
    if steps != [] {
      SoundKept(w, steps[0]);
      StillAsking(Next(w, steps[0]), steps[1..]);
    }
  }

  lemma NotYetAsking()
    ensures FullyBacked(START) && OneGivesUp(START)
  {
  }

  lemma StillAskingSince(steps: seq<Step>, n: nat)
    requires n <= |steps| && CrossedSince(START, steps, n)
    ensures BothAsking(Run(START, steps))
  {
    hide BothAsking, StaysAsking, Crossed;
    StillAsking(Run(START, steps[..n]), steps[n..]);
    RunAppend(START, steps[..n], steps[n..]);
    assert steps[..n] + steps[n..] == steps;
  }

  /** In every run without a lost goodbye that has drained: both ends are left asking if and only if their
      requests crossed, both unread at some moment, and both ends have gone on asking since. */
  lemma BothAskingHaveCrossed(steps: seq<Step>)
    requires GoodbyesSent(steps) && NoControlInFlight(Run(START, steps))
    ensures BothAsking(Run(START, steps)) <==> exists n: nat :: n <= |steps| && CrossedSince(START, steps, n)
  {
    hide BothAsking, CrossedSince;
    if BothAsking(Run(START, steps)) {
      NotYetAsking();
      AskingMeansCrossed(START, steps);
      CrossedForGoodAt(START, steps);
    }
    if n: nat :| n <= |steps| && CrossedSince(START, steps, n) {
      StillAskingSince(steps, n);
    }
  }

  // --------------------------------------------------- only requests and deliveries

  predicate OnlyRequests(steps: seq<Step>) {
    forall s <- steps :: s.act == Deliver || s.act == User(RequestConnection)
  }

  /** `me` has asked and the requests have not crossed. */
  predicate Dialling(w: World) {
    && IsUp(w.me, OwnRequestPending)
    && ((w.peer.Idle? && w.out == [Request] && w.inn == [])
        || (IsUp(w.peer, FriendsRequestPending) && w.out == [] && w.inn == [])
        || (w.peer.Idle? && w.out == [] && w.inn == [Reset])
        || (IsUp(w.peer, OwnRequestPending) && w.out == [] && w.inn == [Reset, Request]))
  }

  predicate Uncrossed(w: World) {
    Sound(w) && w.lossyOut == 0 && w.lossyIn == 0 &&
    ((w.me.Idle? && w.peer.Idle? && NoControlInFlight(w)) || Dialling(w) || Dialling(Mirror(w)))
  }

  predicate UnreadRequests(c: seq<Msg>) { c == [] || c == [Request] }

  /** Two ends whose requests have crossed, read or not. */
  predicate Stalled(w: World) {
    Sound(w) && BothAsking(w) && UnreadRequests(w.out) && UnreadRequests(w.inn)
  }

  /** One step of the pair when neither end or `me` has asked. */
  lemma DiallingStep(w: World, step: Step)
    requires Uncrossed(w) && !Dialling(Mirror(w)) && step.env.goodbyeOk
    requires step.act == Deliver || step.act == User(RequestConnection)
    ensures var w' := Next(w, step);
      Uncrossed(w') || (Stalled(w') && w'.out == [Request] && w'.inn == [Request])
  {
    SoundKept(w, step);
    if Dialling(w) {
      if step.mine { DiallerActs(w, step); } else { DialledActs(w, step); }
    }
  }

  lemma DiallerActs(w: World, step: Step)
    requires Uncrossed(w) && Dialling(w) && step.mine
    requires step.act == Deliver || step.act == User(RequestConnection)
    ensures Uncrossed(Next(w, step))
  {
    SoundKept(w, step);
  }

  lemma DialledActs(w: World, step: Step)
    requires Uncrossed(w) && Dialling(w) && !step.mine && step.env.goodbyeOk
    requires step.act == Deliver || step.act == User(RequestConnection)
    ensures var w' := Next(w, step);
      Uncrossed(w') || (Stalled(w') && w'.out == [Request] && w'.inn == [Request])
  {
    SoundKept(w, step);
  }

  lemma UncrossedStep(w: World, step: Step)
    requires Uncrossed(w) && step.env.goodbyeOk && (step.act == Deliver || step.act == User(RequestConnection))
    ensures var w' := Next(w, step);
      Uncrossed(w') || (Stalled(w') && w'.out == [Request] && w'.inn == [Request])
  {
    if Dialling(Mirror(w)) {
      DiallingStep(Mirror(w), step.(mine := !step.mine));
    } else {
      DiallingStep(w, step);
    }
  }

  lemma StalledStep(w: World, step: Step)
    requires Stalled(w) && (step.act == Deliver || step.act == User(RequestConnection))
    ensures Stalled(Next(w, step))
  {
    SoundKept(w, step);
  }

  lemma {:induction false} StalledRun(w: World, steps: seq<Step>)
    requires Stalled(w) && OnlyRequests(steps)
    ensures Stalled(Run(w, steps))
    decreases |steps|
  {
    if steps != [] {
      assert steps[0] in steps;
      StalledStep(w, steps[0]);
      StalledRun(Next(w, steps[0]), steps[1..]);
    }
  }

  /** The run goes through such a moment. */
  predicate Crosses(w: World, steps: seq<Step>)
    requires Sound(w)
    decreases |steps|
  {
    Crossed(w) || (steps != [] && (SoundKept(w, steps[0]); Crosses(Next(w, steps[0]), steps[1..])))
  }

  lemma {:induction false} CrossesAt(w: World, steps: seq<Step>)
    requires Sound(w)
    ensures Crosses(w, steps) <==> exists n: nat :: n <= |steps| && Crossed(Run(w, steps[..n]))
    decreases |steps|
  {
    if Crossed(w) {
      assert Run(w, steps[..0]) == w;
    } else if steps == [] {
      assert forall n: nat :: n <= |steps| ==> steps[..n] == [];
    } else {
      SoundKept(w, steps[0]);
      var w' := Next(w, steps[0]);
      CrossesAt(w', steps[1..]);
      forall n: nat | 0 < n <= |steps|
        ensures Run(w, steps[..n]) == Run(w', steps[1..][..n - 1])
      {
        assert steps[..n][0] == steps[0] && steps[..n][1..] == steps[1..][..n - 1];
      }
      if Crosses(w', steps[1..]) {
        var n: nat :| n <= |steps| - 1 && Crossed(Run(w', steps[1..][..n]));
        assert Crossed(Run(w, steps[..n + 1]));
      }
      assert Run(w, steps[..0]) == w;
    }
  }

  /** Until the requests cross, the pair is in one of the uncrossed shapes; from then on it is stalled. */
  lemma {:induction false} RequestsOnly(w: World, steps: seq<Step>)
    requires Uncrossed(w) && GoodbyesSent(steps) && OnlyRequests(steps)
    ensures if Crosses(w, steps) then Stalled(Run(w, steps)) else Uncrossed(Run(w, steps))
    decreases |steps|
  {
    if steps != [] {
      assert steps[0] in steps;
      UncrossedStep(w, steps[0]);
      var w' := Next(w, steps[0]);
      if Uncrossed(w') {
        RequestsOnly(w', steps[1..]);
      } else {
        assert Crosses(w', steps[1..]);
        StalledRun(w', steps[1..]);
      }
    }
  }

  lemma {:induction false} UnreadAtOnce(w: World, steps: seq<Step>)
    requires (Uncrossed(w) || Stalled(w)) && GoodbyesSent(steps) && OnlyRequests(steps)
    ensures var v := Run(w, steps); Crossed(v) <==> v.out == [Request] && v.inn == [Request]
    decreases |steps|
  {
    if Stalled(w) { StalledRun(w, steps); } else { RequestsOnly(w, steps); }
  }

  lemma UnreadAtOnceInPrefixes(steps: seq<Step>)
    requires GoodbyesSent(steps) && OnlyRequests(steps)
    ensures forall n: nat :: n <= |steps| ==>
      (Crossed(Run(START, steps[..n])) <==>
       Run(START, steps[..n]).out == [Request] && Run(START, steps[..n]).inn == [Request])
  {
    forall n: nat | n <= |steps|
      ensures Crossed(Run(START, steps[..n])) <==>
        Run(START, steps[..n]).out == [Request] && Run(START, steps[..n]).inn == [Request]
    {
      UnreadAtOnce(START, steps[..n]);
    }
  }

  /** When users do nothing but request, in any order and as often as they like, and every packet gets
      read: both ends are left waiting for an answer if and only if at some moment both requests
      were under way at once. */
  lemma CrossedRequestsStall(steps: seq<Step>)
    requires GoodbyesSent(steps) && OnlyRequests(steps) && NoControlInFlight(Run(START, steps))
    ensures BothAsking(Run(START, steps)) <==>
      exists n: nat :: n <= |steps| &&
        Run(START, steps[..n]).out == [Request] && Run(START, steps[..n]).inn == [Request]
  {
    RequestsOnly(START, steps);
    CrossesAt(START, steps);
    UnreadAtOnceInPrefixes(steps);
  }
}
