/**
 The condition of Callers cannot be weakened: a request sent at any other moment can leave an end ringing
 for nobody, or calling nobody, with no goodbye lost and no further request.
*/
module CallCondition {
  import opened Endpoint
  import opened Protocol
  import opened Agreement
  import opened Runs
  import opened Callers

  /** No user requests a connection. */
  predicate NoRequests(steps: seq<Step>) {
    forall s <- steps :: s.act != User(RequestConnection)
  }

  predicate StrandedAfter(w: World, rest: seq<Step>)
    requires Sound(w)
  {
    GoodbyesSent(rest) && NoRequests(rest) && NoControlInFlight(Run(w, rest)) && !ShownFit(Run(w, rest))
  }

  /** Without another request and without a lost goodbye the pair can drain to a state whose two
      displays do not fit. */
  ghost predicate Strandable(w: World) {
    Sound(w) && exists rest :: StrandedAfter(w, rest)
  }

  lemma StrandedNow(w: World)
    requires Sound(w) && NoControlInFlight(w) && !ShownFit(w)
    ensures Strandable(w)
  {
    assert StrandedAfter(w, []);
  }

  lemma StrandedLater(w: World, step: Step)
    requires Sound(w) && step.env.goodbyeOk && step.act != User(RequestConnection)
    requires Strandable(Next(w, step))
    ensures Strandable(w)
  {
    var w' := Next(w, step);
    var rest :| StrandedAfter(w', rest);
    var all := [step] + rest;
    assert all[1..] == rest && Run(w, all) == Run(w', rest);
    assert StrandedAfter(w, all);
  }

  /** Every reply but a goodbye fails to be sent; then the reader gives up with a Reset. */
  const ONLY_GOODBYES := GOOD.(sendOk := false)

  lemma OnlyResets(e: End, m: Msg)
    requires WellFormed(e)
    ensures var r := React(e, Control(m), ONLY_GOODBYES); r.out == [] || r.out == [Reset]
  {
  }

  /** The peer reads the oldest packet under way to it, able to answer with goodbyes only. */
  function PeerReads(w: World): World
    requires Sound(w) && w.out != []
  {
    Next(w, Step(false, Deliver, ONLY_GOODBYES))
  }

  lemma PeerReadsFacts(w: World)
    requires FullyBacked(w) && w.out != []
    ensures var r := React(w.peer, Control(w.out[0]), ONLY_GOODBYES);
      && PeerReads(w) == w.(peer := r.end, out := w.out[1..], inn := w.inn + r.out)
      && (r.out == [] || r.out == [Reset])
      && FullyBacked(PeerReads(w))
    ensures Strandable(PeerReads(w)) ==> Strandable(w)
  {
    OnlyResets(w.peer, w.out[0]);
    FullyBackedKept(w, Step(false, Deliver, ONLY_GOODBYES));
    if Strandable(PeerReads(w)) { StrandedLater(w, Step(false, Deliver, ONLY_GOODBYES)); }
  }

  /** A Reset or a Reject alone under way to an end that does not answer it. */
  lemma SilentlyIdle(w: World)
    requires FullyBacked(w) && (w.inn == [Reset] || (w.inn == [Reject] && IsUp(w.me, OwnRequestPending)))
    ensures FullyBacked(w.(me := Idle, inn := []))
    ensures Strandable(w.(me := Idle, inn := [])) ==> Strandable(w)
  {
    FullyBackedKept(w, Mine(Deliver));
    assert Next(w, Mine(Deliver)) == w.(me := Idle, inn := []);
    if Strandable(w.(me := Idle, inn := [])) { StrandedLater(w, Mine(Deliver)); }
  }

  /** The caller has gone idle with its request unread: the peer will ring for nobody. */
  lemma {:induction false} GoneCallerStrands(w: World, c: seq<Msg>)
    requires FullyBacked(w) && w.me.Idle? && w.inn == [] && w.out == c + [Request]
    ensures Strandable(w)
    decreases |c|
  {
    hide Strandable;
    PeerReadsFacts(w);
    var w1 := PeerReads(w);
    if c == [] {
      StrandedNow(w1);
    } else {
      assert w1.out == c[1..] + [Request];
      if w1.inn == [] {
        GoneCallerStrands(w1, c[1..]);
      } else {
        SilentlyIdle(w1);
        GoneCallerStrands(w1.(me := Idle, inn := []), c[1..]);
      }
    }
  }

  /** The caller waits, but the peer will not take what is ahead of the request silently. */
  lemma {:induction false} StartledPeerStrands(w: World, c: seq<Msg>)
    requires FullyBacked(w) && IsUp(w.me, OwnRequestPending) && w.inn == [] && w.out == c + [Request]
    requires w.lossyOut > 0 || !Quiet(w.peer, c)
    ensures Strandable(w)
    decreases |c|
  {
    hide Strandable;
    if w.peer.Up? && w.peer.s.phase != Connected {
      UserEndsStrand(w, c);
    } else if c == [] {
      EmptyAhead(w);
    } else {
      PeerReadsFacts(w);
      var w1 := PeerReads(w);
      assert w1.out == c[1..] + [Request];
      if w1.inn == [] {
        StartledPeerStrands(w1, c[1..]);
      } else {
        SilentlyIdle(w1);
        GoneCallerStrands(w1.(me := Idle, inn := []), c[1..]);
      }
    }
  }

  /** The peer's user hangs up before the request is read. */
  lemma UserEndsStrand(w: World, c: seq<Msg>)
    requires FullyBacked(w) && IsUp(w.me, OwnRequestPending) && w.inn == [] && w.out == c + [Request]
    requires w.peer.Up? && w.peer.s.phase != Connected
    ensures Strandable(w)
  {
    var hangUp := Theirs(User(CloseConnection));
    var w1 := Next(w, hangUp);
    FullyBackedKept(w, hangUp);
    SilentlyIdle(w1);
    GoneCallerStrands(w1.(me := Idle, inn := []), c);
    StrandedLater(w, hangUp);
  }

  /** Old payload reaches the idle peer before the request does. */
  lemma EmptyAhead(w: World)
    requires FullyBacked(w) && IsUp(w.me, OwnRequestPending) && w.inn == [] && w.out == [] + [Request]
    requires w.lossyOut > 0 || !Quiet(w.peer, [])
    requires w.peer.Idle? || IsUp(w.peer, Connected)
    ensures Strandable(w)
  {
    assert w.out == [Request];
    LastWordNone(w.out);
    assert w.peer.Idle?;
    var payload := Theirs(DeliverLossy(true));
    var w1 := Next(w, payload);
    FullyBackedKept(w, payload);
    SilentlyIdle(w1);
    GoneCallerStrands(w1.(me := Idle, inn := []), []);
    StrandedLater(w, payload);
  }

  /** The own call is over and `me` rings for the friend's. What the peer reads ahead of the own request
      makes it answer with a Reset; that ends the ringing, and the request finds a peer without a caller. */
  lemma {:induction false} RousedPeerStrands(w: World, c: seq<Msg>)
    requires FullyBacked(w) && IsUp(w.me, FriendsRequestPending) && w.inn == [] && w.out == c + [Request]
    requires Speaks(w.peer, c)
    ensures Strandable(w)
    decreases |c|
  {
    hide Strandable;
    PeerReadsFacts(w);
    SpeaksRead(w.peer, c, ONLY_GOODBYES);
    var w1 := PeerReads(w);
    assert w1.out == c[1..] + [Request];
    if w1.inn == [] {
      RousedPeerStrands(w1, c[1..]);
    } else {
      SilentlyIdle(w1);
      GoneCallerStrands(w1.(me := Idle, inn := []), c[1..]);
    }
  }

  /** Reading a packet to which nothing is said. */
  lemma ReadSilently(w: World)
    requires FullyBacked(w) && w.inn != [] && !Speaks(w.me, w.inn)
    ensures var w1 := w.(me := React(w.me, Control(w.inn[0]), GOOD).end, inn := w.inn[1..]);
      && FullyBacked(w1) && !Speaks(w1.me, w1.inn)
      && (Strandable(w1) ==> Strandable(w))
  {
    var r := React(w.me, Control(w.inn[0]), GOOD);
    assert r.out == [];
    assert w.out + [] == w.out;
    FullyBackedKept(w, Mine(Deliver));
    if Strandable(w.(me := r.end, inn := w.inn[1..])) { StrandedLater(w, Mine(Deliver)); }
  }

  /** The caller reads all that is under way to it and says nothing. */
  lemma {:induction false} SilentCallerStrands(w: World, c: seq<Msg>)
    requires FullyBacked(w) && w.out == c + [Request] && !Speaks(w.me, w.inn)
    requires w.me.Idle? || IsUp(w.me, OwnRequestPending) || IsUp(w.me, FriendsRequestPending)
    requires (if w.inn == [] then w.me.Up? else Last(w.inn) == Request) ==> Speaks(w.peer, c)
    ensures Strandable(w)
    decreases |w.inn|
  {
    hide Strandable;
    if w.inn != [] {
      ReadSilently(w);
      SilentCallerStrands(w.(me := React(w.me, Control(w.inn[0]), GOOD).end, inn := w.inn[1..]), c);
    } else if w.me.Idle? {
      GoneCallerStrands(w, c);
    } else if IsUp(w.me, FriendsRequestPending) {
      RousedPeerStrands(w, c);
    } else {
      if Quiet(w.peer, c) { QuietIsSilent(w.peer, c); }
      StartledPeerStrands(w, c);
    }
  }

  /** Two calls cross behind some Resets, and one user hangs up again. */
  lemma CrossedCallsStrand(w: World, c: seq<Msg>)
    requires Sound(w) && IsUp(w.me, OwnRequestPending) && IsUp(w.peer, OwnRequestPending)
    requires w.out == [Request] && w.inn == c + [Request] && Quiet(Idle, c)
    ensures Strandable(w)
  {
    var hangUp := Mine(User(CloseConnection));
    var w1 := Next(w, hangUp);
    assert w1 == w.(me := Idle, out := [Request, Reset]);
    HungUpStrands(w1, c);
    StrandedLater(w, hangUp);
  }

  lemma {:induction false} HungUpStrands(w: World, c: seq<Msg>)
    requires Sound(w) && w.me.Idle? && IsUp(w.peer, OwnRequestPending)
    requires w.out == [Request, Reset] && w.inn == c + [Request] && Quiet(Idle, c)
    ensures Strandable(w)
    decreases |c|
  {
    var w1 := Next(w, Mine(Deliver));
    if c == [] {
      assert w1 == w.(me := Up(NewSession(false)), inn := []);
      var w2 := Next(w1, Theirs(Deliver));
      assert w2 == w1.(out := [Reset]);
      var w3 := Next(w2, Theirs(Deliver));
      assert w3 == w2.(peer := Idle, out := []);
      StrandedNow(w3);
      StrandedLater(w2, Theirs(Deliver));
      StrandedLater(w1, Theirs(Deliver));
    } else {
      assert w1 == w.(inn := c[1..] + [Request]);
      HungUpStrands(w1, c[1..]);
    }
    StrandedLater(w, Mine(Deliver));
  }

  /** A request sent at a moment when it may not be. */
  lemma RashCallStrands(w: World)
    requires Attended(w) && FullyBacked(w) && w.me.Idle? && !MayCall(w)
    ensures Strandable(w.(me := Up(NewSession(true)), out := w.out + [Request]))
  {
    var call := Mine(User(RequestConnection));
    var w1 := w.(me := Up(NewSession(true)), out := w.out + [Request]);
    assert Next(w, call) == w1;
    FullyBackedKept(w, call);
    if w.inn == [] {
      StartledPeerStrands(w1, w.out);
    } else if Last(w.inn) == Request && !Speaks(w.peer, w.out) {
      var c := w.inn[..|w.inn| - 1];
      assert w.inn == c + [Request];
      assert w1.out == [Request];
      CrossedCallsStrand(w1, c);
    } else {
      SilentCallerStrands(w1, w.out);
    }
  }

  lemma {:induction false} NoRequestsCareful(w: World, steps: seq<Step>)
    requires Sound(w) && NoRequests(steps)
    ensures Careful(w, steps)
    decreases |steps|
  {
    if steps != [] {
      assert steps[0] in steps;
      SoundKept(w, steps[0]);
      NoRequestsCareful(Next(w, steps[0]), steps[1..]);
    }
  }

  /** Whatever careful run follows, the pair drains only to states in which the displays fit. */
  ghost predicate AlwaysFits(w: World)
    requires Sound(w)
  {
    forall rest :: GoodbyesSent(rest) && Careful(w, rest) && NoControlInFlight(Run(w, rest)) ==> ShownFit(Run(w, rest))
  }

  /** The world after `me` has requested a connection. */
  function Requested(w: World): (r: World)
    requires Sound(w)
    ensures Sound(r)
  {
    SoundKept(w, Mine(User(RequestConnection)));
    Next(w, Mine(User(RequestConnection)))
  }

  lemma ConditionExact(w: World)
    requires Attended(w) && FullyBacked(w) && w.me.Idle?
    ensures MayCall(w) <==> AlwaysFits(Requested(w))
  {
    var call := Mine(User(RequestConnection));
    var w1 := Requested(w);
    FullyBackedKept(w, call);
    if MayCall(w) {
      AttendedKept(w, call);
      forall rest | GoodbyesSent(rest) && Careful(w1, rest) && NoControlInFlight(Run(w1, rest))
        ensures ShownFit(Run(w1, rest))
      {
        RunKeepsAttended(w1, rest);
        RunKeepsBacked(w1, rest);
        DrainedFits(Run(w1, rest));
      }
    } else {
      RashCallStrands(w);
      var rest :| StrandedAfter(w1, rest);
      NoRequestsCareful(w1, rest);
      assert !ShownFit(Run(w1, rest));
    }
  }

  /** The exact condition, for either user: in any careful run, a request sent next keeps the two displays
      fitting in every drained state of every careful continuation if and only if it may be sent. */
  lemma MayCallExact(steps: seq<Step>)
    requires GoodbyesSent(steps) && Careful(START, steps)
    ensures var w := Run(START, steps);
      w.me.Idle? ==> (MayCall(w) <==> AlwaysFits(Requested(w)))
    ensures var v := Mirror(Run(START, steps));
      v.me.Idle? ==> (MayCall(v) <==> AlwaysFits(Requested(v)))
  {
    var w := Run(START, steps);
    RunKeepsAttended(START, steps);
    RunKeepsBacked(START, steps);
    if w.me.Idle? { ConditionExact(w); }
    if w.peer.Idle? { ConditionExact(Mirror(w)); }
  }

  // ------------------------------------------ what a new caller answers, in terms of the packets

  lemma {:induction false} IdleAnswers(e: End, c: seq<Msg>)
    requires WellFormed(e) && (e.Idle? || IsUp(e, FriendsRequestPending))
    ensures Speaks(e, c) <==> exists i :: 0 <= i < |c| && c[i] != Request && c[i] != Reset
    decreases |c|
  {
    if c != [] {
      var r := React(e, Control(c[0]), GOOD);
      ReactKeepsShape(e, Control(c[0]), GOOD);
      if c[0] == Request || c[0] == Reset {
        IdleAnswers(r.end, c[1..]);
        forall i | 0 <= i < |c| && c[i] != Request && c[i] != Reset
          ensures c[i] == c[1..][i - 1]
        {}
      } else {
        assert c[0] != Request && c[0] != Reset;
      }
    }
  }

  /** A new caller will be heard of again if and only if something other than Requests and Resets is
      under way to it, not counting a Reject that only Requests precede. */
  lemma {:induction false} CallerAnswers(c: seq<Msg>)
    ensures Speaks(Up(NewSession(true)), c) <==>
      exists i :: 0 <= i < |c| && c[i] != Request && c[i] != Reset && (c[i] == Reject ==> !AllRequests(c[..i]))
    decreases |c|
  {
    var e := Up(NewSession(true));
    if c != [] {
      var rest := c[1..];
      ReactKeepsShape(e, Control(c[0]), GOOD);
      forall i | 0 < i < |c|
        ensures c[i] == rest[i - 1]
        ensures AllRequests(c[..i]) <==> c[0] == Request && AllRequests(rest[..i - 1])
      {
        Read(c[..i]);
        assert c[..i][1..] == rest[..i - 1];
      }
      if c[0] == Request {
        CallerAnswers(rest);
      } else if c[0] == Reset || c[0] == Reject {
        IdleAnswers(Idle, rest);
      } else {
        assert c[0] != Request && c[0] != Reset;
      }
    }
  }
}
