/**
 Whether an end that is shown as ringing has a caller: the exact condition on what is under way when a
 user requests a connection.
*/
module Callers {
  import opened Packets
  import opened Endpoint
  import opened Protocol
  import opened Agreement
  import opened Runs

  /** One user is shown the friend's call if and only if the other is shown the own call. */
  predicate ShownFit(w: World) {
    && (Shown(w.me) == FriendIsRinging <==> Shown(w.peer) == RingingAtFriend)
    && (Shown(w.peer) == FriendIsRinging <==> Shown(w.me) == RingingAtFriend)
  }

  /** An end that reads c, and is left alone otherwise, will put a packet under way. */
  predicate Speaks(e: End, c: seq<Msg>)
    requires WellFormed(e)
    decreases |c|
  {
    c != [] &&
    var r := React(e, Control(c[0]), GOOD);
    ReactKeepsShape(e, Control(c[0]), GOOD);
    r.out != [] || Speaks(r.end, c[1..])
  }

  /** An idle end to which only Resets are under way, or a connected one to which a Close or a Reset and
      then only Resets are: reading all of c it says nothing and is idle in the end. */
  predicate Quiet(e: End, c: seq<Msg>)
    decreases |c|
  {
    if c == [] then e.Idle?
    else if e.Idle? then c[0] == Reset && Quiet(Idle, c[1..])
    else if IsUp(e, Connected) && c[0] == Request then Quiet(e, c[1..])
    else IsUp(e, Connected) && (c[0] == Close || c[0] == Reset) && Quiet(Idle, c[1..])
  }

  /** What may be under way when `me` requests: either something from the peer that a requesting end
      answers with more than silence, so that the peer will hear of it again; or nothing from the
      peer, no lossy packet to it, and only what it will take silently, ending idle. */
  predicate MayCall(w: World) {
    || Speaks(Up(NewSession(true)), w.inn)
    || (w.inn == [] && w.lossyOut == 0 && Quiet(w.peer, w.out))
  }

  /** The step creates a connection object and sends its request. */
  predicate Calls(w: World, step: Step) {
    step.act == User(RequestConnection) && step.env.tunOk && step.env.sendOk
    && if step.mine then w.me.Idle? else w.peer.Idle?
  }

  /** Every request of the run is sent at a moment when it may be. */
  predicate Careful(w: World, steps: seq<Step>)
    requires Sound(w)
    decreases |steps|
  {
    steps == [] ||
    (&& (Calls(w, steps[0]) ==> MayCall(if steps[0].mine then w else Mirror(w)))
     && (SoundKept(w, steps[0]); Careful(Next(w, steps[0]), steps[1..])))
  }

  // ------------------------------------------------------------- the invariant

  /** A ringing peer: something will end its ringing, or `me` is its caller. */
  predicate RingBacked(w: World)
    requires Sound(w)
  {
    IsUp(w.peer, FriendsRequestPending) ==>
      !AllRequests(w.out) || Speaks(w.me, w.inn) || (IsUp(w.me, OwnRequestPending) && w.inn == [])
  }

  /** A request that is the newest packet under way: `me` will speak again, or it is the caller still
      and nothing stands between the request and an idle peer. */
  predicate CallBacked(w: World)
    requires Sound(w)
  {
    w.out != [] && Last(w.out) == Request ==>
      || Speaks(w.me, w.inn)
      || (&& IsUp(w.me, OwnRequestPending) && w.inn == [] && w.lossyOut == 0
          && Quiet(w.peer, w.out[..|w.out| - 1]))
  }

  /** Two callers at once: one of them will learn that its call is over. */
  predicate NotBothCall(w: World) {
    IsUp(w.me, OwnRequestPending) && IsUp(w.peer, OwnRequestPending) ==>
      !AllRequests(w.out) || !AllRequests(w.inn)
  }

  predicate Attended(w: World) {
    && Sound(w) && NotBothCall(w)
    && RingBacked(w) && CallBacked(w) && RingBacked(Mirror(w)) && CallBacked(Mirror(w))
  }

  // ------------------------------------------------- speaking and staying quiet

  lemma {:induction false} SpeaksMore(e: End, c: seq<Msg>, more: seq<Msg>)
    requires WellFormed(e) && Speaks(e, c)
    ensures Speaks(e, c + more)
    decreases |c|
  {
    assert (c + more)[1..] == c[1..] + more;
    var r := React(e, Control(c[0]), GOOD);
    ReactKeepsShape(e, Control(c[0]), GOOD);
    if r.out == [] { SpeaksMore(r.end, c[1..], more); }
  }

  /** Whatever the environment, as long as goodbyes are sent. */
  lemma SpeaksRead(e: End, c: seq<Msg>, env: Env)
    requires WellFormed(e) && Speaks(e, c) && env.goodbyeOk
    ensures var r := React(e, Control(c[0]), env);
      WellFormed(r.end) && (r.out == [] ==> Speaks(r.end, c[1..]))
  {
    ReactKeepsShape(e, Control(c[0]), env);
    ReactKeepsShape(e, Control(c[0]), GOOD);
  }

  /** A reaction never sends a request. */
  lemma ReactionsAnswer(e: End, input: Input, env: Env)
    requires WellFormed(e)
    ensures Request !in React(e, input, env).out
  {
  }

  lemma {:induction false} RequestsAreSilent(e: End, c: seq<Msg>)
    requires WellFormed(e) && AllRequests(c)
    ensures !Speaks(e, c)
    decreases |c|
  {
    if c != [] {
      var r := React(e, Control(c[0]), GOOD);
      ReactKeepsShape(e, Control(c[0]), GOOD);
      assert r.out == [];
      RequestsAreSilent(r.end, c[1..]);
    }
  }

  lemma {:induction false} QuietIsSilent(e: End, c: seq<Msg>)
    requires WellFormed(e) && Quiet(e, c)
    ensures !Speaks(e, c) && !Speaks(e, c + [Request])
    decreases |c|
  {
    if c == [] {
      assert c + [Request] == [Request];
      RequestsAreSilent(e, [Request]);
    } else {
      assert (c + [Request])[1..] == c[1..] + [Request];
      var r := React(e, Control(c[0]), GOOD);
      ReactKeepsShape(e, Control(c[0]), GOOD);
      QuietIsSilent(r.end, c[1..]);
    }
  }

  /** Nor would a new caller speak after Resets and a request. */
  lemma ResetsSilenceCaller(c: seq<Msg>)
    requires Quiet(Idle, c)
    ensures !Speaks(Up(NewSession(true)), c + [Request])
  {
    if c == [] {
      assert c + [Request] == [Request];
      RequestsAreSilent(Up(NewSession(true)), [Request]);
    } else {
      assert (c + [Request])[1..] == c[1..] + [Request];
      QuietIsSilent(Idle, c[1..]);
    }
  }

  // ----------------------------------------------------------- steps keep it all

  lemma NewestRequest(c: seq<Msg>)
    requires c != [] && AllRequests(c)
    ensures Last(c) == Request
  {
  }

  // A packet is read: first the clauses about `me` as a caller.

  lemma ReaderKeepsRing(w: World, env: Env)
    requires Sound(w) && RingBacked(w) && w.inn != [] && env.goodbyeOk
    ensures Sound(AfterDelivery(w, env)) && RingBacked(AfterDelivery(w, env))
  {
    hide AllRequests, LastWord;
    var r := React(w.me, Control(w.inn[0]), env);
    ReactKeepsShape(w.me, Control(w.inn[0]), env);
    ReactionsAnswer(w.me, Control(w.inn[0]), env);
    Write(w.out, r.out);
    if Speaks(w.me, w.inn) { SpeaksRead(w.me, w.inn, env); }
  }

  lemma ReaderKeepsCall(w: World, env: Env)
    requires Sound(w) && CallBacked(w) && w.inn != [] && env.goodbyeOk
    ensures Sound(AfterDelivery(w, env)) && CallBacked(AfterDelivery(w, env))
  {
    hide AllRequests, LastWord;
    var r := React(w.me, Control(w.inn[0]), env);
    ReactKeepsShape(w.me, Control(w.inn[0]), env);
    ReactionsAnswer(w.me, Control(w.inn[0]), env);
    Write(w.out, r.out);
    if Speaks(w.me, w.inn) { SpeaksRead(w.me, w.inn, env); }
  }

  lemma ReaderKeepsNotBoth(w: World, env: Env)
    requires Sound(w) && NotBothCall(w) && w.inn != []
    ensures NotBothCall(AfterDelivery(w, env))
  {
    hide AllRequests, LastWord;
    var r := React(w.me, Control(w.inn[0]), env);
    ReactKeepsShape(w.me, Control(w.inn[0]), env);
    Write(w.out, r.out);
    Read(w.inn);
  }

  // And those about the reader as the one that rings.

  lemma RingerKeepsRing(w: World, env: Env)
    requires Sound(w) && RingBacked(Mirror(w)) && CallBacked(Mirror(w)) && w.inn != [] && env.goodbyeOk
    ensures Sound(AfterDelivery(w, env)) && RingBacked(Mirror(AfterDelivery(w, env)))
  {
    hide AllRequests, LastWord;
    var r := React(w.me, Control(w.inn[0]), env);
    ReactKeepsShape(w.me, Control(w.inn[0]), env);
    if AllRequests(w.inn) { NewestRequest(w.inn); }
    Read(w.inn);
    if Speaks(w.peer, w.out) { SpeaksMore(w.peer, w.out, r.out); }
  }

  lemma RingerKeepsCall(w: World, env: Env)
    requires Sound(w) && CallBacked(Mirror(w)) && w.inn != [] && env.goodbyeOk
    ensures Sound(AfterDelivery(w, env)) && CallBacked(Mirror(AfterDelivery(w, env)))
  {
    var r := React(w.me, Control(w.inn[0]), env);
    ReactKeepsShape(w.me, Control(w.inn[0]), env);
    Read(w.inn);
    if Speaks(w.peer, w.out) { SpeaksMore(w.peer, w.out, r.out); }
    if |w.inn| > 1 {
      assert w.inn[..|w.inn| - 1][1..] == w.inn[1..][..|w.inn[1..]| - 1];
      assert w.inn[..|w.inn| - 1][0] == w.inn[0];
    }
  }

  lemma DeliverKeepsAttended(w: World, env: Env)
    requires Attended(w) && w.inn != [] && env.goodbyeOk
    ensures Attended(AfterDelivery(w, env))
  {
    ReaderKeepsRing(w, env);
    ReaderKeepsCall(w, env);
    ReaderKeepsNotBoth(w, env);
    RingerKeepsRing(w, env);
    RingerKeepsCall(w, env);
  }

  lemma LossyKeepsAttended(w: World, input: Input, env: Env)
    requires Attended(w) && w.lossyIn > 0 && env.goodbyeOk && (input == Payload || input == Noise)
    ensures Attended(Apply(w.(lossyIn := w.lossyIn - 1), React(w.me, input, env)))
  {
    hide AllRequests, LastWord;
    var r := React(w.me, input, env);
    ReactKeepsShape(w.me, input, env);
    ReactionsAnswer(w.me, input, env);
    Write(w.out, r.out);
    if Speaks(w.peer, w.out) { SpeaksMore(w.peer, w.out, r.out); }
  }

  /** A call other than a request sends a packet or changes nothing. */
  lemma OtherCallsAnswer(e: End, call: Call, env: Env)
    requires WellFormed(e) && env.goodbyeOk
    requires !(call == RequestConnection && e.Idle? && env.tunOk && env.sendOk)
    ensures var r := UserCall(e, call, env);
      && Request !in r.out
      && (r.end != e ==> r.out != [] && !IsUp(r.end, FriendsRequestPending) && !IsUp(r.end, OwnRequestPending))
      && (r.out != [] ==> e.Up?)
      && (IsUp(e, Connected) ==> r.out == [] || r.out == [Close])
  {
  }

  lemma OtherCallKeepsAttended(w: World, call: Call, env: Env)
    requires Attended(w) && env.goodbyeOk
    requires !(call == RequestConnection && w.me.Idle? && env.tunOk && env.sendOk)
    ensures Attended(Apply(w, UserCall(w.me, call, env)))
  {
    hide AllRequests, LastWord;
    var r := UserCall(w.me, call, env);
    CallKeepsShape(w.me, call, env);
    OtherCallsAnswer(w.me, call, env);
    Write(w.out, r.out);
    if Speaks(w.peer, w.out) { SpeaksMore(w.peer, w.out, r.out); }
    if IsUp(w.peer, OwnRequestPending) && w.out == [] { CallerHearsClose(w.peer); }
  }

  lemma CallerHearsClose(e: End)
    requires WellFormed(e) && IsUp(e, OwnRequestPending)
    ensures Speaks(e, [Close])
  {
    assert React(e, Control(Close), GOOD).out == [Reset];
  }

  lemma RequestKeepsAttended(w: World)
    requires Attended(w) && w.me.Idle? && MayCall(w)
    ensures Attended(w.(me := Up(NewSession(true)), out := w.out + [Request]))
  {
    hide AllRequests, LastWord;
    var w' := w.(me := Up(NewSession(true)), out := w.out + [Request]);
    Write(w.out, [Request]);
    assert w'.out[..|w'.out| - 1] == w.out;
    if AllRequests(w.inn) { RequestsAreSilent(w'.me, w.inn); }
    if Speaks(w.peer, w.out) { SpeaksMore(w.peer, w.out, [Request]); }
    if w.inn != [] && Last(w.inn) == Request && !Speaks(w.peer, w.out) {
      assert w.inn == w.inn[..|w.inn| - 1] + [Request];
      ResetsSilenceCaller(w.inn[..|w.inn| - 1]);
      assert false;
    }
  }

  lemma OwnKeepsAttended(w: World, act: Act, env: Env)
    requires Attended(w) && env.goodbyeOk
    requires Calls(w, Step(true, act, env)) ==> MayCall(w)
    ensures Attended(Own(w, act, env))
  {
    match act
    case User(call) =>
      if Calls(w, Step(true, act, env)) { RequestKeepsAttended(w); } else { OtherCallKeepsAttended(w, call, env); }
    case Deliver => if w.inn != [] { DeliverKeepsAttended(w, env); }
    case DeliverLossy(payload) =>
      if w.lossyIn > 0 { LossyKeepsAttended(w, if payload then Payload else Noise, env); }
    case _ =>
  }

  lemma AttendedKept(w: World, step: Step)
    requires Attended(w) && step.env.goodbyeOk
    requires Calls(w, step) ==> MayCall(if step.mine then w else Mirror(w))
    ensures Attended(Next(w, step))
  {
    OwnKeepsAttended(if step.mine then w else Mirror(w), step.act, step.env);
  }

  lemma {:induction false} RunKeepsAttended(w: World, steps: seq<Step>)
    requires Attended(w) && GoodbyesSent(steps) && Careful(w, steps)
    ensures Attended(Run(w, steps))
    decreases |steps|
  {
    if steps != [] {
      assert steps[0] in steps;
      AttendedKept(w, steps[0]);
      RunKeepsAttended(Next(w, steps[0]), steps[1..]);
    }
  }

  lemma DrainedFits(w: World)
    requires Attended(w) && FullyBacked(w) && NoControlInFlight(w)
    ensures ShownFit(w)
  {
    SettledFromBacked(w);
  }

  /** With no goodbye lost and every request sent at a moment when it may be: once the control channels
      have drained, an end is shown that its friend is ringing if and only if the friend is shown
      that it rings here. */
  lemma CarefulCallsFit(steps: seq<Step>)
    requires GoodbyesSent(steps) && Careful(START, steps) && NoControlInFlight(Run(START, steps))
    ensures ShownFit(Run(START, steps))
  {
    RunKeepsAttended(START, steps);
    RunKeepsBacked(START, steps);
    DrainedFits(Run(START, steps));
  }
}
