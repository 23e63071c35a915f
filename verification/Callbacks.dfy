/**
 The events a user sees (src/ToxTun.hpp, ToxTun::Event): over all runs of one end, against any peer, each
 session's events form one word of a small grammar.
*/
module Callbacks {
  import opened Packets
  import opened Endpoint
  import opened Protocol

  datatype Happening = Arrives(input: Input, env: Env) | Calls(call: Call, env: Env)

  /** How a session ended: in which state, and on what. */
  datatype Fate = Going | Ended(from: Phase, cause: Happening)

  /** The events of one session, the end's role in it, and what became of it. */
  datatype Record = Record(initiator: bool, events: seq<Event>, fate: Fate)

  datatype Log = Log(end: End, sessions: seq<Record>)

  function ReactionTo(e: End, h: Happening): Reaction
    requires WellFormed(e)
  {
    match h
    case Arrives(input, env) => React(e, input, env)
    case Calls(call, env) => UserCall(e, call, env)
  }

  /** A connection that comes up opens a record; what is reported while it lasts belongs to that record, and
      what is reported when there is none would open one of its own. */
  function Observe(l: Log, h: Happening): Log
    requires WellFormed(l.end)
  {
    var r := ReactionTo(l.end, h);
    if l.end.Up? then
      Log(r.end, Extended(l.sessions, r.events, if r.end.Idle? then Ended(l.end.s.phase, h) else Going))
    else if r.end.Up? || r.events != [] then
      Log(r.end, l.sessions + [Record(r.end.Up? && r.end.s.initiator, r.events, Going)])
    else Log(r.end, l.sessions)
  }

  function Extended(sessions: seq<Record>, events: seq<Event>, fate: Fate): seq<Record> {
    if sessions == [] then [Record(true, events, fate)]
    else
      var n := |sessions| - 1;
      sessions[n := Record(sessions[n].initiator, sessions[n].events + events, fate)]
  }

  lemma ObserveKeepsShape(l: Log, h: Happening)
    requires WellFormed(l.end)
    ensures WellFormed(Observe(l, h).end)
  {
    match h
    case Arrives(input, env) => ReactKeepsShape(l.end, input, env);
    case Calls(call, env) => CallKeepsShape(l.end, call, env);
  }

  function ObserveAll(l: Log, hs: seq<Happening>): Log
    requires WellFormed(l.end)
    decreases |hs|
  {
    if hs == [] then l
    else ObserveKeepsShape(l, hs[0]); ObserveAll(Observe(l, hs[0]), hs[1..])
  }

  // ----------------------------------------------------------------- the grammar

  function Opening(initiator: bool): seq<Event> { if initiator then [] else [ConnectionRequested] }

  /** The word of a session still open is determined by role and state: no terminal event yet. */
  function OpenWord(s: Session): Record {
    Record(s.initiator, Opening(s.initiator) + (if s.phase == Connected then [ConnectionAccepted] else []), Going)
  }

  /** The own user hung up a ringing or connected session, of which nothing more is reported. */
  predicate HungUpQuietly(from: Phase, cause: Happening) {
    cause.Calls? && (from == Connected || (from == FriendsRequestPending && cause.call != AcceptConnection))
  }

  /** The friend rejected the own request. */
  predicate RejectedByFriend(from: Phase, cause: Happening) {
    from == OwnRequestPending && cause.Arrives? && cause.input == Control(Reject)
  }

  /** The word of a session that has ended: the word of the state it ended in, and one terminal event unless
      the own user hung up a ringing or connected session. */
  function FinalWord(initiator: bool, from: Phase, cause: Happening): seq<Event> {
    Opening(initiator) + (if from == Connected then [ConnectionAccepted] else [])
    + (if HungUpQuietly(from, cause) then []
       else [if RejectedByFriend(from, cause) then ConnectionRejected else ConnectionClosed])
  }

  predicate EndedRight(r: Record) {
    && r.fate.Ended? && r.events == FinalWord(r.initiator, r.fate.from, r.fate.cause)
    && (if r.initiator then r.fate.from != FriendsRequestPending && r.fate.from != ExpectingIpPacket
        else r.fate.from != OwnRequestPending && r.fate.from != ExpectingIpConfirmation)
  }

  /** All sessions have ended with their final word, but for the one that is open. */
  predicate WellLogged(l: Log) {
    && WellFormed(l.end)
    && (l.end.Up? ==> l.sessions != [] && l.sessions[|l.sessions| - 1] == OpenWord(l.end.s))
    && (forall i :: 0 <= i < |l.sessions| - (if l.end.Up? then 1 else 0) ==> EndedRight(l.sessions[i]))
  }

  function IsTerminal(e: Event): nat { if e == ConnectionClosed || e == ConnectionRejected then 1 else 0 }

  function Terminals(events: seq<Event>): nat {
    if events == [] then 0 else IsTerminal(events[0]) + Terminals(events[1..])
  }

  /** Requested first, for a responder only; then Accepted at most once; then at most one terminal
      event, Rejected only for an initiator that saw no Accepted. */
  predicate Grammatical(r: Record) {
    var opening := Opening(r.initiator);
    || r.events == opening
    || r.events == opening + [ConnectionClosed]
    || r.events == opening + [ConnectionAccepted]
    || r.events == opening + [ConnectionAccepted, ConnectionClosed]
    || (r.initiator && r.events == [ConnectionRejected])
  }

  /** What the final words amount to: a session that has ended has reported exactly one terminal event, unless
      the own user hung up while it was ringing or connected; Rejected means that the friend rejected
      the own request; and Closed follows Accepted only when a packet ended the session. */
  lemma EndedExactly(r: Record)
    requires EndedRight(r)
    ensures Grammatical(r)
    ensures Terminals(r.events) == if HungUpQuietly(r.fate.from, r.fate.cause) then 0 else 1
    ensures ConnectionRejected in r.events <==> RejectedByFriend(r.fate.from, r.fate.cause)
    ensures ConnectionAccepted in r.events <==> r.fate.from == Connected
    ensures ConnectionAccepted in r.events && ConnectionClosed in r.events ==> r.fate.cause.Arrives?
  {
    var opening := Opening(r.initiator);
    var accepted := if r.fate.from == Connected then [ConnectionAccepted] else [];
    var last := if HungUpQuietly(r.fate.from, r.fate.cause) then []
                else [if RejectedByFriend(r.fate.from, r.fate.cause) then ConnectionRejected else ConnectionClosed];
    TerminalsAppend(opening + accepted, last);
    TerminalsAppend(opening, accepted);
  }

  lemma {:induction false} TerminalsAppend(a: seq<Event>, b: seq<Event>)
    ensures Terminals(a + b) == Terminals(a) + Terminals(b)
  {
    if a == [] {
      assert a + b == b;
    } else {
      assert (a + b)[1..] == a[1..] + b;
      TerminalsAppend(a[1..], b);
    }
  }

  /** The events of a reaction continue the word of the state it starts from. */
  predicate Continues(e: End, h: Happening, r: Reaction) {
    && (e.Idle? && r.end.Idle? ==> r.events == [])
    && (e.Idle? && r.end.Up? ==> Record(r.end.s.initiator, r.events, Going) == OpenWord(r.end.s))
    && (e.Up? && r.end.Idle? ==>
          EndedRight(Record(e.s.initiator, OpenWord(e.s).events + r.events, Ended(e.s.phase, h))))
    && (e.Up? && r.end.Up? ==> Record(e.s.initiator, OpenWord(e.s).events + r.events, Going) == OpenWord(r.end.s))
  }

  lemma ControlContinues(e: End, m: Msg, env: Env)
    requires WellFormed(e)
    ensures Continues(e, Arrives(Control(m), env), React(e, Control(m), env))
  {
  }

  lemma ReactionWord(e: End, h: Happening)
    requires WellFormed(e)
    ensures Continues(e, h, ReactionTo(e, h))
  {
    match h
    case Arrives(Control(m), env) => ControlContinues(e, m, env);
    case Arrives(input, env) =>
    case Calls(call, env) =>
  }

  lemma ObserveKeepsLog(l: Log, h: Happening)
    requires WellLogged(l)
    ensures WellLogged(Observe(l, h))
  {
    ReactionWord(l.end, h);
    ObserveKeepsShape(l, h);
  }

  lemma WellLoggedIsGrammatical(l: Log)
    requires WellLogged(l)
    ensures forall r <- l.sessions :: Grammatical(r)
  {
    hide EndedRight, Grammatical, OpenWord;
    forall i | 0 <= i < |l.sessions|
      ensures Grammatical(l.sessions[i])
    {
      if EndedRight(l.sessions[i]) { EndedExactly(l.sessions[i]); } else { OpenIsGrammatical(l.end.s); }
    }
  }

  lemma OpenIsGrammatical(s: Session)
    ensures Grammatical(OpenWord(s))
  {
  }

  /** Every session of every run of an end reports a word of the grammar: while it is open exactly the word
      of its state, and when it has ended exactly its final word, so nothing ever follows a terminal
      event. */
  lemma {:induction false} EventsFollowGrammar(l: Log, hs: seq<Happening>)
    requires WellLogged(l)
    ensures WellLogged(ObserveAll(l, hs))
    ensures forall r <- ObserveAll(l, hs).sessions :: Grammatical(r)
    decreases |hs|
  {
    if hs == [] {
      WellLoggedIsGrammatical(l);
    } else {
      ObserveKeepsLog(l, hs[0]);
      EventsFollowGrammar(Observe(l, hs[0]), hs[1..]);
    }
  }

  /** What happens at the end `me` during a step of the pair. */
  function HappensToMe(w: World, step: Step): seq<Happening> {
    if !step.mine then []
    else match step.act
      case User(call) => [Calls(call, step.env)]
      case Deliver => if w.inn == [] then [] else [Arrives(Control(w.inn[0]), step.env)]
      case DeliverLossy(payload) =>
        if w.lossyIn == 0 then [] else [Arrives(if payload then Payload else Noise, step.env)]
      case _ => []
  }

  function History(w: World, steps: seq<Step>): seq<Happening>
    requires Sound(w)
    decreases |steps|
  {
    if steps == [] then []
    else SoundKept(w, steps[0]); HappensToMe(w, steps[0]) + History(Next(w, steps[0]), steps[1..])
  }

  lemma ObserveAppend(l: Log, first: seq<Happening>, rest: seq<Happening>)
    requires WellFormed(l.end) && |first| <= 1
    ensures WellFormed(ObserveAll(l, first).end)
    ensures ObserveAll(l, first + rest) == ObserveAll(ObserveAll(l, first), rest)
  {
    if first == [] {
      assert first + rest == rest;
    } else {
      ObserveKeepsShape(l, first[0]);
      assert (first + rest)[1..] == rest && first[1..] == [];
    }
  }

  lemma StepObserved(l: Log, w: World, step: Step)
    requires Sound(w) && l.end == w.me
    ensures ObserveAll(l, HappensToMe(w, step)).end == Next(w, step).me && |HappensToMe(w, step)| <= 1
  {
    var hs := HappensToMe(w, step);
    if hs != [] { assert hs[1..] == []; }
  }

  /** Every run of the pair is, seen from the end `me`, such a run. */
  lemma {:induction false} LogFollowsRun(l: Log, w: World, steps: seq<Step>)
    requires Sound(w) && WellLogged(l) && l.end == w.me
    ensures var l' := ObserveAll(l, History(w, steps)); WellLogged(l') && l'.end == Run(w, steps).me
    decreases |steps|
  {
    hide EndedRight, OpenWord, Observe, HappensToMe, Next, Grammatical;
    if steps != [] {
      var first := HappensToMe(w, steps[0]);
      EventsFollowGrammar(l, first);
      SoundKept(w, steps[0]);
      StepObserved(l, w, steps[0]);
      ObserveAppend(l, first, History(Next(w, steps[0]), steps[1..]));
      LogFollowsRun(ObserveAll(l, first), Next(w, steps[0]), steps[1..]);
    }
  }

  const NO_EVENTS := Log(Idle, [])

  /** In every run of the pair from the start the events at each of the two ends follow the grammar;
      and the record of a session still open is the word of the state that end is in. */
  lemma PairFollowsGrammar(steps: seq<Step>)
    ensures var w := Run(START, steps);
      var mine := ObserveAll(NO_EVENTS, History(START, steps));
      var theirs := ObserveAll(NO_EVENTS, History(START, Flip(steps)));
      && WellLogged(mine) && mine.end == w.me
      && WellLogged(theirs) && theirs.end == w.peer
  {
    LogFollowsRun(NO_EVENTS, START, steps);
    LogFollowsRun(NO_EVENTS, START, Flip(steps));
    MirrorRun(START, steps);
  }
}
