/**
 A byte-level run that ends the program although no goodbye is lost, nothing is duplicated or reordered, and
 no lossy packet is under way whenever a connection comes up: a fragment of an earlier connection was kept
 at the other end, in a connection that had come up there in the meantime.
*/
module LeftOvers {
  import opened Packets
  import opened Fragmentation
  import opened Reassembly
  import opened Tun
  import opened Endpoint
  import opened Wire
  import opened BytePair
  import opened Quirks
  import L = LinkConditions
  import P = Protocol
  import R = Runs

  /** A step in which a connection comes up finds no lossy packet under way. */
  predicate FreshLinks(w: Pair, u: Pair) {
    (w.me.Down? && u.me.Live?) || (w.peer.Down? && u.peer.Live?) ==> w.lossyOut == [] && w.lossyIn == []
  }

  /** The lossy packets under way arrive, oldest first; none is lost or overtaken. */
  predicate InTurn(act: Act) {
    match act
    case DeliverLossy(i) => i == 0
    case LoseLossy(_) => false
    case _ => true
  }

  /** The run from w to u has only such steps and loses no goodbye. */
  ghost predicate FreshRun(w: Pair, steps: seq<Step>, u: Pair)
    decreases |steps|
  {
    Honest(w) &&
    if steps == [] then w == u
    else
      && FrameFits(steps[0]) && InTurn(steps[0].act) && steps[0].env.goodbyeOk
      && Next(w, steps[0]).Some? && FreshLinks(w, Next(w, steps[0]).value)
      && FreshRun(Next(w, steps[0]).value, steps[1..], u)
  }

  ghost predicate Leads(w: Pair) { exists steps :: FreshRun(START, steps, w) }

  lemma {:induction false} FreshRunOn(w: Pair, steps: seq<Step>, v: Pair, step: Step, u: Pair)
    requires FreshRun(w, steps, v) && Sound(v) && FrameFits(step) && InTurn(step.act) && step.env.goodbyeOk
    requires Next(v, step) == Some(u) && FreshLinks(v, u)
    ensures FreshRun(w, steps + [step], u)
    decreases |steps|
  {
    hide Next, HonestLink, HonestLossy, OnlyControl;
    if steps == [] {
      StepRefines(v, step);
      assert [step][1..] == [];
    } else {
      assert (steps + [step])[1..] == steps[1..] + [step];
      FreshRunOn(Next(w, steps[0]).value, steps[1..], v, step, u);
    }
  }

  lemma LeadsOn(v: Pair, step: Step, u: Pair)
    requires Leads(v) && Sound(v) && FrameFits(step) && InTurn(step.act) && step.env.goodbyeOk
    requires Next(v, step) == Some(u) && FreshLinks(v, u)
    ensures Leads(u)
  {
    hide Next;
    var steps :| FreshRun(START, steps, v);
    FreshRunOn(START, steps, v, step, u);
  }

  // ------------------------------------------------- control steps on the level of bytes

  function LinkFor(e: End, store: Store): Link {
    match e
    case Idle => Down
    case Up(s) => Live(s, 0, store)
  }

  /** The pair that is in world w with no lossy packet under way, counters at 0, and the peer's store as
      given. */
  function Lift(w: P.World, store: Store): Pair {
    Pair(LinkFor(w.me, map[]), LinkFor(w.peer, store), EncodeAll(w.out), EncodeAll(w.inn), [], [])
  }

  predicate IsControl(act: P.Act) { act.User? || act.Deliver? }

  function StepFor(step: P.Step): Step
    requires IsControl(step.act)
  {
    Step(step.mine, match step.act case User(call) => User(call) case Deliver => Deliver, step.env)
  }

  lemma EncodeAppend(a: seq<Msg>, b: seq<Msg>)
    ensures EncodeAll(a + b) == EncodeAll(a) + EncodeAll(b)
    ensures a != [] ==> EncodeAll(a)[0] == Encode(a[0]) && EncodeAll(a)[1..] == EncodeAll(a[1..])
  {
  }

  lemma ReceiveControl(l: Link, m: Msg, env: Env)
    requires WellFormed(EndOf(l))
    ensures Receive(l, Encode(m), env) == Done(l, React(EndOf(l), Control(m), env), [])
  {
    ControlRoundTrip(m);
  }

  /** A control step of `me`, whose own store is `mine`. */
  lemma LiftOwn(w: P.World, mine: Store, theirs: Store, step: P.Step)
    requires P.Sound(w) && step.mine && IsControl(step.act)
    ensures var w' := P.Own(w, step.act, step.env);
      Own(Pair(LinkFor(w.me, mine), LinkFor(w.peer, theirs), EncodeAll(w.out), EncodeAll(w.inn), [], []),
          StepFor(step).act, step.env) ==
        Some(Pair(LinkFor(w'.me, if w.me.Up? then mine else map[]), LinkFor(w'.peer, theirs),
                  EncodeAll(w'.out), EncodeAll(w'.inn), [], []))
  {
    match step.act
    case User(call) => EncodeAppend(w.out, UserCall(w.me, call, step.env).out);
    case Deliver =>
      if w.inn != [] {
        EncodeAppend(w.inn, []);
        ReceiveControl(LinkFor(w.me, mine), w.inn[0], step.env);
        EncodeAppend(w.out, React(w.me, Control(w.inn[0]), step.env).out);
      }
  }

  /** A control step of the pair; the peer's store goes with its connection. */
  lemma LiftStep(w: P.World, store: Store, step: P.Step)
    requires P.Sound(w) && IsControl(step.act) && (w.peer.Up? || store == map[])
    ensures Next(Lift(w, store), StepFor(step)) == Some(Lift(P.Next(w, step), store))
  {
    if step.mine {
      LiftOwn(w, map[], store, step);
    } else {
      LiftOwn(P.Mirror(w), store, map[], step.(mine := true));
    }
  }

  predicate ControlOnly(steps: seq<P.Step>) {
    forall s <- steps :: IsControl(s.act) && s.env.goodbyeOk
  }

  /** A path of the protocol, step by step on bytes. */
  lemma {:induction false} LiftPath(worlds: seq<P.World>, steps: seq<P.Step>, store: Store)
    requires R.Path(worlds, steps) && ControlOnly(steps) && Leads(Lift(worlds[0], store))
    requires store == map[] || forall w <- worlds :: w.peer.Up?
    ensures Leads(Lift(worlds[|steps|], store))
    decreases |steps|
  {
    hide Leads, Lift, Next, P.Next;
    if steps != [] {
      assert steps[0] in steps && worlds[0] in worlds;
      LiftStep(worlds[0], store, steps[0]);
      LiftedFacts(worlds[0], store);
      LiftedFacts(worlds[1], store);
      LeadsOn(Lift(worlds[0], store), StepFor(steps[0]), Lift(worlds[1], store));
      LiftPath(worlds[1..], steps[1..], store);
    }
  }

  lemma LiftedFacts(w: P.World, store: Store)
    requires P.Sound(w)
    ensures Sound(Lift(w, store)) && Lift(w, store).lossyOut == [] && Lift(w, store).lossyIn == []
  {
  }

  // --------------------------------------------------------------------- the run

  /** The pair connects, the peer hangs up and calls again at once. */
  lemma CalledBack()
    ensures Leads(Lift(CALLED_BACK, map[]))
  {
    hide Leads, Lift;
    StartLeads();
    Connects();
    CallsBack();
    LiftPath(FirstWorlds(), FirstSteps(), map[]);
    LiftPath(SecondWorlds(), SecondSteps(), map[]);
  }

  const CALLED_BACK := P.World(Up(OWNER), Up(ASKING), [], [Close, Request], 0, 0)
  const CONNECTED := P.World(Up(OWNER), Up(GUEST), [], [], 0, 0)

  function FirstWorlds(): seq<P.World> {
    [P.START,
     P.World(Up(ASKING), Idle, [Request], [], 0, 0),
     P.World(Up(ASKING), Up(ASKED), [], [], 0, 0),
     P.World(Up(ASKING), Up(ACCEPTING), [], [Msg.Accept], 0, 0),
     P.World(Up(OFFERING), Up(ACCEPTING), [IpProposal(0, 2)], [], 0, 0),
     P.World(Up(OFFERING), Up(GUEST), [], [IpAccept], 0, 0),
     CONNECTED]
  }

  function FirstSteps(): seq<P.Step> {
    [R.Mine(P.User(RequestConnection)), R.Theirs(P.Deliver), R.Theirs(P.User(AcceptConnection)),
     R.Mine(P.Deliver), R.Theirs(P.Deliver), R.Mine(P.Deliver)]
  }

  lemma Connects()
    ensures R.Path(FirstWorlds(), FirstSteps()) && ControlOnly(FirstSteps())
  {
    var ws, steps := FirstWorlds(), FirstSteps();
    assert P.Next(ws[0], steps[0]) == ws[1];
    assert P.Next(ws[1], steps[1]) == ws[2];
    assert P.Next(ws[2], steps[2]) == ws[3];
    assert P.Next(ws[3], steps[3]) == ws[4];
    assert P.Next(ws[4], steps[4]) == ws[5];
    assert P.Next(ws[5], steps[5]) == ws[6];
  }

  function SecondWorlds(): seq<P.World> {
    [CONNECTED, P.World(Up(OWNER), Idle, [], [Close], 0, 0), CALLED_BACK]
  }

  function SecondSteps(): seq<P.Step> {
    [R.Theirs(P.User(CloseConnection)), R.Theirs(P.User(RequestConnection))]
  }

  lemma CallsBack()
    ensures R.Path(SecondWorlds(), SecondSteps()) && ControlOnly(SecondSteps())
  {
    var ws, steps := SecondWorlds(), SecondSteps();
    assert P.Next(ws[0], steps[0]) == ws[1];
    assert P.Next(ws[1], steps[1]) == ws[2];
  }

  lemma StartLeads()
    ensures Leads(Lift(P.START, map[]))
  {
    assert Lift(P.START, map[]) == START;
    assert FreshRun(START, [], START);
  }

  function ThirdWorlds(): seq<P.World> {
    [P.World(Idle, Up(ASKING), [], [Request], 0, 0),
     P.World(Up(ASKED), Up(ASKING), [], [], 0, 0),
     P.World(Up(ACCEPTING), Up(ASKING), [Msg.Accept], [], 0, 0),
     P.World(Up(ACCEPTING), Up(OFFERING), [], [IpProposal(0, 2)], 0, 0),
     P.World(Up(GUEST), Up(OFFERING), [IpAccept], [], 0, 0)]
  }

  function ThirdSteps(): seq<P.Step> {
    [R.Mine(P.Deliver), R.Mine(P.User(AcceptConnection)), R.Theirs(P.Deliver), R.Mine(P.Deliver)]
  }

  lemma ConnectsAgain()
    ensures R.Path(ThirdWorlds(), ThirdSteps()) && ControlOnly(ThirdSteps())
  {
    var ws, steps := ThirdWorlds(), ThirdSteps();
    assert P.Next(ws[0], steps[0]) == ws[1];
    assert P.Next(ws[1], steps[1]) == ws[2];
    assert P.Next(ws[2], steps[2]) == ws[3];
    assert P.Next(ws[3], steps[3]) == ws[4];
  }

  /** A frame that is split into two fragments. */
  predicate TwoFragments(frame: seq<byte>) { |[DATA] + frame| > MAX && FragmentCount([DATA] + frame) == 2 }

  function Second(frame: seq<byte>): Fragment
    requires TwoFragments(frame)
  {
    Split([DATA] + frame, 0)[1]
  }

  /** A connected end with its counter at 0 sends the second fragment of a frame; tox refuses the first. */
  lemma SendsSecond(l: Link, frame: seq<byte>)
    requires IsUp(EndOf(l), Connected) && l.next == 0 && TwoFragments(frame)
    ensures SendFrame(l, frame, 1) == Received(l.(next := 1), [Second(frame)], [], [])
  {
    var list := Reversed(Split([DATA] + frame, 0));
    assert list[..1] == [list[0]];
  }

  /** An open connection keeps it. */
  lemma KeepsSecond(l: Link, frame: seq<byte>, env: Env)
    requires l.Live? && WellFormed(EndOf(l)) && l.store == map[] && TwoFragments(frame)
    ensures Receive(l, Second(frame), env) == Received(l.(store := map[0 := [Second(frame)]]), [], [], [])
  {
    L.PiecesOfTwo([DATA] + frame, 0);
    L.FirstOfTwo(Second(frame));
  }

  lemma Sends(a: Pair, frame: seq<byte>)
    requires Leads(a) && Sound(a) && IsUp(EndOf(a.me), Connected) && a.me.next == 0 && TwoFragments(frame)
    requires a.lossyOut == []
    ensures Leads(a.(me := a.me.(next := 1), lossyOut := [Second(frame)]))
  {
    hide Leads, FrameFits;
    SendsSecond(a.me, frame);
    FrameSmall(frame);
    assert a.lossyOut + [Second(frame)] == [Second(frame)];
    LeadsOn(a, Step(true, Frame(frame, 1), R.GOOD), a.(me := a.me.(next := 1), lossyOut := [Second(frame)]));
  }

  /** `me`, still connected, sends a fragment to the connection that has just come up at the peer. */
  lemma FragmentKept(frame: seq<byte>)
    requires TwoFragments(frame)
    ensures Leads(Lift(ThirdWorlds()[0], map[0 := [Second(frame)]]))
  {
    hide Leads, FrameFits;
    CalledBack();
    var a := Lift(CALLED_BACK, map[]);
    var b := a.(me := a.me.(next := 1), lossyOut := [Second(frame)]);
    var c := b.(peer := b.peer.(store := map[0 := [Second(frame)]]), lossyOut := []);
    Sends(a, frame);
    KeepsSecond(b.peer, frame, R.GOOD);
    Arrives(b, c);
    ReadsClose(c);
  }

  lemma FrameSmall(frame: seq<byte>)
    requires TwoFragments(frame)
    ensures forall mine: bool, env: Env :: FrameFits(Step(mine, Frame(frame, 1), env))
    ensures forall mine: bool, act: Act, env: Env :: !act.Frame? ==> FrameFits(Step(mine, act, env))
  {
  }

  lemma Arrives(b: Pair, c: Pair)
    requires Leads(b) && Sound(b) && |b.lossyOut| == 1 && b.peer.Live?
    requires Receive(b.peer, b.lossyOut[0], R.GOOD) == Received(c.peer, [], [], [])
    requires c == b.(peer := c.peer, lossyOut := [])
    ensures Leads(c)
  {
    hide Leads;
    assert b.inn + [] == b.inn;
    assert Without(b.lossyOut, 0) == [];
    LeadsOn(b, Step(false, DeliverLossy(0), R.GOOD), c);
  }

  lemma ReadsClose(c: Pair)
    requires Leads(c) && c.me.Live? && c.me.s == OWNER && c.peer.Live? && c.peer.s == ASKING && c.peer.next == 0
    requires c.out == [] && c.inn == EncodeAll([Close, Request]) && c.lossyOut == [] && c.lossyIn == []
    ensures Leads(Lift(ThirdWorlds()[0], c.peer.store))
  {
    hide Leads;
    EncodeAppend([Close, Request], []);
    assert [Close, Request][1..] == [Request];
    ReceiveControl(c.me, Close, R.GOOD);
    assert EncodeAll([]) == [] && c.out + [] == c.out;
    assert Receive(c.me, c.inn[0], R.GOOD) == Received(Down, [], [ConnectionClosed], []);
    assert Lift(ThirdWorlds()[0], c.peer.store) == c.(me := Down, inn := EncodeAll([Request]));
    LeadsOn(c, Step(true, Deliver, R.GOOD), Lift(ThirdWorlds()[0], c.peer.store));
  }

  /** Not even then is the program safe: with no goodbye lost, no lossy packet under way whenever a
      connection comes up, and all lossy packets arriving in the order sent, fragments of any two
      frames of two fragments end it. */
  lemma FreshLinksAreNotEnough(frame: seq<byte>, other: seq<byte>)
    requires TwoFragments(frame) && TwoFragments(other)
    ensures exists w: Pair, step: Step ::
      Leads(w) && Sound(w) && FrameFits(step) && InTurn(step.act) && step.env.goodbyeOk && Next(w, step).None?
  {
    hide Leads, FrameFits;
    var store: Store := map[0 := [Second(frame)]];
    FragmentKept(frame);
    ConnectsAgain();
    LiftPath(ThirdWorlds(), ThirdSteps(), store);
    var a := Lift(ThirdWorlds()[4], store);
    var b := a.(me := a.me.(next := 1), lossyOut := [Second(other)]);
    Sends(a, other);
    FrameSmall(other);
    L.LeftOverEndsProgram([DATA] + frame, [DATA] + other, 0, 1, b.peer.s, 0, R.GOOD);
    assert Next(b, Step(false, DeliverLossy(0), R.GOOD)).None?;
  }
}
