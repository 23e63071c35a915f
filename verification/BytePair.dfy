/**
 The pair at the level of bytes, with real fragment stores and lossy packets, refines the protocol: its
 fragments never act as control packets, so every result about the protocol holds of it.
*/
module BytePair {
  import opened Packets
  import opened Fragmentation
  import opened Reassembly
  import opened Tun
  import opened Endpoint
  import opened Wire
  import P = Protocol
  import A = Agreement

  /** The control packets under way are read oldest first; of the lossy ones any may arrive or get lost
      next. */
  datatype Pair = Pair(me: Link, peer: Link, out: seq<Packet>, inn: seq<Packet>,
                       lossyOut: seq<Packet>, lossyIn: seq<Packet>)

  const START := Pair(Down, Down, [], [], [], [])

  function Mirror(w: Pair): Pair {
    Pair(w.peer, w.me, w.inn, w.out, w.lossyIn, w.lossyOut)
  }

  datatype Act =
    | User(call: Call)
    | Deliver
    | DeliverLossy(i: nat)
    | LoseLossy(i: nat)
    | Frame(frame: seq<byte>, taken: nat)

  datatype Step = Step(mine: bool, act: Act, env: Env)

  predicate Sound(w: Pair) { WellFormed(EndOf(w.me)) && WellFormed(EndOf(w.peer)) }

  function Without<T>(s: seq<T>, i: nat): (r: seq<T>)
    requires i < |s|
    ensures |r| == |s| - 1
    ensures forall x :: x in r ==> x in s
  {
    s[..i] + s[i + 1..]
  }

  /** None when the program ended on a corrupt fragment set. */
  function Apply(w: Pair, r: Received): Option<Pair> {
    if r.Crashed? then None else Some(w.(me := r.link, out := w.out + r.wire))
  }

  function Own(w: Pair, act: Act, env: Env): Option<Pair>
    requires Sound(w)
  {
    match act
    case User(call) => Apply(w, CallOn(w.me, call, env))
    case Deliver =>
      if w.inn == [] then Some(w) else Apply(w.(inn := w.inn[1..]), Receive(w.me, w.inn[0], env))
    case DeliverLossy(i) =>
      if i >= |w.lossyIn| then Some(w)
      else Apply(w.(lossyIn := Without(w.lossyIn, i)), Receive(w.me, w.lossyIn[i], env))
    case LoseLossy(i) => if i >= |w.lossyIn| then Some(w) else Some(w.(lossyIn := Without(w.lossyIn, i)))
    case Frame(frame, taken) =>
      var r := SendFrame(w.me, frame, taken);
      if r.Crashed? then None else Some(w.(me := r.link, lossyOut := w.lossyOut + r.wire))
  }

  function Next(w: Pair, step: Step): Option<Pair>
    requires Sound(w)
  {
    if step.mine then Own(w, step.act, step.env)
    else match Own(Mirror(w), step.act, step.env)
      case None => None
      case Some(w') => Some(Mirror(w'))
  }

  lemma SoundKept(w: Pair, step: Step)
    requires Sound(w) && Next(w, step).Some?
    ensures Sound(Next(w, step).value)
  {
    var v := if step.mine then w else Mirror(w);
    match step.act
    case User(call) => CallKeepsShape(EndOf(v.me), call, step.env);
    case Deliver => if v.inn != [] { ReceiveKeepsShape(v.me, v.inn[0], step.env); }
    case DeliverLossy(i) => if i < |v.lossyIn| { ReceiveKeepsShape(v.me, v.lossyIn[i], step.env); }
    case _ =>
  }

  // ---------------------------------------------------------------- abstraction

  function MsgOf(p: Packet): Msg {
    if Classify(p).Control? then Classify(p).m else Reset
  }

  function Msgs(c: seq<Packet>): seq<Msg> {
    seq(|c|, i requires 0 <= i < |c| => MsgOf(c[i]))
  }

  function Abstract(w: Pair): P.World {
    P.World(EndOf(w.me), EndOf(w.peer), Msgs(w.out), Msgs(w.inn), |w.lossyOut|, |w.lossyIn|)
  }

  ghost predicate HonestLossy(p: Packet) {
    p[0] == DATA || (IsValidFragment(p) && HonestFragment(p))
  }

  ghost predicate HonestLink(l: Link) { l.Live? ==> HonestStore(l.store) }

  predicate OnlyControl(c: seq<Packet>) {
    forall i :: 0 <= i < |c| ==> Classify(c[i]).Control?
  }

  /** All packets under way and in the stores come from the code itself. */
  ghost predicate Honest(w: Pair) {
    && Sound(w)
    && HonestLink(w.me) && HonestLink(w.peer)
    && OnlyControl(w.out) && OnlyControl(w.inn)
    && (forall p <- w.lossyOut :: HonestLossy(p))
    && (forall p <- w.lossyIn :: HonestLossy(p))
  }

  /** A frame that splits into at most 256 fragments. */
  predicate FrameFits(step: Step) {
    step.act.Frame? ==> FragmentCount([DATA] + step.act.frame) <= 256
  }

  /** The protocol step that a byte-level step performs. */
  function AbstractStep(w: Pair, step: Step): P.Step {
    var v := if step.mine then w else Mirror(w);
    var act :=
      match step.act
      case User(call) => P.User(call)
      case Deliver => P.Deliver
      case DeliverLossy(i) =>
        if i >= |v.lossyIn| then P.SendPackets(0)
        else P.DeliverLossy(if v.me.Live? then Unwrap(v.me.store, v.lossyIn[i]).content.Plain? else true)
      case LoseLossy(i) => if i < |v.lossyIn| then P.LoseLossy else P.SendPackets(0)
      case Frame(frame, taken) => P.SendPackets(|SendFrameWire(v.me, frame, taken)|);
    P.Step(step.mine, act, step.env)
  }

  function SendFrameWire(l: Link, frame: seq<byte>, taken: nat): seq<Packet> {
    var r := SendFrame(l, frame, taken);
    if r.Crashed? then [] else r.wire
  }

  // ----------------------------------------------------------------- refinement

  lemma MsgsAppend(c: seq<Packet>, ms: seq<Msg>)
    requires OnlyControl(c)
    ensures OnlyControl(c + EncodeAll(ms))
    ensures Msgs(c + EncodeAll(ms)) == Msgs(c) + ms
  {
    forall i | 0 <= i < |ms|
      ensures Classify(EncodeAll(ms)[i]) == Control(ms[i])
    {
      ControlRoundTrip(ms[i]);
    }
  }

  lemma MsgsTail(c: seq<Packet>)
    requires c != [] && OnlyControl(c)
    ensures OnlyControl(c[1..]) && Msgs(c[1..]) == Msgs(c)[1..]
    ensures Classify(c[0]) == Control(Msgs(c)[0])
  {
  }

  lemma MovedEnd(l: Link, e: End)
    ensures EndOf(Moved(l, e)) == e
    ensures HonestLink(l) ==> HonestLink(Moved(l, e))
  {
  }

  /** Handling a packet that is no fragment is the state machine's reaction. */
  lemma HandleRefines(l: Link, p: Packet, env: Env)
    requires WellFormed(EndOf(l)) && HonestLink(l)
    ensures var r := Handle(l, p, env); var a := React(EndOf(l), Classify(p), env);
      && r.Received? && EndOf(r.link) == a.end && r.wire == EncodeAll(a.out)
      && HonestLink(r.link)
  {
    MovedEnd(l, React(EndOf(l), Classify(p), env).end);
  }

  lemma ReceiveControlRefines(l: Link, p: Packet, env: Env)
    requires WellFormed(EndOf(l)) && HonestLink(l) && Classify(p).Control?
    ensures var r := Receive(l, p, env); var a := React(EndOf(l), Classify(p), env);
      && r.Received? && EndOf(r.link) == a.end && r.wire == EncodeAll(a.out)
      && HonestLink(r.link)
  {
    HandleRefines(l, p, env);
  }

  /** An honest lossy packet acts as payload or changes nothing, never as control. */
  lemma ReceiveLossyRefines(l: Link, p: Packet, env: Env)
    requires WellFormed(EndOf(l)) && HonestLink(l) && HonestLossy(p)
    requires Receive(l, p, env).Received?
    ensures var r := Receive(l, p, env);
      var input := if l.Down? || Unwrap(l.store, p).content.Plain? then Input.Payload else Noise;
      var a := React(EndOf(l), input, env);
      && EndOf(r.link) == a.end && r.wire == EncodeAll(a.out)
      && HonestLink(r.link)
  {
    if l.Down? {
      HandleRefines(l, p, env);
    } else {
      if p[0] != DATA { HonestUnwrap(l.store, p); }
      var u := Unwrap(l.store, p);
      if u.content.Plain? {
        HandleRefines(l.(store := u.store), u.content.packet, env);
      }
    }
  }

  lemma FrameHonest(frame: seq<byte>, next: byte, n: nat)
    requires FragmentCount([DATA] + frame) <= 256
    ensures forall p <- Taken(ToSend([DATA] + frame, next).list, n) :: HonestLossy(p)
  {
    var data: Packet := [DATA] + frame;
    var list := ToSend(data, next).list;
    if |data| > MAX {
      forall i | 0 <= i < |list|
        ensures HonestLossy(list[i])
      {
        var k := |list| - 1 - i;
        assert CutFrom(list[i], data, next, k);
      }
    }
  }

  /** One step of the end `me`, seen through the abstraction. */
  lemma OwnRefines(w: Pair, act: Act, env: Env)
    requires Honest(w) && FrameFits(Step(true, act, env))
    requires Own(w, act, env).Some?
    ensures var w' := Own(w, act, env).value;
      && Honest(w')
      && Abstract(w') == P.Own(Abstract(w), AbstractStep(w, Step(true, act, env)).act, env)
  {
    match act
    case User(call) => CallRefines(w, call, env);
    case Deliver => DeliverRefines(w, env);
    case DeliverLossy(i) => DeliverLossyRefines(w, i, env);
    case LoseLossy(i) =>
    case Frame(frame, taken) => FrameRefines(w, frame, taken, env);
  }

  lemma CallRefines(w: Pair, call: Call, env: Env)
    requires Honest(w)
    ensures var w' := Own(w, User(call), env);
      w'.Some? && Honest(w'.value) && Abstract(w'.value) == P.Own(Abstract(w), P.User(call), env)
  {
    var r := UserCall(EndOf(w.me), call, env);
    CallKeepsShape(EndOf(w.me), call, env);
    MovedEnd(w.me, r.end);
    MsgsAppend(w.out, r.out);
  }

  lemma DeliverRefines(w: Pair, env: Env)
    requires Honest(w)
    ensures var w' := Own(w, Deliver, env);
      w'.Some? && Honest(w'.value) && Abstract(w'.value) == P.Own(Abstract(w), P.Deliver, env)
  {
    if w.inn != [] {
      MsgsTail(w.inn);
      ReceiveControlRefines(w.me, w.inn[0], env);
      ReactKeepsShape(EndOf(w.me), Classify(w.inn[0]), env);
      MsgsAppend(w.out, React(EndOf(w.me), Classify(w.inn[0]), env).out);
    }
  }

  lemma DeliverLossyRefines(w: Pair, i: nat, env: Env)
    requires Honest(w) && Own(w, DeliverLossy(i), env).Some?
    ensures var w' := Own(w, DeliverLossy(i), env).value;
      && Honest(w')
      && Abstract(w') == P.Own(Abstract(w), AbstractStep(w, Step(true, DeliverLossy(i), env)).act, env)
  {
    if i < |w.lossyIn| {
      var p := w.lossyIn[i];
      assert p in w.lossyIn;
      ReceiveLossyRefines(w.me, p, env);
      var input := if w.me.Down? || Unwrap(w.me.store, p).content.Plain? then Input.Payload else Noise;
      ReactKeepsShape(EndOf(w.me), input, env);
      MsgsAppend(w.out, React(EndOf(w.me), input, env).out);
    }
  }

  /** Sending a frame leaves the state machine alone and puts only honest packets under way. */
  lemma FrameOnLink(l: Link, frame: seq<byte>, taken: nat)
    requires HonestLink(l) && FragmentCount([DATA] + frame) <= 256
    ensures var r := SendFrame(l, frame, taken);
      && r.Received? && EndOf(r.link) == EndOf(l) && HonestLink(r.link)
      && (forall p <- r.wire :: HonestLossy(p))
      && (!IsUp(EndOf(l), Connected) ==> r.wire == [] && r.link == l)
  {
    if IsUp(EndOf(l), Connected) { FrameHonest(frame, l.next, taken); }
  }

  lemma FrameRefines(w: Pair, frame: seq<byte>, taken: nat, env: Env)
    requires Honest(w) && FragmentCount([DATA] + frame) <= 256
    ensures var act := Frame(frame, taken); var w' := Own(w, act, env);
      && w'.Some? && Honest(w'.value)
      && Abstract(w'.value) == P.Own(Abstract(w), AbstractStep(w, Step(true, act, env)).act, env)
  {
    FrameOnLink(w.me, frame, taken);
  }

  lemma MirrorAbstracts(w: Pair)
    ensures Abstract(Mirror(w)) == P.Mirror(Abstract(w))
    ensures Honest(w) ==> Honest(Mirror(w))
  {
  }

  lemma StepRefines(w: Pair, step: Step)
    requires Honest(w) && FrameFits(step) && Next(w, step).Some?
    ensures var w' := Next(w, step).value;
      && Honest(w')
      && Abstract(w') == P.Next(Abstract(w), AbstractStep(w, step))
  {
    var v := if step.mine then w else Mirror(w);
    MirrorAbstracts(w);
    OwnRefines(v, step.act, step.env);
    assert AbstractStep(v, Step(true, step.act, step.env)).act == AbstractStep(w, step).act;
    MirrorAbstracts(Own(v, step.act, step.env).value);
  }

  /** A lossy packet is handed to an open connection and completes a corrupt set there. */
  predicate DeliversCorrupt(w: Pair, step: Step) {
    var v := if step.mine then w else Mirror(w);
    && step.act.DeliverLossy? && step.act.i < |v.lossyIn| && v.me.Live?
    && var p := v.lossyIn[step.act.i]; IsValidFragment(p) && CompletesCorrupt(v.me.store, p)
  }

  /** The exact step on which the program ends. */
  lemma EndsExactly(w: Pair, step: Step)
    requires Honest(w) && FrameFits(step)
    ensures Next(w, step).None? <==> DeliversCorrupt(w, step)
  {
    var v := if step.mine then w else Mirror(w);
    MirrorAbstracts(w);
    match step.act
    case User(call) =>
    case Deliver => if v.inn != [] { ReceiveControlRefines(v.me, v.inn[0], step.env); }
    case DeliverLossy(i) =>
      if i < |v.lossyIn| && v.me.Live? { CrashesOnCorrupt(v.me, v.lossyIn[i], step.env); }
    case LoseLossy(i) =>
    case Frame(frame, taken) => FrameOnLink(v.me, frame, taken);
  }

  lemma CrashesOnCorrupt(l: Link, p: Packet, env: Env)
    requires l.Live? && WellFormed(EndOf(l)) && HonestLink(l) && HonestLossy(p)
    ensures Receive(l, p, env).Crashed? <==> IsValidFragment(p) && CompletesCorrupt(l.store, p)
  {
    if p[0] != DATA { HonestCrashExactly(l.store, p); }
  }

  /** The state after a byte-level run that was not ended by a corrupt set. */
  ghost predicate Reaches(w: Pair, steps: seq<Step>, end: Pair)
    decreases |steps|
  {
    Honest(w) &&
    if steps == [] then w == end
    else FrameFits(steps[0]) && Next(w, steps[0]).Some? && Reaches(Next(w, steps[0]).value, steps[1..], end)
  }

  /** The protocol run that a byte-level run performs. */
  function AbstractRun(w: Pair, steps: seq<Step>): seq<P.Step>
    requires Sound(w)
    decreases |steps|
  {
    if steps == [] || Next(w, steps[0]).None? then []
    else SoundKept(w, steps[0]); [AbstractStep(w, steps[0])] + AbstractRun(Next(w, steps[0]).value, steps[1..])
  }

  /** Every byte-level run, until a corrupt set ends the program, is a run of the protocol, under the same
      conditions. */
  lemma {:induction false} RunRefines(w: Pair, steps: seq<Step>, end: Pair) returns (abs: seq<P.Step>)
    requires Reaches(w, steps, end)
    ensures Sound(w) && abs == AbstractRun(w, steps) && |abs| == |steps|
    ensures forall i :: 0 <= i < |steps| ==> abs[i].env == steps[i].env
    ensures P.Sound(Abstract(w)) && Abstract(end) == P.Run(Abstract(w), abs)
    decreases |steps|
  {
    if steps == [] {
      abs := [];
    } else {
      StepRefines(w, steps[0]);
      var rest := RunRefines(Next(w, steps[0]).value, steps[1..], end);
      abs := [AbstractStep(w, steps[0])] + rest;
      assert abs[1..] == rest;
    }
  }

  predicate BothUpOn(initiator: Link, responder: Link, subnet: byte) {
    && IsUp(EndOf(initiator), Connected) && EndOf(initiator).s.initiator
    && IsUp(EndOf(responder), Connected) && !EndOf(responder).s.initiator
    && EndOf(initiator).s.ip == Some(Address(subnet, 1))
    && EndOf(responder).s.ip == Some(Address(subnet, 2))
  }

  /** The main result on real packets: as long as no corrupt set has ended the program, and whatever
      fragments travel and get mixed up until then, once the control channels have drained and no
      goodbye was lost, one end is connected only if the other is, on the same subnet with addresses
      1 and 2. */
  lemma BytesConnectedTogether(steps: seq<Step>, end: Pair)
    requires Reaches(START, steps, end) && end.out == [] && end.inn == []
    requires forall s <- steps :: s.env.goodbyeOk
    ensures IsUp(EndOf(end.me), Connected) || IsUp(EndOf(end.peer), Connected) ==>
      exists subnet: byte :: BothUpOn(end.me, end.peer, subnet) || BothUpOn(end.peer, end.me, subnet)
  {
    var abs := RunRefines(START, steps, end);
    assert Abstract(START) == P.START;
    assert P.GoodbyesSent(abs);
    A.ConnectedTogether(abs);
    var w := Abstract(end);
    if A.Together(w) {
      if P.UpAsInitiator(w.me) && P.Answered(w.peer) && A.AgreeOnSubnet(w.me, w.peer) {
        var subnet: byte :| w.me.s.ip == Some(Address(subnet, 1)) && w.peer.s.ip == Some(Address(subnet, 2));
        assert BothUpOn(end.me, end.peer, subnet);
      } else {
        var subnet: byte :| w.peer.s.ip == Some(Address(subnet, 1)) && w.me.s.ip == Some(Address(subnet, 2));
        assert BothUpOn(end.peer, end.me, subnet);
      }
    }
  }
}
