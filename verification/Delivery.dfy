/**
 Frames end to end: the pair on real bytes with an account of both directions. Under the conditions of
 ReorderedStream on the link the program never ends on a corrupt set, through any number of sessions, and
 each tun device gets exactly the frames of which every fragment arrived, each once.
*/
module Delivery {
  import opened Packets
  import opened Fragmentation
  import opened ReorderedStream
  import opened Accounts
  import opened Tun
  import E = Endpoint
  import W = Wire
  import B = BytePair

  /** The pair, the account of what `me` sends, that of what the peer sends, and what the two tun devices
      were given. */
  datatype World = World(pair: B.Pair, out: Flow, inn: Flow, myTun: seq<Packet>, peerTun: seq<Packet>)

  const START := World(B.START, NO_FLOW, NO_FLOW, [], [])

  function Mirror(w: World): World {
    World(B.Mirror(w.pair), w.inn, w.out, w.peerTun, w.myTun)
  }

  /** What a step of the end `me` gives to its tun device. */
  function ToTun(p: B.Pair, act: B.Act, env: E.Env): seq<Packet>
    requires B.Sound(p)
  {
    match act
    case Deliver => if p.inn == [] then [] else TunPart(W.Receive(p.me, p.inn[0], env))
    case DeliverLossy(i) => if i >= |p.lossyIn| then [] else TunPart(W.Receive(p.me, p.lossyIn[i], env))
    case _ => []
  }

  function TunPart(r: W.Received): seq<Packet> { if r.Received? then r.tun else [] }

  function OutAfter(w: World, act: B.Act): Flow {
    match act
    case Frame(frame, taken) => if IsConnected(w.pair.me) then Forwarded(w.out, [DATA] + frame, taken) else w.out
    case _ => w.out
  }

  function InnAfter(w: World, act: B.Act): Flow {
    match act
    case DeliverLossy(i) => if i < |w.inn.tags| then Arrived(w.inn, i, w.pair.me) else w.inn
    case LoseLossy(i) => if i < |w.inn.tags| then Dropped(w.inn, i) else w.inn
    case _ => w.inn
  }

  function Own(w: World, act: B.Act, env: E.Env): Option<World>
    requires B.Sound(w.pair)
  {
    match B.Own(w.pair, act, env)
    case None => None
    case Some(p) => Some(World(p, SenderMoved(OutAfter(w, act), p.me), ReceiverMoved(InnAfter(w, act), p.me),
                               w.myTun + ToTun(w.pair, act, env), w.peerTun))
  }

  function Next(w: World, step: B.Step): Option<World>
    requires B.Sound(w.pair)
  {
    if step.mine then Own(w, step.act, step.env)
    else match Own(Mirror(w), step.act, step.env)
      case None => None
      case Some(w') => Some(Mirror(w'))
  }

  lemma SoundKept(w: World, step: B.Step)
    requires B.Sound(w.pair) && Next(w, step).Some?
    ensures B.Next(w.pair, step) == Some(Next(w, step).value.pair)
    ensures B.Sound(Next(w, step).value.pair)
  {
    B.SoundKept(w.pair, step);
  }

  function Run(w: World, steps: seq<B.Step>): Option<World>
    requires B.Sound(w.pair)
    decreases |steps|
  {
    if steps == [] then Some(w)
    else if Next(w, steps[0]).None? then None
    else SoundKept(w, steps[0]); Run(Next(w, steps[0]).value, steps[1..])
  }

  // ------------------------------------------------------- the link's conditions

  /** What is asked of the surroundings in a step: frames of at most 255 fragments; when a link sends its
      first fragments, none of an earlier link is under way or kept at the other end; and a fragment
      arrives in order as far as InOrder says. */
  predicate LinkHolds(w: World, step: B.Step) {
    var v := if step.mine then w else Mirror(w);
    match step.act
    case Frame(frame, taken) =>
      && FragmentCount([DATA] + frame) <= 255
      && (IsConnected(v.pair.me) && |[DATA] + frame| > MAX && !v.out.current ==> NothingLeft(v.out, v.pair.peer))
    case DeliverLossy(i) =>
      i < |v.inn.tags| && v.inn.tags[i].Piece? && v.pair.me.Live? ==> InOrder(v.inn, v.inn.tags[i].a)
    case _ => true
  }

  predicate LinkHoldsAlong(w: World, steps: seq<B.Step>)
    requires B.Sound(w.pair)
    decreases |steps|
  {
    steps == [] ||
    (&& LinkHolds(w, steps[0])
     && (Next(w, steps[0]).Some? ==>
           (SoundKept(w, steps[0]); LinkHoldsAlong(Next(w, steps[0]).value, steps[1..]))))
  }

  // --------------------------------------------------------------- the invariant

  /** The frames with these numbers, in that order. */
  predicate FramesOf(sent: seq<Packet>, numbers: seq<nat>, frames: seq<Packet>) {
    |frames| == |numbers| && forall i :: 0 <= i < |frames| ==> numbers[i] < |sent| && frames[i] == sent[numbers[i]]
  }

  /** The tun device was given the frames that the account says were handed over, in that order. */
  predicate TunFits(f: Flow, tun: seq<Packet>) { FramesOf(f.sent, f.handed, tun) }

  ghost predicate Fits(w: World) { B.Honest(w.pair) && AccountsFit(w) }

  /** Both accounts fit the pair, and both tun devices were given what the accounts say. */
  ghost predicate AccountsFit(w: World) {
    && FlowFits(w.out, w.pair.me, w.pair.peer, w.pair.lossyOut) && TunFits(w.out, w.peerTun)
    && FlowFits(w.inn, w.pair.peer, w.pair.me, w.pair.lossyIn) && TunFits(w.inn, w.myTun)
  }

  lemma MirrorFits(w: World)
    requires Fits(w)
    ensures Fits(Mirror(w))
  {
    hide FlowFits, TunFits;
    B.MirrorAbstracts(w.pair);
  }

  // ------------------------------------------------------------- steps keep it all

  /** What control packets and calls do to the own link. */
  lemma ControlMoves(l: W.Link, r: E.Reaction, tun: seq<Packet>)
    ensures CounterMoved(l, W.Done(l, r, tun).link) && StoreMoved(l, W.Done(l, r, tun).link)
  {
  }

  lemma ReceiveKeepsCounter(l: W.Link, p: Packet, env: E.Env)
    requires E.WellFormed(W.EndOf(l)) && W.Receive(l, p, env).Received?
    ensures CounterMoved(l, W.Receive(l, p, env).link)
  {
  }

  /** What a step of `me` leads to when the pair goes on as p. */
  function After(w: World, act: B.Act, p: B.Pair, tun: seq<Packet>): World {
    World(p, SenderMoved(OutAfter(w, act), p.me), ReceiverMoved(InnAfter(w, act), p.me), w.myTun + tun, w.peerTun)
  }

  /** Whatever does not touch `sent` and `handed` leaves the device's record fitting. */
  lemma MovedKeepsTun(f: Flow, l: W.Link, tun: seq<Packet>)
    requires TunFits(f, tun)
    ensures TunFits(SenderMoved(f, l), tun) && TunFits(ReceiverMoved(f, l), tun)
    ensures forall i :: 0 <= i < |f.tags| ==> TunFits(Dropped(f, i), tun)
  {
  }

  /** The accounts follow when the own link keeps, loses or renews counter and store. */
  lemma Settle(p: B.Pair, before: W.Link, out: Flow, inn: Flow, myTun: seq<Packet>, peerTun: seq<Packet>)
    requires FlowFits(out, before, p.peer, p.lossyOut) && TunFits(out, peerTun)
    requires FlowFits(inn, p.peer, before, p.lossyIn) && TunFits(inn, myTun)
    requires CounterMoved(before, p.me) && StoreMoved(before, p.me)
    ensures AccountsFit(World(p, SenderMoved(out, p.me), ReceiverMoved(inn, p.me), myTun + [], peerTun))
  {
    hide FlowFits, TunFits;
    assert myTun + [] == myTun;
    SenderMovedFits(out, before, p.me, p.peer, p.lossyOut);
    ReceiverMovedFits(inn, p.peer, before, p.me, p.lossyIn);
    MovedKeepsTun(out, p.me, peerTun);
    MovedKeepsTun(inn, p.me, myTun);
  }

  lemma NothingHappens(w: World, act: B.Act, env: E.Env)
    requires AccountsFit(w) && B.Sound(w.pair)
    requires B.Own(w.pair, act, env) == Some(w.pair) && ToTun(w.pair, act, env) == []
    requires OutAfter(w, act) == w.out && InnAfter(w, act) == w.inn
    ensures Own(w, act, env).Some? && AccountsFit(Own(w, act, env).value)
  {
    hide FlowFits, TunFits;
    Settle(w.pair, w.pair.me, w.out, w.inn, w.myTun, w.peerTun);
  }

  lemma CallFits(w: World, call: E.Call, env: E.Env)
    requires AccountsFit(w) && B.Sound(w.pair)
    ensures var w' := Own(w, B.User(call), env); w'.Some? && AccountsFit(w'.value)
  {
    hide FlowFits, TunFits;
    var r := W.CallOn(w.pair.me, call, env);
    ControlMoves(w.pair.me, E.UserCall(W.EndOf(w.pair.me), call, env), []);
    Settle(w.pair.(me := r.link, out := w.pair.out + r.wire), w.pair.me, w.out, w.inn, w.myTun, w.peerTun);
  }

  lemma ControlReceived(l: W.Link, p: Packet, env: E.Env)
    requires E.WellFormed(W.EndOf(l)) && W.Classify(p).Control?
    ensures var r := W.Receive(l, p, env);
      r.Received? && r.tun == [] && CounterMoved(l, r.link) && StoreMoved(l, r.link)
  {
    ControlMoves(l, E.React(W.EndOf(l), W.Classify(p), env), []);
  }

  lemma DeliverFits(w: World, env: E.Env)
    requires AccountsFit(w) && B.Sound(w.pair) && B.OnlyControl(w.pair.inn)
    ensures var w' := Own(w, B.Deliver, env); w'.Some? && AccountsFit(w'.value)
  {
    hide FlowFits, TunFits;
    if w.pair.inn == [] {
      NothingHappens(w, B.Deliver, env);
    } else {
      ReadFits(w, env);
    }
  }

  lemma ReadFits(w: World, env: E.Env)
    requires AccountsFit(w) && B.Sound(w.pair) && w.pair.inn != [] && W.Classify(w.pair.inn[0]).Control?
    ensures var w' := Own(w, B.Deliver, env); w'.Some? && AccountsFit(w'.value)
  {
    hide FlowFits, TunFits;
    var r := W.Receive(w.pair.me, w.pair.inn[0], env);
    ControlReceived(w.pair.me, w.pair.inn[0], env);
    Settle(w.pair.(me := r.link, out := w.pair.out + r.wire, inn := w.pair.inn[1..]),
           w.pair.me, w.out, w.inn, w.myTun, w.peerTun);
  }

  lemma LoseFits(w: World, i: nat, env: E.Env)
    requires AccountsFit(w) && B.Sound(w.pair)
    ensures var w' := Own(w, B.LoseLossy(i), env); w'.Some? && AccountsFit(w'.value)
  {
    hide FlowFits, TunFits;
    SameLength(w.inn, w.pair.peer, w.pair.me, w.pair.lossyIn);
    if i < |w.pair.lossyIn| {
      LossKeepsAccounts(w, i, env);
    } else {
      NothingHappens(w, B.LoseLossy(i), env);
    }
  }

  lemma SameLength(f: Flow, sender: W.Link, receiver: W.Link, bag: seq<Packet>)
    requires FlowFits(f, sender, receiver, bag)
    ensures |f.tags| == |bag|
  {
  }

  lemma LossKeepsAccounts(w: World, i: nat, env: E.Env)
    requires AccountsFit(w) && B.Sound(w.pair) && i < |w.pair.lossyIn| && i < |w.inn.tags|
    ensures var w' := Own(w, B.LoseLossy(i), env); w'.Some? && AccountsFit(w'.value)
  {
    hide FlowFits, TunFits;
    LostFits(w.inn, w.pair.peer, w.pair.me, w.pair.lossyIn, i);
    MovedKeepsTun(w.inn, w.pair.me, w.myTun);
    Settle(w.pair.(lossyIn := B.Without(w.pair.lossyIn, i)), w.pair.me, w.out, Dropped(w.inn, i), w.myTun, w.peerTun);
  }

  /** A frame changes the counter of a connected link and nothing else of it. */
  lemma FrameOnLink(l: W.Link, frame: seq<byte>, taken: nat)
    ensures var r := W.SendFrame(l, frame, taken);
      && r.Received?
      && (if IsConnected(l) then r.link.Live? && StoreMoved(l, r.link) else r.link == l && r.wire == [])
  {
  }

  lemma FrameStep(w: World, frame: seq<byte>, taken: nat, env: E.Env)
    requires B.Sound(w.pair)
    ensures var r := W.SendFrame(w.pair.me, frame, taken);
      r.Received? && Own(w, B.Frame(frame, taken), env) ==
        Some(After(w, B.Frame(frame, taken), w.pair.(me := r.link, lossyOut := w.pair.lossyOut + r.wire), []))
  {
    FrameOnLink(w.pair.me, frame, taken);
  }

  lemma SettleForwarded(p: B.Pair, before: W.Link, out: Flow, inn: Flow, myTun: seq<Packet>, peerTun: seq<Packet>)
    requires FlowFits(out, p.me, p.peer, p.lossyOut) && TunFits(out, peerTun)
    requires FlowFits(inn, p.peer, before, p.lossyIn) && TunFits(inn, myTun)
    requires p.me.Live? && StoreMoved(before, p.me)
    ensures AccountsFit(World(p, SenderMoved(out, p.me), ReceiverMoved(inn, p.me), myTun + [], peerTun))
  {
    hide FlowFits, TunFits;
    assert myTun + [] == myTun;
    ReceiverMovedFits(inn, p.peer, before, p.me, p.lossyIn);
    MovedKeepsTun(out, p.me, peerTun);
    MovedKeepsTun(inn, p.me, myTun);
  }

  lemma FrameKeepsAccounts(w: World, frame: seq<byte>, taken: nat, env: E.Env)
    requires AccountsFit(w) && B.Sound(w.pair) && LinkHolds(w, B.Step(true, B.Frame(frame, taken), env))
    ensures var w' := Own(w, B.Frame(frame, taken), env); w'.Some? && AccountsFit(w'.value)
  {
    hide FlowFits, TunFits;
    FrameStep(w, frame, taken, env);
    if IsConnected(w.pair.me) {
      ForwardKeepsAccounts(w, frame, taken);
    } else {
      FrameOnLink(w.pair.me, frame, taken);
      assert w.pair.lossyOut + [] == w.pair.lossyOut;
      NothingHappens(w, B.Frame(frame, taken), env);
    }
  }

  lemma ForwardKeepsAccounts(w: World, frame: seq<byte>, taken: nat)
    requires AccountsFit(w) && IsConnected(w.pair.me) && FragmentCount([DATA] + frame) <= 255
    requires |[DATA] + frame| > MAX && !w.out.current ==> NothingLeft(w.out, w.pair.peer)
    ensures var r := W.SendFrame(w.pair.me, frame, taken);
      r.Received? && AccountsFit(After(w, B.Frame(frame, taken),
                                       w.pair.(me := r.link, lossyOut := w.pair.lossyOut + r.wire), []))
  {
    hide FlowFits, TunFits;
    var r := W.SendFrame(w.pair.me, frame, taken);
    FrameOnLink(w.pair.me, frame, taken);
    ForwardFits(w.out, w.pair.me, w.pair.peer, w.pair.lossyOut, frame, taken);
    ForwardKeepsTun(w.out, [DATA] + frame, taken, w.peerTun);
    SettleForwarded(w.pair.(me := r.link, lossyOut := w.pair.lossyOut + r.wire), w.pair.me,
                    Forwarded(w.out, [DATA] + frame, taken), w.inn, w.myTun, w.peerTun);
  }

  lemma ForwardKeepsTun(f: Flow, p: Packet, taken: nat, tun: seq<Packet>)
    requires TunFits(f, tun)
    ensures TunFits(Forwarded(f, p, taken), tun)
  {
  }

  /** What the arrival of the i-th packet under way gives to the tun device: the frame that arrives alone or
      is completed, if the receiver is connected. */
  function HandedNow(f: Flow, i: nat, l: W.Link): seq<Packet>
    requires i < |f.tags|
  {
    if !IsConnected(l) then []
    else match f.tags[i]
      case Alone(n) => if n < |f.sent| then [f.sent[n]] else []
      case Piece(a) =>
        if FullyArrived(f.packets, TraceOf(f) + [a], a.packet) then [f.packets[a.packet]] else []
  }

  lemma FramesGrow(sent: seq<Packet>, numbers: seq<nat>, frames: seq<Packet>, n: nat)
    requires FramesOf(sent, numbers, frames) && n < |sent|
    ensures FramesOf(sent, numbers + [n], frames + [sent[n]])
  {
  }

  /** The number of the frame in HandedNow. */
  function NumberNow(f: Flow, i: nat, l: W.Link): seq<nat>
    requires i < |f.tags|
  {
    if !IsConnected(l) then []
    else match f.tags[i]
      case Alone(n) => [n]
      case Piece(a) =>
        if a.packet < |f.stream| && FullyArrived(f.packets, TraceOf(f) + [a], a.packet)
        then [f.stream[a.packet]] else []
  }

  lemma ArrivedHands(f: Flow, i: nat, l: W.Link)
    requires i < |f.tags|
    ensures Arrived(f, i, l).sent == f.sent && Arrived(f, i, l).handed == f.handed + NumberNow(f, i, l)
  {
  }

  lemma NumberedNow(f: Flow, l: W.Link, i: nat, p: Packet)
    requires Numbered(f) && i < |f.tags| && TagFits(f, f.tags[i], p)
    ensures var ns := NumberNow(f, i, l);
      if ns == [] then HandedNow(f, i, l) == []
      else |ns| == 1 && ns[0] < |f.sent| && HandedNow(f, i, l) == [f.sent[ns[0]]]
  {
    hide FullyArrived;
    if f.tags[i].Piece? { StreamNumbered(f, f.tags[i].a.packet); }
  }

  lemma HandedNowCounts(f: Flow, sender: W.Link, l: W.Link, bag: seq<Packet>, i: nat, tun: seq<Packet>)
    requires FlowFits(f, sender, l, bag) && TunFits(f, tun) && i < |f.tags|
    ensures TunFits(Arrived(f, i, l), tun + HandedNow(f, i, l))
  {
    hide FlowFits, FramesOf, NumberNow, HandedNow, Arrived, Numbered, TagFits;
    var ns := NumberNow(f, i, l);
    ArrivedHands(f, i, l);
    TagAt(f, sender, l, bag, i);
    NumberedNow(f, l, i, bag[i]);
    if ns == [] {
      assert f.handed + [] == f.handed && tun + [] == tun;
    } else {
      assert ns == [ns[0]];
      FramesGrow(f.sent, f.handed, tun, ns[0]);
    }
  }

  /** A lossy packet arrives: never a corrupt set, and the tun device gets just that. */
  lemma LossyArrives(f: Flow, sender: W.Link, l: W.Link, bag: seq<Packet>, i: nat, env: E.Env)
    requires FlowFits(f, sender, l, bag) && E.WellFormed(W.EndOf(l)) && i < |f.tags|
    requires f.tags[i].Piece? && l.Live? ==> InOrder(f, f.tags[i].a)
    ensures i < |bag|
    ensures var r := W.Receive(l, bag[i], env);
      && r.Received?
      && FlowFits(ReceiverMoved(Arrived(f, i, l), r.link), sender, r.link, B.Without(bag, i))
      && r.tun == HandedNow(f, i, l)
  {
    SameLength(f, sender, l, bag);
    if f.tags[i].Alone? {
      AloneArrives(f, sender, l, bag, i, env);
    } else {
      PieceArrives(f, sender, l, bag, i, env);
    }
  }

  lemma StreamNumbered(f: Flow, k: nat)
    requires Numbered(f) && k < |f.packets|
    ensures k < |f.stream| && f.stream[k] < |f.sent| && f.packets[k] == f.sent[f.stream[k]]
  {
  }

  lemma DeliverLossyFits(w: World, i: nat, env: E.Env)
    requires AccountsFit(w) && B.Sound(w.pair) && LinkHolds(w, B.Step(true, B.DeliverLossy(i), env))
    ensures var w' := Own(w, B.DeliverLossy(i), env); w'.Some? && AccountsFit(w'.value)
  {
    hide FlowFits, InOrder, TunFits;
    SameLength(w.inn, w.pair.peer, w.pair.me, w.pair.lossyIn);
    if i < |w.pair.lossyIn| {
      ArrivalKeepsAccounts(w, i, env);
    } else {
      NothingHappens(w, B.DeliverLossy(i), env);
    }
  }

  lemma ArrivalKeepsAccounts(w: World, i: nat, env: E.Env)
    requires AccountsFit(w) && B.Sound(w.pair) && i < |w.pair.lossyIn| && i < |w.inn.tags|
    requires w.inn.tags[i].Piece? && w.pair.me.Live? ==> InOrder(w.inn, w.inn.tags[i].a)
    ensures var r := W.Receive(w.pair.me, w.pair.lossyIn[i], env);
      r.Received? && AccountsFit(After(w, B.DeliverLossy(i),
        w.pair.(me := r.link, out := w.pair.out + r.wire, lossyIn := B.Without(w.pair.lossyIn, i)), r.tun))
  {
    hide FlowFits, TunFits;
    var r := W.Receive(w.pair.me, w.pair.lossyIn[i], env);
    LossyArrives(w.inn, w.pair.peer, w.pair.me, w.pair.lossyIn, i, env);
    HandedNowCounts(w.inn, w.pair.peer, w.pair.me, w.pair.lossyIn, i, w.myTun);
    ReceiveKeepsCounter(w.pair.me, w.pair.lossyIn[i], env);
    SenderMovedFits(w.out, w.pair.me, r.link, w.pair.peer, w.pair.lossyOut);
    MovedKeepsTun(w.out, r.link, w.peerTun);
    MovedKeepsTun(Arrived(w.inn, i, w.pair.me), r.link, w.myTun + r.tun);
  }

  lemma ActFits(w: World, act: B.Act, env: E.Env)
    requires AccountsFit(w) && B.Sound(w.pair) && B.OnlyControl(w.pair.inn)
    requires LinkHolds(w, B.Step(true, act, env))
    ensures Own(w, act, env).Some? && AccountsFit(Own(w, act, env).value)
  {
    hide FlowFits, TunFits;
    match act
    case User(call) => CallFits(w, call, env);
    case Deliver => DeliverFits(w, env);
    case DeliverLossy(i) => DeliverLossyFits(w, i, env);
    case LoseLossy(i) => LoseFits(w, i, env);
    case Frame(frame, taken) => FrameKeepsAccounts(w, frame, taken, env);
  }

  lemma OwnFits(w: World, act: B.Act, env: E.Env)
    requires Fits(w) && LinkHolds(w, B.Step(true, act, env))
    ensures Own(w, act, env).Some? && Fits(Own(w, act, env).value)
  {
    hide AccountsFit;
    ActFits(w, act, env);
    B.OwnRefines(w.pair, act, env);
  }

  lemma FitsSound(w: World)
    requires Fits(w)
    ensures B.Sound(w.pair) && B.Honest(w.pair)
  {
  }

  lemma StepFits(w: World, step: B.Step)
    requires Fits(w) && LinkHolds(w, step)
    ensures Next(w, step).Some? && Fits(Next(w, step).value)
  {
    hide Fits;
    var v := if step.mine then w else Mirror(w);
    MirrorFits(w);
    FitsSound(v);
    OwnFits(v, step.act, step.env);
    MirrorFits(Own(v, step.act, step.env).value);
  }

  // ----------------------------------------------------------------- main results

  lemma {:induction false} RunFits(w: World, steps: seq<B.Step>)
    requires Fits(w) && LinkHoldsAlong(w, steps)
    ensures Run(w, steps).Some? && Fits(Run(w, steps).value)
    ensures B.Reaches(w.pair, steps, Run(w, steps).value.pair)
    decreases |steps|
  {
    hide Fits;
    FitsSound(w);
    if steps != [] {
      StepFits(w, steps[0]);
      SoundKept(w, steps[0]);
      RunFits(Next(w, steps[0]).value, steps[1..]);
    }
  }

  /** The frames that one end, `me` or the peer, read from its tun device while connected, with their header. */
  function FramesRead(w: World, steps: seq<B.Step>, mine: bool): seq<Packet>
    requires B.Sound(w.pair)
    decreases |steps|
  {
    if steps == [] || Next(w, steps[0]).None? then []
    else
      SoundKept(w, steps[0]);
      ReadNow(w, steps[0], mine) + FramesRead(Next(w, steps[0]).value, steps[1..], mine)
  }

  function ReadNow(w: World, step: B.Step, mine: bool): seq<Packet> {
    if step.mine == mine && step.act.Frame? && IsConnected(if mine then w.pair.me else w.pair.peer)
    then [[DATA] + step.act.frame] else []
  }

  lemma StepSends(w: World, step: B.Step)
    requires B.Sound(w.pair) && Next(w, step).Some?
    ensures Next(w, step).value.out.sent == w.out.sent + ReadNow(w, step, true)
    ensures Next(w, step).value.inn.sent == w.inn.sent + ReadNow(w, step, false)
  {
    hide B.Own;
    assert w.out.sent + [] == w.out.sent && w.inn.sent + [] == w.inn.sent;
  }

  lemma {:induction false} SentAreRead(w: World, steps: seq<B.Step>)
    requires B.Sound(w.pair) && Run(w, steps).Some?
    ensures Run(w, steps).value.out.sent == w.out.sent + FramesRead(w, steps, true)
    ensures Run(w, steps).value.inn.sent == w.inn.sent + FramesRead(w, steps, false)
    decreases |steps|
  {
    hide Next, ReadNow;
    if steps == [] {
      assert w.out.sent + [] == w.out.sent && w.inn.sent + [] == w.inn.sent;
    } else {
      var w' := Next(w, steps[0]).value;
      StepSends(w, steps[0]);
      SoundKept(w, steps[0]);
      SentAreRead(w', steps[1..]);
      Associate(w.out.sent, ReadNow(w, steps[0], true), FramesRead(w', steps[1..], true));
      Associate(w.inn.sent, ReadNow(w, steps[0], false), FramesRead(w', steps[1..], false));
    }
  }

  lemma Associate(a: seq<Packet>, b: seq<Packet>, c: seq<Packet>)
    ensures (a + b) + c == a + (b + c)
  {
  }

  lemma StartFits()
    ensures Fits(START)
  {
    assert TraceOf(NO_FLOW) == [];
  }

  /** What the account of one direction says: the tun device was given the frames `handed`, in that order,
      none of them twice; and these are exactly the frames of which some single connection of the
      receiver has received every piece. */
  ghost predicate DeliveredExactly(f: Flow, tun: seq<Packet>) {
    && TunFits(f, tun)
    && (forall i, j :: 0 <= i < j < |f.handed| ==> f.handed[i] != f.handed[j])
    && (forall n: nat :: n in f.handed <==> exists e: nat :: GotWhole(f, n, e))
  }

  /** Every byte-level run on a link that keeps its conditions goes on: no corrupt set ever ends the
      program, through any number of sessions; it is one of the runs of BytePair; and at every moment
      of it, in both directions, the frames at the tun device are exactly those read from the device at
      the other end of which one connection received every piece, each once. */
  lemma FramesEndToEnd(steps: seq<B.Step>)
    requires LinkHoldsAlong(START, steps)
    ensures Run(START, steps).Some?
    ensures var w := Run(START, steps).value;
      && B.Reaches(B.START, steps, w.pair)
      && w.out.sent == FramesRead(START, steps, true) && w.inn.sent == FramesRead(START, steps, false)
      && DeliveredExactly(w.out, w.peerTun) && DeliveredExactly(w.inn, w.myTun)
  {
    StartFits();
    RunFits(START, steps);
    SentAreRead(START, steps);
    Associate([], [], FramesRead(START, steps, true));
    Associate([], [], FramesRead(START, steps, false));
  }

  /** So on such a link no half-open connection survives, without any assumption on stores and
      fragments. */
  lemma LinkKeepsTogether(steps: seq<B.Step>)
    requires LinkHoldsAlong(START, steps) && forall s <- steps :: s.env.goodbyeOk
    ensures Run(START, steps).Some?
    ensures var p := Run(START, steps).value.pair;
      p.out == [] && p.inn == [] && (IsConnected(p.me) || IsConnected(p.peer)) ==>
        exists subnet: byte :: B.BothUpOn(p.me, p.peer, subnet) || B.BothUpOn(p.peer, p.me, subnet)
  {
    FramesEndToEnd(steps);
    var p := Run(START, steps).value.pair;
    if p.out == [] && p.inn == [] { B.BytesConnectedTogether(steps, p); }
  }
}
