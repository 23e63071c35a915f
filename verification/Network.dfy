/**
 Any number of cores, each with any number of friends, all at once: every two of them see nothing but a
 pair, so what is proved of the pair holds between any two nodes of the network.
*/
module Network {
  import opened Packets
  import opened Tun
  import opened Endpoint
  import opened Wire
  import A = Agreement
  import B = BytePair
  import M = ManyFriends
  import S = Settlement

  /** The cores by node, and the packets under way from one node to another. A core numbers its friends by
      the nodes they are at. */
  datatype Net = Net(cores: map<nat, M.Core>,
                     control: map<(nat, nat), seq<Packet>>, lossy: map<(nat, nat), seq<Packet>>)

  const START := Net(map[], map[], map[])

  /** Something happens at a node, concerning one friend. */
  datatype Step = Step(node: nat, friend: nat, act: B.Act, env: Env)

  function CoreAt(net: Net, n: nat): M.Core {
    if n in net.cores then net.cores[n] else M.Core(map[], [], [], [])
  }

  function Channel(channels: map<(nat, nat), seq<Packet>>, from: nat, to: nat): seq<Packet> {
    if (from, to) in channels then channels[(from, to)] else []
  }

  /** What the node's core gets to handle; None when nothing arrives. */
  function InputOf(net: Net, step: Step): Option<M.Input> {
    match step.act
    case User(call) => Some(M.Request(call))
    case Deliver =>
      var c := Channel(net.control, step.friend, step.node);
      if c == [] then None else Some(M.Packet(c[0]))
    case DeliverLossy(i) =>
      var c := Channel(net.lossy, step.friend, step.node);
      if i < |c| then Some(M.Packet(c[i])) else None
    case LoseLossy(_) => None
    case Frame(frame, taken) => Some(M.Frame(frame, taken))
  }

  function CoreAfter(net: Net, step: Step): M.Core {
    var c := CoreAt(net, step.node);
    match InputOf(net, step)
    case None => c
    case Some(input) => M.TakeTurn(c, M.Turn(step.friend, input, step.env))
  }

  /** What a core has sent to a friend since it was `before`. */
  function NewlySent(before: M.Core, after: M.Core, friend: nat): seq<Packet> {
    if before.Core? && after.Core? && |before.sent| <= |after.sent|
    then M.For(after.sent[|before.sent|..], friend) else []
  }

  /** The packet read or lost leaves its channel. */
  function Taken(net: Net, step: Step): Net {
    var from, to := step.friend, step.node;
    match step.act
    case Deliver =>
      var c := Channel(net.control, from, to);
      if c == [] then net else net.(control := net.control[(from, to) := c[1..]])
    case DeliverLossy(i) =>
      var c := Channel(net.lossy, from, to);
      if i < |c| then net.(lossy := net.lossy[(from, to) := B.Without(c, i)]) else net
    case LoseLossy(i) =>
      var c := Channel(net.lossy, from, to);
      if i < |c| then net.(lossy := net.lossy[(from, to) := B.Without(c, i)]) else net
    case _ => net
  }

  /** One step of one node. Nobody is a friend of its own, and a program that has ended on a corrupt set does
      nothing any more; the others go on. */
  function Next(net: Net, step: Step): Net {
    var before, after := CoreAt(net, step.node), CoreAfter(net, step);
    if step.node == step.friend || before.Ended? then net
    else
      var wire := NewlySent(before, after, step.friend);
      var v := Taken(net, step).(cores := net.cores[step.node := after]);
      var key := (step.node, step.friend);
      if step.act.Frame? then v.(lossy := v.lossy[key := Channel(v.lossy, step.node, step.friend) + wire])
      else v.(control := v.control[key := Channel(v.control, step.node, step.friend) + wire])
  }

  function Run(net: Net, steps: seq<Step>): Net
    decreases |steps|
  {
    if steps == [] then net else Run(Next(net, steps[0]), steps[1..])
  }

  // ------------------------------------------------------------ two nodes as a pair

  predicate BothRun(net: Net, i: nat, j: nat) { CoreAt(net, i).Core? && CoreAt(net, j).Core? }

  /** What nodes i and j and the channels between them look like to each other. */
  function PairOf(net: Net, i: nat, j: nat): (p: B.Pair)
    requires BothRun(net, i, j)
    ensures B.Sound(p)
  {
    B.Pair(M.LinkOf(CoreAt(net, i).links, j), M.LinkOf(CoreAt(net, j).links, i),
           Channel(net.control, i, j), Channel(net.control, j, i),
           Channel(net.lossy, i, j), Channel(net.lossy, j, i))
  }

  /** The part of a step that the pair notices. */
  function PairStep(step: Step, i: nat, j: nat): seq<B.Step> {
    if step.node == i && step.friend == j then [B.Step(true, step.act, step.env)]
    else if step.node == j && step.friend == i then [B.Step(false, step.act, step.env)]
    else []
  }

  function PairSteps(steps: seq<Step>, i: nat, j: nat): seq<B.Step> {
    if steps == [] then [] else PairStep(steps[0], i, j) + PairSteps(steps[1..], i, j)
  }

  /** A turn moves its friend's link as OnLink says and no other, and sends to that friend only. */
  lemma TurnSends(c: M.Core, friend: nat, input: M.Input, env: Env)
    requires c.Core?
    ensures var r := M.OnLink(M.LinkOf(c.links, friend), input, env);
      var c' := M.TakeTurn(c, M.Turn(friend, input, env));
      && (r.Crashed? <==> c'.Ended?)
      && (r.Received? ==>
            && M.LinkOf(c'.links, friend) == r.link && NewlySent(c, c', friend) == r.wire
            && forall g: nat :: g != friend ==> M.LinkOf(c'.links, g) == M.LinkOf(c.links, g))
  {
    var r := M.OnLink(M.LinkOf(c.links, friend), input, env);
    if r.Received? {
      var c' := M.TakeTurn(c, M.Turn(friend, input, env));
      assert c'.sent[|c.sent|..] == Tagged(friend, r.wire);
      M.ForTagged(r.wire, friend, friend);
    }
  }

  /** What a channel that the acting node reads from holds afterwards. */
  function LeftOver(c: seq<Packet>, act: B.Act, lossy: bool): seq<Packet> {
    match act
    case Deliver => if !lossy && c != [] then c[1..] else c
    case DeliverLossy(i) => if lossy && i < |c| then B.Without(c, i) else c
    case LoseLossy(i) => if lossy && i < |c| then B.Without(c, i) else c
    case _ => c
  }

  lemma ControlAfter(net: Net, step: Step)
    requires step.node != step.friend && CoreAt(net, step.node).Core?
    ensures var w := Next(net, step); var n, f := step.node, step.friend;
      var wire := NewlySent(CoreAt(net, n), CoreAfter(net, step), f);
      && Channel(w.control, n, f) == Channel(net.control, n, f) + (if step.act.Frame? then [] else wire)
      && Channel(w.control, f, n) == LeftOver(Channel(net.control, f, n), step.act, false)
      && (forall x: nat, y: nat :: (x != n || y != f) && (x != f || y != n) ==>
            Channel(w.control, x, y) == Channel(net.control, x, y))
  {
    hide CoreAfter, NewlySent, B.Without;
    assert Channel(net.control, step.node, step.friend) + [] == Channel(net.control, step.node, step.friend);
  }

  lemma LossyAfter(net: Net, step: Step)
    requires step.node != step.friend && CoreAt(net, step.node).Core?
    ensures var w := Next(net, step); var n, f := step.node, step.friend;
      var wire := NewlySent(CoreAt(net, n), CoreAfter(net, step), f);
      && Channel(w.lossy, n, f) == Channel(net.lossy, n, f) + (if step.act.Frame? then wire else [])
      && Channel(w.lossy, f, n) == LeftOver(Channel(net.lossy, f, n), step.act, true)
      && (forall x: nat, y: nat :: (x != n || y != f) && (x != f || y != n) ==>
            Channel(w.lossy, x, y) == Channel(net.lossy, x, y))
  {
    hide CoreAfter, NewlySent, B.Without;
    assert Channel(net.lossy, step.node, step.friend) + [] == Channel(net.lossy, step.node, step.friend);
  }

  lemma CoresAfter(net: Net, step: Step)
    requires step.node != step.friend && CoreAt(net, step.node).Core?
    ensures forall n: nat ::
      CoreAt(Next(net, step), n) == if n == step.node then CoreAfter(net, step) else CoreAt(net, n)
  {
    hide CoreAfter, NewlySent, B.Without;
  }

  /** What the core does with the step, in terms of its friend's link. */
  function LinkTurn(l: Link, input: Option<M.Input>, env: Env): Received
    requires WellFormed(EndOf(l))
  {
    if input.None? then Received(l, [], [], []) else M.OnLink(l, input.value, env)
  }

  lemma CoreTurn(net: Net, step: Step)
    requires CoreAt(net, step.node).Core?
    ensures var c, c' := CoreAt(net, step.node), CoreAfter(net, step);
      var r := LinkTurn(M.LinkOf(c.links, step.friend), InputOf(net, step), step.env);
      && (r.Crashed? <==> c'.Ended?)
      && (r.Received? ==>
            && M.LinkOf(c'.links, step.friend) == r.link && NewlySent(c, c', step.friend) == r.wire
            && forall g: nat :: g != step.friend ==> M.LinkOf(c'.links, g) == M.LinkOf(c.links, g))
  {
    var c := CoreAt(net, step.node);
    match InputOf(net, step)
    case None => assert c.sent[|c.sent|..] == [];
    case Some(input) => TurnSends(c, step.friend, input, step.env);
  }

  /** The pair's own step is just that. */
  lemma PairTurn(p: B.Pair, act: B.Act, env: Env, input: Option<M.Input>)
    requires B.Sound(p)
    requires input == match act
      case User(call) => Some(M.Request(call))
      case Deliver => if p.inn == [] then None else Some(M.Packet(p.inn[0]))
      case DeliverLossy(i) => if i < |p.lossyIn| then Some(M.Packet(p.lossyIn[i])) else None
      case LoseLossy(_) => None
      case Frame(frame, taken) => Some(M.Frame(frame, taken))
    ensures var r := LinkTurn(p.me, input, env);
      B.Own(p, act, env) ==
        if r.Crashed? then None
        else Some(B.Pair(r.link, p.peer, p.out + (if act.Frame? then [] else r.wire), LeftOver(p.inn, act, false),
                         p.lossyOut + (if act.Frame? then r.wire else []), LeftOver(p.lossyIn, act, true)))
  {
    hide Receive, SendFrame, CallOn;
    assert p.out + [] == p.out && p.lossyOut + [] == p.lossyOut;
  }

  /** A step of node i about its friend j is a step of the pair. */
  lemma OwnStepProjects(net: Net, step: Step, i: nat, j: nat)
    requires i != j && step.node == i && step.friend == j && BothRun(net, i, j)
    ensures var p := B.Next(PairOf(net, i, j), B.Step(true, step.act, step.env));
      if BothRun(Next(net, step), i, j) then p == Some(PairOf(Next(net, step), i, j)) else p == None
  {
    hide Next, CoreAfter, NewlySent, LeftOver, LinkTurn, B.Own;
    ControlAfter(net, step);
    LossyAfter(net, step);
    CoresAfter(net, step);
    CoreTurn(net, step);
    PairTurn(PairOf(net, i, j), step.act, step.env, InputOf(net, step));
  }

  lemma PairMirrored(net: Net, i: nat, j: nat)
    requires BothRun(net, i, j)
    ensures PairOf(net, j, i) == B.Mirror(PairOf(net, i, j))
  {
  }

  /** The end of a program is for good. */
  lemma {:induction false} EndedStays(net: Net, steps: seq<Step>, n: nat)
    requires CoreAt(net, n).Ended?
    ensures CoreAt(Run(net, steps), n).Ended?
    decreases |steps|
  {
    if steps != [] { EndedStays(Next(net, steps[0]), steps[1..], n); }
  }

  /** Any other step leaves what the pair sees as it is. */
  lemma OthersUnseen(net: Net, step: Step, i: nat, j: nat)
    requires i != j && PairStep(step, i, j) == [] && BothRun(net, i, j) && BothRun(Next(net, step), i, j)
    ensures PairOf(Next(net, step), i, j) == PairOf(net, i, j)
  {
    if step.node != step.friend && CoreAt(net, step.node).Core? {
      hide Next, CoreAfter, NewlySent, LeftOver, LinkTurn;
      ControlAfter(net, step);
      LossyAfter(net, step);
      CoresAfter(net, step);
      CoreTurn(net, step);
    }
  }

  /** Every step of the network is, for nodes i and j, a step of the pair or nothing. */
  lemma StepProjects(net: Net, step: Step, i: nat, j: nat)
    requires i != j && BothRun(net, i, j) && BothRun(Next(net, step), i, j)
    ensures var seen := PairStep(step, i, j); var p := PairOf(net, i, j); var p' := PairOf(Next(net, step), i, j);
      if seen == [] then p' == p else B.Next(p, seen[0]) == Some(p')
  {
    if step.node == i && step.friend == j {
      OwnStepProjects(net, step, i, j);
    } else if step.node == j && step.friend == i {
      OwnStepProjects(net, step, j, i);
      PairMirrored(net, i, j);
      PairMirrored(Next(net, step), i, j);
    } else {
      OthersUnseen(net, step, i, j);
    }
  }

  /** Every run of the network, as long as the programs of nodes i and j go on, is for them a run of the
      pair on their own steps, whatever all the others do. */
  lemma {:induction false} RunProjects(net: Net, steps: seq<Step>, i: nat, j: nat)
    requires i != j && BothRun(Run(net, steps), i, j) && forall s <- PairSteps(steps, i, j) :: B.FrameFits(s)
    requires BothRun(net, i, j) && B.Honest(PairOf(net, i, j))
    ensures B.Reaches(PairOf(net, i, j), PairSteps(steps, i, j), PairOf(Run(net, steps), i, j))
    decreases |steps|
  {
    hide B.Honest, B.Next, B.FrameFits, Next, PairOf;
    if steps != [] {
      var net', seen, rest := Next(net, steps[0]), PairStep(steps[0], i, j), PairSteps(steps[1..], i, j);
      if CoreAt(net', i).Ended? { EndedStays(net', steps[1..], i); }
      if CoreAt(net', j).Ended? { EndedStays(net', steps[1..], j); }
      StepProjects(net, steps[0], i, j);
      assert forall s <- rest :: s in PairSteps(steps, i, j);
      if seen == [] {
        assert PairSteps(steps, i, j) == rest;
      } else {
        assert seen[0] in PairSteps(steps, i, j);
        B.StepRefines(PairOf(net, i, j), seen[0]);
        assert ([seen[0]] + rest)[1..] == rest;
      }
      RunProjects(net', steps[1..], i, j);
    }
  }

  lemma StartPair(i: nat, j: nat)
    ensures BothRun(START, i, j) && PairOf(START, i, j) == B.START && B.Honest(B.START)
  {
  }

  /** No half-open connection anywhere in the network: between any two nodes whose programs run on, once the
      control channels between them have drained and none of their goodbyes to each other was lost,
      one is connected to the other only if the other is to it, on one subnet with addresses 1 and 2;
      and otherwise neither is in the middle of a negotiation. */
  lemma AnyTwoConnectedTogether(steps: seq<Step>, i: nat, j: nat)
    requires i != j && BothRun(Run(START, steps), i, j)
    requires forall s <- PairSteps(steps, i, j) :: B.FrameFits(s) && s.env.goodbyeOk
    requires PairOf(Run(START, steps), i, j).out == [] && PairOf(Run(START, steps), i, j).inn == []
    ensures var p := PairOf(Run(START, steps), i, j);
      && A.Settled(B.Abstract(p))
      && (IsUp(EndOf(p.me), Connected) || IsUp(EndOf(p.peer), Connected) ==>
            exists subnet: byte :: B.BothUpOn(p.me, p.peer, subnet) || B.BothUpOn(p.peer, p.me, subnet))
  {
    var own, p := PairSteps(steps, i, j), PairOf(Run(START, steps), i, j);
    StartPair(i, j);
    hide B.Honest, PairOf, BothRun, PairSteps, Run;
    RunProjects(START, steps, i, j);
    B.BytesConnectedTogether(own, p);
    S.DrainedBytesSettle(own, p);
  }
}
