/**
 An account of one direction of the pair on real bytes: every frame forwarded, every fragment under way and
 arrived, every frame handed to the tun device; and what each event does to it.
*/
module Accounts {
  import opened Packets
  import opened Fragmentation
  import opened Reassembly
  import opened ReorderedStream
  import E = Endpoint
  import W = Wire
  import B = BytePair

  /** What a lossy packet under way is: a whole frame, or a fragment of the running stream. */
  datatype Tag = Alone(frame: nat) | Piece(a: Arrival)

  /** Piece j of a frame was received by the receiver's link with this number: arrived there without ending
      it. A frame that is not split is one piece. */
  datatype Got = Got(frame: nat, piece: nat, link: nat)

  /** The account of one direction. `sent` are all frames forwarded in it, with their header;
      `stream` are the numbers of those that the sender's newest link to send any had to split, and
      `packets` these frames; `current` says that this link is still there. `tags` goes along with the
      packets under way. `arrivals` are the fragments of the stream that have arrived, from `since`
      on at the receiver's present link. `handed` are the numbers of the frames handed to the tun
      device, `link` is the number of the receiver's present link, and `got` is all that its links
      have received. */
  datatype Flow = Flow(sent: seq<Packet>, stream: seq<nat>, packets: seq<Packet>, current: bool, tags: seq<Tag>,
                       arrivals: Trace, since: nat, handed: seq<nat>, link: nat, got: set<Got>)

  const NO_FLOW := Flow([], [], [], false, [], [], 0, [], 0, {})

  /** What the receiver's present link has got of the stream. */
  function TraceOf(f: Flow): Trace {
    if f.since <= |f.arrivals| then f.arrivals[f.since..] else []
  }

  // ------------------------------------------------------------ keeping account

  function SenderMoved(f: Flow, l: W.Link): Flow {
    if l.Down? then f.(current := false) else f
  }

  function ReceiverMoved(f: Flow, l: W.Link): Flow {
    if l.Down? then f.(since := |f.arrivals|, link := f.link + 1) else f
  }

  function Dropped(f: Flow, i: nat): Flow
    requires i < |f.tags|
  {
    f.(tags := B.Without(f.tags, i))
  }

  predicate IsConnected(l: W.Link) { E.IsUp(W.EndOf(l), E.Connected) }

  /** The i-th packet under way arrives at link l. */
  function Arrived(f: Flow, i: nat, l: W.Link): Flow
    requires i < |f.tags|
  {
    match f.tags[i]
    case Alone(n) => AloneArrived(Dropped(f, i), n, IsConnected(l))
    case Piece(a) => PieceArrived(Dropped(f, i), a, l.Live?, IsConnected(l))
  }

  function AloneArrived(f: Flow, n: nat, connected: bool): Flow {
    if connected then f.(handed := f.handed + [n], got := f.got + {Got(n, 0, f.link)}) else f
  }

  /** A fragment that completes its frame ends a link that is not connected. */
  function PieceArrived(f: Flow, a: Arrival, open: bool, connected: bool): Flow {
    var whole := FullyArrived(f.packets, TraceOf(f) + [a], a.packet);
    if open && (connected || !whole) && a.packet < |f.stream| then
      f.(arrivals := f.arrivals + [a],
         got := f.got + {Got(f.stream[a.packet], a.number, f.link)},
         handed := f.handed + if whole then [f.stream[a.packet]] else [])
    else f.(arrivals := f.arrivals + [a])
  }

  /** The arrivals that a split packet with number k will have, last fragment first, as it is sent. */
  function Pieces(k: nat, count: nat): (tags: seq<Tag>)
    ensures |tags| == count
  {
    seq(count, i requires 0 <= i < count => Piece(Arrival(k, count - 1 - i)))
  }

  function FirstOf(tags: seq<Tag>, n: nat): seq<Tag> { tags[..if n < |tags| then n else |tags|] }

  /** A connected end forwards a frame, of which tox takes the first packets. */
  function Forwarded(f: Flow, p: Packet, taken: nat): Flow {
    var f' := f.(sent := f.sent + [p]);
    if |p| <= MAX then
      f'.(tags := f.tags + FirstOf([Alone(|f.sent|)], taken))
    else if f.current then
      f'.(stream := f.stream + [|f.sent|], packets := f.packets + [p],
          tags := f.tags + FirstOf(Pieces(|f.stream|, FragmentCount(p)), taken))
    else
      f'.(stream := [|f.sent|], packets := [p], current := true,
          tags := f.tags + FirstOf(Pieces(0, FragmentCount(p)), taken),
          arrivals := [], since := 0)
  }

  // -------------------------------------------------------------- the invariant

  predicate Numbered(f: Flow) {
    && |f.packets| == |f.stream| && f.since <= |f.arrivals|
    && (forall n :: 0 <= n < |f.sent| ==> f.sent[n][0] == DATA && FragmentCount(f.sent[n]) <= 255)
    && (forall k :: 0 <= k < |f.stream| ==>
          f.stream[k] < |f.sent| && f.packets[k] == f.sent[f.stream[k]] && |f.packets[k]| > MAX)
    && (forall j, k :: 0 <= j < k < |f.stream| ==> f.stream[j] != f.stream[k])
  }

  /** Each packet under way is what its tag says, is under way once, and has not arrived before. */
  predicate UnderWay(f: Flow, bag: seq<Packet>) {
    && |bag| == |f.tags|
    && (forall i :: 0 <= i < |f.tags| ==> TagFits(f, f.tags[i], bag[i]))
    && (forall i, j :: 0 <= i < j < |f.tags| ==> f.tags[i] != f.tags[j])
  }

  predicate TagFits(f: Flow, tag: Tag, p: Packet) {
    match tag
    case Alone(n) => n < |f.sent| && p == f.sent[n] && |p| <= MAX && n !in f.handed
    case Piece(a) => Exists(f.packets, a) && p == Sent(f.packets, a) && a !in f.arrivals
  }

  predicate ArrivedOnce(f: Flow) {
    && (forall t :: 0 <= t < |f.arrivals| ==> Exists(f.packets, f.arrivals[t]))
    && (forall s, t :: 0 <= s < t < |f.arrivals| ==> f.arrivals[s] != f.arrivals[t])
  }

  /** No frame is handed over twice, and none of the stream before it has arrived. */
  predicate HandedOnce(f: Flow) {
    && (forall i :: 0 <= i < |f.handed| ==> f.handed[i] < |f.sent|)
    && (forall i, j :: 0 <= i < j < |f.handed| ==> f.handed[i] != f.handed[j])
    && (forall k :: 0 <= k < |f.stream| && f.stream[k] in f.handed ==> FullyArrived(f.packets, f.arrivals, k))
  }

  function PieceTotal(p: Packet): nat { if |p| <= MAX then 1 else FragmentCount(p) }

  /** The receiver's link with number e has received every piece of frame n. */
  predicate GotWhole(f: Flow, n: nat, e: nat) {
    n < |f.sent| && forall j: nat :: j < PieceTotal(f.sent[n]) ==> Got(n, j, e) in f.got
  }

  /** A frame has been handed over if and only if some link of the receiver has received all of it. */
  ghost predicate HandedExactly(f: Flow) {
    && (forall g <- f.got :: g.frame < |f.sent| && g.link <= f.link)
    && (forall n: nat, e: nat :: GotWhole(f, n, e) ==> n in f.handed)
    && (forall n <- f.handed :: exists e: nat :: GotWhole(f, n, e))
  }

  /** What the present link has received of the running stream. */
  ghost predicate GotFits(f: Flow) {
    forall k: nat, j: nat :: k < |f.stream| ==>
      (Got(f.stream[k], j, f.link) in f.got <==> Arrival(k, j) in TraceOf(f))
  }

  predicate CounterFits(f: Flow, sender: W.Link) {
    if sender.Down? then !f.current else sender.next == if f.current then |f.stream| % 256 else 0
  }

  /** The receiver's store is the one of ReorderedStream. */
  ghost predicate StoreFits(f: Flow, receiver: W.Link) {
    if receiver.Down? then TraceOf(f) == []
    else Admissible(f.packets, TraceOf(f)) && receiver.store == StoreAfter(f.packets, TraceOf(f), |TraceOf(f)|)
  }

  /** The account in itself. */
  ghost predicate RecordFits(f: Flow, bag: seq<Packet>) {
    Numbered(f) && UnderWay(f, bag) && ArrivedOnce(f) && HandedOnce(f) && HandedExactly(f)
  }

  /** The account fits the two links and the packets under way. */
  ghost predicate FlowFits(f: Flow, sender: W.Link, receiver: W.Link, bag: seq<Packet>) {
    RecordFits(f, bag) && GotFits(f) && CounterFits(f, sender) && StoreFits(f, receiver)
  }

  // ------------------------------------------------- links come, change and go

  /** The sender's link kept its counter, or is gone, or is new. */
  predicate CounterMoved(before: W.Link, after: W.Link) {
    after.Down? || after.next == if before.Live? then before.next else 0
  }

  /** The receiver's link kept its store, or is gone, or is new. */
  predicate StoreMoved(before: W.Link, after: W.Link) {
    after.Down? || after.store == if before.Live? then before.store else map[]
  }

  lemma SenderMovedFits(f: Flow, before: W.Link, after: W.Link, receiver: W.Link, bag: seq<Packet>)
    requires FlowFits(f, before, receiver, bag) && CounterMoved(before, after)
    ensures FlowFits(SenderMoved(f, after), after, receiver, bag)
  {
    hide ArrivedOnce, HandedOnce, HandedExactly, GotFits, Admissible, StoreAfter;
    var f' := SenderMoved(f, after);
    assert TraceOf(f') == TraceOf(f);
    SameAccount(f, f', bag);
    SameGot(f, f');
  }

  lemma ReceiverMovedFits(f: Flow, sender: W.Link, before: W.Link, after: W.Link, bag: seq<Packet>)
    requires FlowFits(f, sender, before, bag) && StoreMoved(before, after)
    ensures FlowFits(ReceiverMoved(f, after), sender, after, bag)
  {
    hide Numbered, UnderWay, ArrivedOnce, HandedOnce, HandedExactly, GotFits, CounterFits;
    if after.Down? {
      ReceiverGone(f, sender, before, bag);
    } else if before.Down? {
      FreshStore(f, before, after);
    }
  }

  lemma FreshStore(f: Flow, before: W.Link, after: W.Link)
    requires StoreFits(f, before) && before.Down? && after.Live? && after.store == map[]
    ensures StoreFits(f, after)
  {
  }

  /** Where the present link's share begins, and whether the sender's link is there, does not matter to the
      rest of the account. */
  lemma SameAccount(f: Flow, f': Flow, bag: seq<Packet>)
    requires f' == f.(current := f'.current, since := f'.since, link := f'.link) && f.link <= f'.link
    ensures UnderWay(f, bag) ==> UnderWay(f', bag)
    ensures ArrivedOnce(f) ==> ArrivedOnce(f')
    ensures HandedOnce(f) ==> HandedOnce(f')
    ensures HandedExactly(f) ==> HandedExactly(f')
  {
    if UnderWay(f, bag) {
      forall i | 0 <= i < |f.tags|
        ensures TagFits(f', f.tags[i], bag[i])
      {
        assert TagFits(f, f.tags[i], bag[i]);
      }
    }
    SameWhole(f, f');
  }

  lemma SameWhole(f: Flow, f': Flow)
    requires f'.sent == f.sent && f'.got == f.got
    ensures forall n: nat, e: nat :: GotWhole(f', n, e) <==> GotWhole(f, n, e)
  {
  }

  lemma SameGot(f: Flow, f': Flow)
    requires GotFits(f) && TraceOf(f') == TraceOf(f)
    requires f'.stream == f.stream && f'.link == f.link && f'.got == f.got
    ensures GotFits(f')
  {
  }

  /** A new link of the receiver has received nothing. */
  lemma NothingYet(f: Flow)
    requires TraceOf(f) == [] && forall g <- f.got :: g.link < f.link
    ensures GotFits(f)
  {
  }

  lemma ReceiverGone(f: Flow, sender: W.Link, before: W.Link, bag: seq<Packet>)
    requires FlowFits(f, sender, before, bag)
    ensures FlowFits(ReceiverMoved(f, W.Down), sender, W.Down, bag)
  {
    hide UnderWay, ArrivedOnce, HandedOnce, GotFits, GotWhole, Admissible, StoreAfter;
    var f' := ReceiverMoved(f, W.Down);
    assert TraceOf(f') == [];
    NothingYet(f');
    SameAccount(f, f', bag);
  }

  // --------------------------------------------------------- a packet leaves the bag

  lemma DroppedFits(f: Flow, bag: seq<Packet>, i: nat)
    requires UnderWay(f, bag) && i < |f.tags|
    ensures UnderWay(Dropped(f, i), B.Without(bag, i))
    ensures f.tags[i] !in Dropped(f, i).tags
  {
    var tags, rest := f.tags, B.Without(f.tags, i);
    forall j | 0 <= j < |rest|
      ensures rest[j] == tags[if j < i then j else j + 1]
      ensures B.Without(bag, i)[j] == bag[if j < i then j else j + 1]
    {}
  }

  lemma LostFits(f: Flow, sender: W.Link, receiver: W.Link, bag: seq<Packet>, i: nat)
    requires FlowFits(f, sender, receiver, bag) && i < |f.tags|
    ensures FlowFits(Dropped(f, i), sender, receiver, B.Without(bag, i))
  {
    DroppedFits(f, bag, i);
    BagReplaced(f, sender, receiver, bag, B.Without(f.tags, i), B.Without(bag, i));
  }

  /** Only the bag and its tags are replaced. */
  lemma BagReplaced(f: Flow, sender: W.Link, receiver: W.Link, bag: seq<Packet>, tags: seq<Tag>, bag': seq<Packet>)
    requires FlowFits(f, sender, receiver, bag) && UnderWay(f.(tags := tags), bag')
    ensures FlowFits(f.(tags := tags), sender, receiver, bag')
  {
    hide UnderWay, GotFits, GotWhole, Admissible, StoreAfter;
    var f' := f.(tags := tags);
    assert TraceOf(f') == TraceOf(f);
    SameGot(f, f');
    SameWhole(f, f');
  }

  lemma TagAt(f: Flow, sender: W.Link, receiver: W.Link, bag: seq<Packet>, i: nat)
    requires FlowFits(f, sender, receiver, bag) && i < |f.tags|
    ensures Numbered(f) && i < |bag| && TagFits(f, f.tags[i], bag[i])
  {
    hide Numbered, ArrivedOnce, HandedOnce, HandedExactly, GotFits, CounterFits, StoreFits, TagFits;
  }

  /** A packet that is no fragment at all goes to the tun device of a connected link and ends another. */
  lemma ReceiveAlone(l: W.Link, p: Packet, env: E.Env)
    requires E.WellFormed(W.EndOf(l)) && p[0] == DATA
    ensures var r := W.Receive(l, p, env);
      r.Received? && StoreMoved(l, r.link) && r.tun == if IsConnected(l) then [p] else []
  {
  }

  lemma AloneIsData(f: Flow, i: nat, p: Packet)
    requires Numbered(f) && i < |f.tags| && f.tags[i].Alone? && TagFits(f, f.tags[i], p)
    ensures p[0] == DATA && f.tags[i].frame < |f.sent| && p == f.sent[f.tags[i].frame]
  {
  }

  lemma AloneTaken(f: Flow, sender: W.Link, receiver: W.Link, bag: seq<Packet>, i: nat)
    requires FlowFits(f, sender, receiver, bag) && i < |f.tags| && f.tags[i].Alone?
    ensures FlowFits(Arrived(f, i, receiver), sender, receiver, B.Without(bag, i))
  {
    hide Numbered, UnderWay, HandedOnce, HandedExactly, GotFits, Admissible, StoreAfter, TagFits;
    TagAt(f, sender, receiver, bag, i);
    DroppedFits(f, bag, i);
    LostFits(f, sender, receiver, bag, i);
    if IsConnected(receiver) {
      AloneFrame(f, i, bag[i]);
      AloneHanded(Dropped(f, i), B.Without(bag, i), f.tags[i].frame);
    }
  }

  lemma AloneFrame(f: Flow, i: nat, p: Packet)
    requires Numbered(f) && i < |f.tags| && f.tags[i].Alone? && TagFits(f, f.tags[i], p)
    ensures var n := f.tags[i].frame; n < |f.sent| && |f.sent[n]| <= MAX && n !in f.handed
  {
  }

  /** A whole frame arrives: handed over exactly by a connected link. */
  lemma AloneArrives(f: Flow, sender: W.Link, receiver: W.Link, bag: seq<Packet>, i: nat, env: E.Env)
    requires FlowFits(f, sender, receiver, bag) && i < |f.tags| && f.tags[i].Alone?
    requires E.WellFormed(W.EndOf(receiver))
    ensures var r := W.Receive(receiver, bag[i], env);
      && r.Received?
      && FlowFits(ReceiverMoved(Arrived(f, i, receiver), r.link), sender, r.link, B.Without(bag, i))
      && r.tun == if IsConnected(receiver) then [f.sent[f.tags[i].frame]] else []
  {
    hide FlowFits, Numbered;
    TagAt(f, sender, receiver, bag, i);
    AloneIsData(f, i, bag[i]);
    ReceiveAlone(receiver, bag[i], env);
    AloneTaken(f, sender, receiver, bag, i);
    ReceiverMovedFits(Arrived(f, i, receiver), sender, receiver,
                      W.Receive(receiver, bag[i], env).link, B.Without(bag, i));
  }

  /** One more piece is received, and the frame handed over if that makes it whole. */
  lemma GotGrows(f: Flow, f': Flow, g: Got)
    requires HandedExactly(f) && f'.sent == f.sent && f'.link == f.link && f'.got == f.got + {g}
    requires g.frame < |f.sent| && g.link == f.link
    requires f'.handed == f.handed + if GotWhole(f', g.frame, g.link) then [g.frame] else []
    ensures HandedExactly(f')
  {
    forall n: nat, e: nat
      ensures GotWhole(f, n, e) ==> GotWhole(f', n, e)
      ensures GotWhole(f', n, e) && (n != g.frame || e != g.link) ==> GotWhole(f, n, e)
    {
      WholeOfOthers(f, f', g, n, e);
    }
    hide GotWhole;
    forall n | n in f'.handed
      ensures exists e: nat :: GotWhole(f', n, e)
    {
      if n in f.handed {
        var e: nat :| GotWhole(f, n, e);
        assert GotWhole(f', n, e);
      } else {
        assert GotWhole(f', g.frame, g.link);
      }
    }
  }

  lemma WholeOfOthers(f: Flow, f': Flow, g: Got, n: nat, e: nat)
    requires f'.sent == f.sent && f'.got == f.got + {g}
    ensures GotWhole(f, n, e) ==> GotWhole(f', n, e)
    ensures GotWhole(f', n, e) && (n != g.frame || e != g.link) ==> GotWhole(f, n, e)
  {
    if GotWhole(f', n, e) && (n != g.frame || e != g.link) {
      forall j: nat | j < PieceTotal(f.sent[n])
        ensures Got(n, j, e) in f.got
      {
        assert Got(n, j, e) in f'.got;
      }
    }
  }

  /** A connected link hands over a frame that arrived alone. */
  lemma AloneHanded(f: Flow, bag: seq<Packet>, n: nat)
    requires Numbered(f) && UnderWay(f, bag) && HandedOnce(f) && HandedExactly(f) && GotFits(f)
    requires n < |f.sent| && |f.sent[n]| <= MAX && n !in f.handed && Alone(n) !in f.tags
    ensures var f' := AloneArrived(f, n, true);
      && Numbered(f') && UnderWay(f', bag) && HandedOnce(f') && HandedExactly(f') && GotFits(f')
      && TraceOf(f') == TraceOf(f)
  {
    hide HandedExactly, GotFits;
    var f' := AloneArrived(f, n, true);
    var g := Got(n, 0, f.link);
    assert TraceOf(f') == TraceOf(f);
    assert n !in f.stream;
    GotGrows(f, f', g);
    GotOutside(f, f', g);
    HandedGrows(f, f', bag, n);
  }

  /** A piece that is not of the stream. */
  lemma GotOutside(f: Flow, f': Flow, g: Got)
    requires GotFits(f) && TraceOf(f') == TraceOf(f) && g.frame !in f.stream
    requires f'.stream == f.stream && f'.link == f.link && f'.got == f.got + {g}
    ensures GotFits(f')
  {
    forall k: nat, j: nat | k < |f.stream|
      ensures Got(f.stream[k], j, f.link) in f'.got <==> Got(f.stream[k], j, f.link) in f.got
    {
      assert f.stream[k] in f.stream;
    }
  }

  /** One more frame is handed over that is neither under way nor handed over. */
  lemma HandedGrows(f: Flow, f': Flow, bag: seq<Packet>, n: nat)
    requires UnderWay(f, bag) && HandedOnce(f)
    requires n < |f.sent| && n !in f.handed && Alone(n) !in f.tags
    requires f' == f.(handed := f.handed + [n], got := f'.got)
    requires forall k :: 0 <= k < |f.stream| && f.stream[k] == n ==> FullyArrived(f.packets, f.arrivals, k)
    ensures UnderWay(f', bag) && HandedOnce(f') && (ArrivedOnce(f) ==> ArrivedOnce(f'))
  {
    forall j | 0 <= j < |f.tags|
      ensures TagFits(f', f.tags[j], bag[j])
    {
      assert f.tags[j] in f.tags && TagFits(f, f.tags[j], bag[j]);
    }
  }

  // ------------------------------------------------------------ a fragment arrives

  /** What the link promises about the arrival of fragment a, seen from the receiver's present link. */
  predicate InOrder(f: Flow, a: Arrival) {
    var trace := TraceOf(f);
    forall s :: 0 <= s < |trace| ==>
      && trace[s].packet < a.packet + 126
      && (a.packet >= trace[s].packet + 254 ==> SomeWhole(f.packets, trace, trace[s].packet + 126))
  }

  predicate SomeWhole(packets: seq<Packet>, trace: Trace, k: int) {
    FullyArrived(packets, trace, k) || FullyArrived(packets, trace, k + 1) || FullyArrived(packets, trace, k + 2)
  }

  lemma ArrivedStays(packets: seq<Packet>, trace: Trace, a: Arrival, k: int)
    requires FullyArrived(packets, trace, k)
    ensures FullyArrived(packets, trace + [a], k)
  {
  }

  lemma AdmissibleExtended(f: Flow, a: Arrival)
    requires Admissible(f.packets, TraceOf(f)) && Exists(f.packets, a) && a !in TraceOf(f) && InOrder(f, a)
    ensures Admissible(f.packets, TraceOf(f) + [a])
  {
    hide Exists, FullyArrived, TraceOf;
    var trace := TraceOf(f);
    var more := trace + [a];
    forall s, t | 0 <= s < t < |more| && more[t].packet >= more[s].packet + 254
      ensures OneOfThree(f.packets, more, more[s].packet + 126)
    {
      var k := more[s].packet + 126;
      assert more[s] == trace[s];
      assert OneOfThree(f.packets, trace, k);
      forall p | k <= p <= k + 2 && FullyArrived(f.packets, trace, p)
        ensures FullyArrived(f.packets, more, p)
      {
        ArrivedStays(f.packets, trace, a, p);
      }
    }
  }

  lemma AllExist(packets: seq<Packet>, trace: Trace, a: Arrival)
    requires Exists(packets, a) && forall i :: 0 <= i < |trace| ==> Exists(packets, trace[i])
    ensures forall i :: 0 <= i < |trace + [a]| ==> Exists(packets, (trace + [a])[i])
  {
    hide Exists;
  }

  lemma AdmissibleExists(packets: seq<Packet>, trace: Trace)
    requires Admissible(packets, trace)
    ensures forall i :: 0 <= i < |trace| ==> Exists(packets, trace[i])
  {
    hide Exists;
  }

  lemma {:induction false} StorePrefix(packets: seq<Packet>, trace: Trace, a: Arrival, t: nat)
    requires t <= |trace| && Exists(packets, a) && forall i :: 0 <= i < |trace| ==> Exists(packets, trace[i])
    ensures StoreAfter(packets, trace + [a], t) == StoreAfter(packets, trace, t)
  {
    hide Accept, Sent, Exists;
    AllExist(packets, trace, a);
    if t > 0 {
      StorePrefix(packets, trace, a, t - 1);
      assert (trace + [a])[t - 1] == trace[t - 1];
    }
  }

  /** What an open link does with a fragment, given what its store does with it. */
  lemma ReceiveByOutcome(l: W.Link, p: Fragment, env: E.Env)
    requires l.Live? && E.WellFormed(W.EndOf(l))
    ensures var a := Accept(l.store, p); var r := W.Receive(l, p, env);
      && (a.outcome == Stored ==> r.Received? && r.link == l.(store := a.store) && r.tun == [])
      && (a.outcome.Delivered? && a.outcome.packet[0] == DATA ==>
            r.Received?
            && (if IsConnected(l) then r.link == l.(store := a.store) && r.tun == [a.outcome.packet]
                else r.link.Down? && r.tun == []))
  {
    var a := Accept(l.store, p);
    if a.outcome.Delivered? && a.outcome.packet[0] == DATA {
      assert Unwrap(a.store, a.outcome.packet) == Unwrapped(a.store, Plain(a.outcome.packet));
    }
  }

  /** What the store does with the next fragment of a stream. */
  lemma AcceptPiece(packets: seq<Packet>, trace: Trace, a: Arrival)
    requires Admissible(packets, trace) && Admissible(packets, trace + [a])
    ensures Exists(packets, a)
    ensures Accept(StoreAfter(packets, trace, |trace|), Sent(packets, a)) ==
      Accepted(StoreAfter(packets, trace + [a], |trace| + 1),
               if FullyArrived(packets, trace + [a], a.packet) then Delivered(packets[a.packet]) else Stored)
  {
    hide Admissible, FullyArrived, Accept, Sent, Exists;
    var more := trace + [a];
    AdmissibleExists(packets, trace);
    AdmissibleExists(packets, more);
    assert more[|trace|] == a && more[..|trace| + 1] == more;
    StreamReassembles(packets, more, |trace|);
    StorePrefix(packets, trace, a, |trace|);
  }

  /** What a link does with it. */
  lemma ReceivePiece(packets: seq<Packet>, trace: Trace, a: Arrival, l: W.Link, env: E.Env)
    requires forall k :: 0 <= k < |packets| ==> packets[k][0] == DATA
    requires Admissible(packets, trace) && Admissible(packets, trace + [a])
    requires l.Live? && E.WellFormed(W.EndOf(l)) && l.store == StoreAfter(packets, trace, |trace|)
    ensures Exists(packets, a)
    ensures var whole := FullyArrived(packets, trace + [a], a.packet);
      var r := W.Receive(l, Sent(packets, a), env);
      && r.Received?
      && (if whole && !IsConnected(l) then r.link.Down? && r.tun == []
          else r.link == l.(store := StoreAfter(packets, trace + [a], |trace| + 1))
               && r.tun == if whole then [packets[a.packet]] else [])
  {
    AcceptPiece(packets, trace, a);
    ReceiveByOutcome(l, Sent(packets, a), env);
  }

  /** One more arrival is counted. */
  lemma PieceCounted(f: Flow, bag: seq<Packet>, a: Arrival)
    requires Numbered(f) && UnderWay(f, bag) && ArrivedOnce(f) && HandedOnce(f)
    requires Exists(f.packets, a) && a !in f.arrivals && Piece(a) !in f.tags
    ensures var f' := f.(arrivals := f.arrivals + [a]);
      && Numbered(f') && UnderWay(f', bag) && ArrivedOnce(f') && HandedOnce(f')
      && TraceOf(f') == TraceOf(f) + [a]
  {
    var f' := f.(arrivals := f.arrivals + [a]);
    forall j | 0 <= j < |f.tags|
      ensures TagFits(f', f.tags[j], bag[j])
    {
      assert f.tags[j] in f.tags;
    }
    forall k | 0 <= k < |f.stream| && f.stream[k] in f.handed
      ensures FullyArrived(f.packets, f'.arrivals, k)
    {
      ArrivedStays(f.packets, f.arrivals, a, k);
    }
  }

  lemma IncompleteBefore(packets: seq<Packet>, trace: Trace, a: Arrival)
    requires Exists(packets, a) && a !in trace
    ensures !FullyArrived(packets, trace, a.packet)
  {
    assert Arrival(a.packet, a.number) == a;
  }

  /** The present link is whole on a frame of the stream when all its fragments have arrived there. */
  lemma WholeWhenArrived(f: Flow, k: nat)
    requires Numbered(f) && GotFits(f) && k < |f.stream|
    ensures GotWhole(f, f.stream[k], f.link) <==> FullyArrived(f.packets, TraceOf(f), k)
  {
    assert |f.packets[k]| > MAX && f.packets[k] == f.sent[f.stream[k]];
    forall j: nat
      ensures Got(f.stream[k], j, f.link) in f.got <==> Arrival(k, j) in TraceOf(f)
    {}
  }

  /** The stream's newest arrival is received. */
  lemma GotPiece(f: Flow, f': Flow, a: Arrival)
    requires Numbered(f) && GotFits(f) && Exists(f.packets, a)
    requires f'.stream == f.stream && f'.link == f.link && TraceOf(f') == TraceOf(f) + [a]
    requires f'.got == f.got + {Got(f.stream[a.packet], a.number, f.link)}
    ensures GotFits(f')
  {
    forall k: nat, j: nat | k < |f.stream|
      ensures Got(f.stream[k], j, f.link) in f'.got <==> Arrival(k, j) in TraceOf(f')
    {
      assert Got(f.stream[k], j, f.link) in f.got <==> Arrival(k, j) in TraceOf(f);
    }
  }

  lemma WholeCounts(f: Flow, a: Arrival)
    requires f.since <= |f.arrivals| && FullyArrived(f.packets, TraceOf(f) + [a], a.packet)
    ensures FullyArrived(f.packets, f.arrivals + [a], a.packet)
  {
    forall b | b in TraceOf(f) + [a]
      ensures b in f.arrivals + [a]
    {}
  }

  /** An arrival at an open link that keeps account: the frame it completes, if any, is handed over. */
  lemma PieceHanded(f: Flow, bag: seq<Packet>, a: Arrival)
    requires RecordFits(f, bag) && GotFits(f)
    requires Exists(f.packets, a) && a !in f.arrivals && Piece(a) !in f.tags
    ensures var f' := PieceArrived(f, a, true, true);
      RecordFits(f', bag) && GotFits(f') && TraceOf(f') == TraceOf(f) + [a]
  {
    hide UnderWay, ArrivedOnce, HandedExactly, GotFits, FullyArrived, GotWhole;
    var f', counted := PieceArrived(f, a, true, true), f.(arrivals := f.arrivals + [a]);
    var n := f.stream[a.packet];
    PieceCounted(f, bag, a);
    IncompleteBefore(f.packets, f.arrivals, a);
    assert n !in f.handed;
    assert TraceOf(f') == TraceOf(f) + [a];
    GotPiece(f, f', a);
    WholeWhenArrived(f', a.packet);
    GotGrows(f, f', Got(n, a.number, f.link));
    if FullyArrived(f.packets, TraceOf(f) + [a], a.packet) {
      WholeCounts(f, a);
      NotAlone(f, bag, n);
      HandedGrows(counted, f', bag, n);
    } else {
      assert f.handed + [] == f.handed;
      GotAside(counted, f', bag);
    }
  }

  /** Frames of the stream are too large to be under way whole. */
  lemma NotAlone(f: Flow, bag: seq<Packet>, n: nat)
    requires UnderWay(f, bag) && n < |f.sent| && |f.sent[n]| > MAX
    ensures Alone(n) !in f.tags
  {
    forall i | 0 <= i < |f.tags|
      ensures f.tags[i] != Alone(n)
    {
      assert TagFits(f, f.tags[i], bag[i]);
    }
  }

  /** What has been received does not matter to the rest of the account. */
  lemma GotAside(f: Flow, f': Flow, bag: seq<Packet>)
    requires f' == f.(got := f'.got)
    ensures UnderWay(f, bag) ==> UnderWay(f', bag)
    ensures ArrivedOnce(f) ==> ArrivedOnce(f')
    ensures HandedOnce(f) ==> HandedOnce(f')
  {
    if UnderWay(f, bag) {
      forall i | 0 <= i < |f.tags|
        ensures TagFits(f', f.tags[i], bag[i])
      {
        assert TagFits(f, f.tags[i], bag[i]);
      }
    }
  }

  /** A fragment meets no connection, or ends the one it meets. */
  lemma PieceIgnored(f: Flow, sender: W.Link, bag: seq<Packet>, a: Arrival)
    requires RecordFits(f, bag) && CounterFits(f, sender)
    requires Exists(f.packets, a) && a !in f.arrivals && Piece(a) !in f.tags
    ensures FlowFits(ReceiverMoved(f.(arrivals := f.arrivals + [a]), W.Down), sender, W.Down, bag)
  {
    hide UnderWay, ArrivedOnce, HandedOnce, GotFits, GotWhole, Admissible, StoreAfter;
    var counted := f.(arrivals := f.arrivals + [a]);
    var f' := ReceiverMoved(counted, W.Down);
    PieceCounted(f, bag, a);
    SameWhole(f, counted);
    assert TraceOf(f') == [];
    NothingYet(f');
    SameAccount(counted, f', bag);
  }

  /** A fragment is kept by an open link, or completes a frame for a connected one. */
  lemma PieceKept(f: Flow, sender: W.Link, after: W.Link, bag: seq<Packet>, a: Arrival, connected: bool)
    requires RecordFits(f, bag) && GotFits(f) && CounterFits(f, sender)
    requires Exists(f.packets, a) && a !in f.arrivals && Piece(a) !in f.tags
    requires Admissible(f.packets, TraceOf(f) + [a])
    requires after.Live? && after.store == StoreAfter(f.packets, TraceOf(f) + [a], |TraceOf(f)| + 1)
    requires connected || !FullyArrived(f.packets, TraceOf(f) + [a], a.packet)
    ensures FlowFits(PieceArrived(f, a, true, connected), sender, after, bag)
  {
    hide Numbered, UnderWay, ArrivedOnce, HandedOnce, HandedExactly, GotFits, FullyArrived, Admissible, StoreAfter;
    PieceHanded(f, bag, a);
    assert PieceArrived(f, a, true, connected) == PieceArrived(f, a, true, true);
  }

  /** A fragment that has just left the bag. */
  ghost predicate PieceTaken(f: Flow, sender: W.Link, receiver: W.Link, bag: seq<Packet>, a: Arrival) {
    && FlowFits(f, sender, receiver, bag) && E.WellFormed(W.EndOf(receiver))
    && Exists(f.packets, a) && a !in f.arrivals && Piece(a) !in f.tags
  }

  ghost predicate PieceAccounted(f: Flow, sender: W.Link, receiver: W.Link, bag: seq<Packet>, a: Arrival, r: W.Received)
    requires a.packet < |f.packets|
  {
    && r.Received?
    && FlowFits(ReceiverMoved(PieceArrived(f, a, receiver.Live?, IsConnected(receiver)), r.link), sender, r.link, bag)
    && r.tun == if IsConnected(receiver) && FullyArrived(f.packets, TraceOf(f) + [a], a.packet)
                then [f.packets[a.packet]] else []
  }

  /** Nothing but a Reset comes back from where there is no connection. */
  lemma ReceiveNowhere(p: Fragment, env: E.Env)
    ensures var r := W.Receive(W.Down, p, env); r.Received? && r.link.Down? && r.tun == []
  {
  }

  lemma PieceAtNoLink(f: Flow, sender: W.Link, receiver: W.Link, bag: seq<Packet>, a: Arrival, env: E.Env)
    requires PieceTaken(f, sender, receiver, bag, a) && receiver.Down?
    ensures PieceAccounted(f, sender, receiver, bag, a, W.Receive(receiver, Sent(f.packets, a), env))
  {
    ReceiveNowhere(Sent(f.packets, a), env);
    PieceIgnored(f, sender, bag, a);
  }

  lemma PieceAtLink(f: Flow, sender: W.Link, receiver: W.Link, bag: seq<Packet>, a: Arrival, env: E.Env)
    requires PieceTaken(f, sender, receiver, bag, a) && receiver.Live? && InOrder(f, a)
    ensures PieceAccounted(f, sender, receiver, bag, a, W.Receive(receiver, Sent(f.packets, a), env))
  {
    var r := W.Receive(receiver, Sent(f.packets, a), env);
    StreamIsData(f);
    AdmissibleExtended(f, a);
    ReceivePiece(f.packets, TraceOf(f), a, receiver, env);
    if r.link.Down? {
      PieceIgnored(f, sender, bag, a);
    } else {
      PieceKept(f, sender, r.link, bag, a, IsConnected(receiver));
    }
  }

  lemma StreamIsData(f: Flow)
    requires Numbered(f)
    ensures forall k :: 0 <= k < |f.packets| ==> f.packets[k][0] == DATA
  {
  }

  /** Taking a fragment out of the bag. */
  lemma TakePiece(f: Flow, sender: W.Link, receiver: W.Link, bag: seq<Packet>, i: nat)
    requires FlowFits(f, sender, receiver, bag) && i < |f.tags| && f.tags[i].Piece?
    requires E.WellFormed(W.EndOf(receiver))
    ensures i < |bag| && f.tags[i].a.packet < |f.packets|
    ensures PieceTaken(Dropped(f, i), sender, receiver, B.Without(bag, i), f.tags[i].a)
    ensures bag[i] == Sent(f.packets, f.tags[i].a)
    ensures InOrder(f, f.tags[i].a) ==> InOrder(Dropped(f, i), f.tags[i].a)
  {
    hide Numbered, ArrivedOnce, HandedOnce, HandedExactly, GotFits, CounterFits, StoreFits;
    LostFits(f, sender, receiver, bag, i);
    DroppedFits(f, bag, i);
    assert TagFits(f, f.tags[i], bag[i]);
    assert TraceOf(Dropped(f, i)) == TraceOf(f);
  }

  /** A fragment arrives: never a corrupt set, and handed over is exactly the frame it completes. */
  lemma PieceArrives(f: Flow, sender: W.Link, receiver: W.Link, bag: seq<Packet>, i: nat, env: E.Env)
    requires FlowFits(f, sender, receiver, bag) && i < |f.tags| && f.tags[i].Piece?
    requires E.WellFormed(W.EndOf(receiver)) && (receiver.Live? ==> InOrder(f, f.tags[i].a))
    ensures f.tags[i].a.packet < |f.packets|
    ensures PieceAccounted(Dropped(f, i), sender, receiver, B.Without(bag, i), f.tags[i].a,
                           W.Receive(receiver, bag[i], env))
  {
    hide PieceTaken, PieceAccounted, FlowFits;
    TakePiece(f, sender, receiver, bag, i);
    if receiver.Down? {
      PieceAtNoLink(Dropped(f, i), sender, receiver, B.Without(bag, i), f.tags[i].a, env);
    } else {
      PieceAtLink(Dropped(f, i), sender, receiver, B.Without(bag, i), f.tags[i].a, env);
    }
  }

  // ------------------------------------------------------------ a frame is forwarded

  /** The packets that go out are what their tags say. */
  lemma PiecesFit(packets: seq<Packet>, k: nat, index: byte)
    requires k < |packets| && FragmentCount(packets[k]) <= 255 && index == k % 256
    ensures var tags := Pieces(k, FragmentCount(packets[k])); var wire := Reversed(Split(packets[k], index));
      |tags| == |wire| && forall i :: 0 <= i < |tags| ==>
        tags[i].Piece? && Exists(packets, tags[i].a) && tags[i].a.packet == k && wire[i] == Sent(packets, tags[i].a)
    ensures var tags := Pieces(k, FragmentCount(packets[k]));
      forall i, j :: 0 <= i < j < |tags| ==> tags[i] != tags[j]
  {
  }

  /** Packets appended to the bag, with tags that fit and are new. */
  lemma BagGrows(f: Flow, bag: seq<Packet>, tags: seq<Tag>, wire: seq<Packet>, n: nat)
    requires UnderWay(f, bag) && |tags| == |wire|
    requires forall i :: 0 <= i < |tags| ==> TagFits(f, tags[i], wire[i]) && tags[i] !in f.tags
    requires forall i, j :: 0 <= i < j < |tags| ==> tags[i] != tags[j]
    ensures UnderWay(f.(tags := f.tags + FirstOf(tags, n)), bag + W.Taken(wire, n))
  {
    var f' := f.(tags := f.tags + FirstOf(tags, n));
    forall i | 0 <= i < |f'.tags|
      ensures TagFits(f', f'.tags[i], (bag + W.Taken(wire, n))[i])
    {
      if i >= |f.tags| { assert TagFits(f, tags[i - |f.tags|], wire[i - |f.tags|]); }
    }
  }

  lemma SentGrows(f: Flow, sender: W.Link, receiver: W.Link, bag: seq<Packet>, p: Packet)
    requires FlowFits(f, sender, receiver, bag) && p[0] == DATA && FragmentCount(p) <= 255
    ensures FlowFits(f.(sent := f.sent + [p]), sender, receiver, bag)
    ensures Alone(|f.sent|) !in f.tags && |f.sent| !in f.handed && |f.sent| !in f.stream
  {
    hide Numbered, UnderWay, HandedOnce, HandedExactly, GotFits, Admissible, StoreAfter, FullyArrived;
    var f' := f.(sent := f.sent + [p]);
    assert TraceOf(f') == TraceOf(f);
    SentBag(f, bag, p);
    SentNumbers(f, p);
    SameGot(f, f');
    NewFrameHanded(f, p);
  }

  lemma SentBag(f: Flow, bag: seq<Packet>, p: Packet)
    requires UnderWay(f, bag)
    ensures UnderWay(f.(sent := f.sent + [p]), bag) && Alone(|f.sent|) !in f.tags
  {
    var f' := f.(sent := f.sent + [p]);
    forall i | 0 <= i < |f.tags|
      ensures TagFits(f', f.tags[i], bag[i]) && f.tags[i] != Alone(|f.sent|)
    {
      assert TagFits(f, f.tags[i], bag[i]);
    }
  }

  lemma SentNumbers(f: Flow, p: Packet)
    requires Numbered(f) && HandedOnce(f) && p[0] == DATA && FragmentCount(p) <= 255
    ensures var f' := f.(sent := f.sent + [p]); Numbered(f') && HandedOnce(f')
    ensures |f.sent| !in f.handed && |f.sent| !in f.stream
  {
    hide FullyArrived;
  }

  /** Of a frame that has just been forwarded nothing has been received. */
  lemma NewFrameHanded(f: Flow, p: Packet)
    requires HandedExactly(f)
    ensures HandedExactly(f.(sent := f.sent + [p]))
  {
    var f' := f.(sent := f.sent + [p]);
    forall n: nat, e: nat
      ensures GotWhole(f', n, e) <==> GotWhole(f, n, e)
    {
      NewFrameNotWhole(f, p, n, e);
    }
  }

  lemma NewFrameNotWhole(f: Flow, p: Packet, n: nat, e: nat)
    requires forall g <- f.got :: g.frame < |f.sent|
    ensures GotWhole(f.(sent := f.sent + [p]), n, e) <==> GotWhole(f, n, e)
  {
    if n == |f.sent| {
      HeadOfSplit(p, 0);
      assert PieceTotal(p) > 0;
      assert Got(n, 0, e) !in f.got;
    }
  }

  lemma SentOfMore(packets: seq<Packet>, more: seq<Packet>, a: Arrival)
    requires packets <= more && Exists(packets, a)
    ensures Exists(more, a) && Sent(more, a) == Sent(packets, a)
  {
  }

  lemma {:induction false} StoreOfMore(packets: seq<Packet>, more: seq<Packet>, trace: Trace, t: nat)
    requires packets <= more && t <= |trace| && forall i :: 0 <= i < |trace| ==> Exists(packets, trace[i])
    ensures forall i :: 0 <= i < |trace| ==> Exists(more, trace[i])
    ensures StoreAfter(more, trace, t) == StoreAfter(packets, trace, t)
  {
    hide Accept, Exists, Sent;
    forall i | 0 <= i < |trace|
      ensures Exists(more, trace[i]) && Sent(more, trace[i]) == Sent(packets, trace[i])
    {
      SentOfMore(packets, more, trace[i]);
    }
    if t > 0 { StoreOfMore(packets, more, trace, t - 1); }
  }

  lemma ArrivedOfMore(packets: seq<Packet>, p: Packet, trace: Trace, k: int)
    requires forall i :: 0 <= i < |trace| ==> Exists(packets, trace[i])
    ensures FullyArrived(packets + [p], trace, k) <==> FullyArrived(packets, trace, k)
  {
    if k == |packets| {
      HeadOfSplit(p, 0);
      assert Arrival(k, 0) !in trace;
    }
  }

  lemma AdmissibleOfMore(packets: seq<Packet>, p: Packet, trace: Trace)
    requires Admissible(packets, trace)
    ensures Admissible(packets + [p], trace)
  {
    forall k
      ensures FullyArrived(packets + [p], trace, k) <==> FullyArrived(packets, trace, k)
    {
      ArrivedOfMore(packets, p, trace, k);
    }
    forall s, t | 0 <= s < t < |trace| && trace[t].packet >= trace[s].packet + 254
      ensures OneOfThree(packets + [p], trace, trace[s].packet + 126)
    {
      assert OneOfThree(packets, trace, trace[s].packet + 126);
    }
  }

  /** The running stream gets one more frame, the newest of all. */
  lemma StreamGrows(f: Flow, sender: W.Link, next: byte, receiver: W.Link, bag: seq<Packet>, n: nat)
    requires FlowFits(f, sender, receiver, bag) && sender.Live? && f.current
    requires next == if sender.next == 255 then 0 else sender.next + 1
    requires n < |f.sent| && |f.sent[n]| > MAX && n !in f.stream && n !in f.handed
    requires forall g <- f.got :: g.frame != n
    ensures FlowFits(f.(stream := f.stream + [n], packets := f.packets + [f.sent[n]]), sender.(next := next),
                     receiver, bag)
  {
    hide Numbered, UnderWay, ArrivedOnce, HandedOnce, GotFits, StoreFits, GotWhole;
    var f' := f.(stream := f.stream + [n], packets := f.packets + [f.sent[n]]);
    StreamAccounts(f, n);
    StreamBag(f, bag, n);
    StreamStore(f, receiver, n);
    SameWhole(f, f');
  }

  lemma StreamBag(f: Flow, bag: seq<Packet>, n: nat)
    requires UnderWay(f, bag) && n < |f.sent|
    ensures UnderWay(f.(stream := f.stream + [n], packets := f.packets + [f.sent[n]]), bag)
  {
    var f' := f.(stream := f.stream + [n], packets := f.packets + [f.sent[n]]);
    forall i | 0 <= i < |f.tags|
      ensures TagFits(f', f.tags[i], bag[i])
    {
      assert TagFits(f, f.tags[i], bag[i]);
    }
  }

  lemma StreamStore(f: Flow, receiver: W.Link, n: nat)
    requires StoreFits(f, receiver) && n < |f.sent|
    ensures StoreFits(f.(stream := f.stream + [n], packets := f.packets + [f.sent[n]]), receiver)
  {
    hide Admissible, StoreAfter, Exists;
    var f' := f.(stream := f.stream + [n], packets := f.packets + [f.sent[n]]);
    assert TraceOf(f') == TraceOf(f);
    if receiver.Live? {
      AdmissibleExists(f.packets, TraceOf(f));
      AdmissibleOfMore(f.packets, f.sent[n], TraceOf(f));
      StoreOfMore(f.packets, f'.packets, TraceOf(f), |TraceOf(f)|);
    }
  }

  lemma StreamAccounts(f: Flow, n: nat)
    requires Numbered(f) && ArrivedOnce(f) && HandedOnce(f) && GotFits(f)
    requires n < |f.sent| && |f.sent[n]| > MAX && n !in f.stream && n !in f.handed
    requires forall g <- f.got :: g.frame != n
    ensures var f' := f.(stream := f.stream + [n], packets := f.packets + [f.sent[n]]);
      Numbered(f') && ArrivedOnce(f') && HandedOnce(f') && GotFits(f')
  {
    var p := f.sent[n];
    var f' := f.(stream := f.stream + [n], packets := f.packets + [p]);
    forall k | 0 <= k < |f'.stream|
      ensures FullyArrived(f'.packets, f.arrivals, k) <==> FullyArrived(f.packets, f.arrivals, k)
    {
      ArrivedOfMore(f.packets, p, f.arrivals, k);
    }
    GotOfMore(f, f', n);
  }

  lemma GotOfMore(f: Flow, f': Flow, n: nat)
    requires |f.packets| == |f.stream| && f.since <= |f.arrivals| && ArrivedOnce(f) && GotFits(f)
    requires forall g <- f.got :: g.frame != n
    requires f' == f.(stream := f.stream + [n], packets := f'.packets)
    ensures GotFits(f')
  {
    hide Exists;
    assert TraceOf(f') == TraceOf(f);
    forall j: nat
      ensures Arrival(|f.stream|, j) !in TraceOf(f) && Got(n, j, f.link) !in f.got
    {
      NewestNotArrived(f, j);
    }
  }

  lemma NewestNotArrived(f: Flow, j: nat)
    requires |f.packets| == |f.stream| && f.since <= |f.arrivals| && ArrivedOnce(f)
    ensures Arrival(|f.stream|, j) !in TraceOf(f)
  {
  }

  /** Nothing of an earlier stream is under way or kept at the other end. */
  predicate NothingLeft(f: Flow, receiver: W.Link) {
    && (forall i :: 0 <= i < |f.tags| ==> f.tags[i].Alone?)
    && (receiver.Live? ==> receiver.store == map[])
  }

  /** A new link of the sender starts a stream. */
  lemma StreamStarts(f: Flow, sender: W.Link, receiver: W.Link, bag: seq<Packet>, n: nat)
    requires FlowFits(f, sender, receiver, bag) && sender.Live? && !f.current && NothingLeft(f, receiver)
    requires n < |f.sent| && |f.sent[n]| > MAX && n !in f.handed
    requires forall g <- f.got :: g.frame != n
    ensures FlowFits(f.(stream := [n], packets := [f.sent[n]], current := true, arrivals := [], since := 0),
                     sender.(next := 1), receiver, bag)
  {
    hide Numbered, UnderWay, HandedOnce, GotFits, StoreFits, GotWhole;
    var f' := f.(stream := [n], packets := [f.sent[n]], current := true, arrivals := [], since := 0);
    assert TraceOf(f') == [];
    OnlyWholeFrames(f, f', bag);
    FirstOfStream(f, f', n);
    EmptyStoreFits(f', receiver);
    SameWhole(f, f');
  }

  /** Whole frames under way have nothing to do with the stream. */
  lemma OnlyWholeFrames(f: Flow, f': Flow, bag: seq<Packet>)
    requires UnderWay(f, bag) && forall i :: 0 <= i < |f.tags| ==> f.tags[i].Alone?
    requires f'.sent == f.sent && f'.tags == f.tags && f'.handed == f.handed
    ensures UnderWay(f', bag)
  {
    forall i | 0 <= i < |f.tags|
      ensures TagFits(f', f.tags[i], bag[i])
    {
      assert TagFits(f, f.tags[i], bag[i]);
    }
  }

  lemma FirstOfStream(f: Flow, f': Flow, n: nat)
    requires Numbered(f) && HandedOnce(f) && n < |f.sent| && |f.sent[n]| > MAX && n !in f.handed
    requires forall g <- f.got :: g.frame != n
    requires f' == f.(stream := [n], packets := [f.sent[n]], current := true, arrivals := [], since := 0)
    ensures Numbered(f') && HandedOnce(f') && GotFits(f')
  {
    assert TraceOf(f') == [];
  }

  lemma EmptyStoreFits(f: Flow, receiver: W.Link)
    requires TraceOf(f) == [] && (receiver.Live? ==> receiver.store == map[])
    ensures StoreFits(f, receiver)
  {
  }

  lemma NewestPiecesFit(f: Flow, bag: seq<Packet>, index: byte, taken: nat)
    requires Numbered(f) && UnderWay(f, bag) && ArrivedOnce(f) && |f.stream| > 0 && index == (|f.stream| - 1) % 256
    requires forall i :: 0 <= i < |f.tags| && f.tags[i].Piece? ==> f.tags[i].a.packet < |f.stream| - 1
    requires forall t :: 0 <= t < |f.arrivals| ==> f.arrivals[t].packet < |f.stream| - 1
    ensures var k := |f.stream| - 1; var p := f.packets[k];
      UnderWay(f.(tags := f.tags + FirstOf(Pieces(k, FragmentCount(p)), taken)),
               bag + W.Taken(Reversed(Split(p, index)), taken))
  {
    var k := |f.stream| - 1;
    var p := f.packets[k];
    assert p == f.sent[f.stream[k]];
    PiecesFit(f.packets, k, index);
    BagGrows(f, bag, Pieces(k, FragmentCount(p)), Reversed(Split(p, index)), taken);
  }

  lemma ForwardsAlone(f: Flow, sender: W.Link, receiver: W.Link, bag: seq<Packet>, p: Packet, taken: nat)
    requires FlowFits(f, sender, receiver, bag) && p[0] == DATA && FragmentCount(p) <= 255 && |p| <= MAX
    ensures FlowFits(Forwarded(f, p, taken), sender, receiver, bag + W.Taken([p], taken))
  {
    hide Numbered, HandedExactly, GotFits, StoreFits, ArrivedOnce;
    var g := f.(sent := f.sent + [p]);
    SentGrows(f, sender, receiver, bag, p);
    BagGrows(g, bag, [Alone(|f.sent|)], [p], taken);
    BagReplaced(g, sender, receiver, bag, f.tags + FirstOf([Alone(|f.sent|)], taken), bag + W.Taken([p], taken));
  }

  /** Everything under way and arrived is of the frames that the stream has so far. */
  lemma StreamBounds(f: Flow, sender: W.Link, receiver: W.Link, bag: seq<Packet>)
    requires FlowFits(f, sender, receiver, bag)
    ensures forall i :: 0 <= i < |f.tags| && f.tags[i].Piece? ==> f.tags[i].a.packet < |f.stream|
    ensures forall t :: 0 <= t < |f.arrivals| ==> f.arrivals[t].packet < |f.stream|
  {
    forall i | 0 <= i < |f.tags| && f.tags[i].Piece?
      ensures f.tags[i].a.packet < |f.stream|
    {
      assert TagFits(f, f.tags[i], bag[i]);
    }
  }

  /** The fragments of the newest frame of the stream go out. */
  lemma NewestGoesOut(f: Flow, sender: W.Link, receiver: W.Link, bag: seq<Packet>, index: byte, taken: nat)
    requires FlowFits(f, sender, receiver, bag) && |f.stream| > 0 && |f.packets| == |f.stream|
    requires index == (|f.stream| - 1) % 256
    requires forall i :: 0 <= i < |f.tags| && f.tags[i].Piece? ==> f.tags[i].a.packet < |f.stream| - 1
    requires forall t :: 0 <= t < |f.arrivals| ==> f.arrivals[t].packet < |f.stream| - 1
    ensures var k := |f.stream| - 1; var p := f.packets[k];
      FlowFits(f.(tags := f.tags + FirstOf(Pieces(k, FragmentCount(p)), taken)), sender, receiver,
               bag + W.Taken(Reversed(Split(p, index)), taken))
  {
    hide Numbered, UnderWay, HandedOnce, HandedExactly, GotFits, CounterFits, StoreFits, ArrivedOnce;
    var k := |f.stream| - 1;
    NewestPiecesFit(f, bag, index, taken);
    BagReplaced(f, sender, receiver, bag, f.tags + FirstOf(Pieces(k, FragmentCount(f.packets[k])), taken),
                bag + W.Taken(Reversed(Split(f.packets[k], index)), taken));
  }

  lemma ForwardsOn(f: Flow, sender: W.Link, next: byte, receiver: W.Link, bag: seq<Packet>, p: Packet, taken: nat)
    requires FlowFits(f, sender, receiver, bag) && p[0] == DATA && FragmentCount(p) <= 255 && |p| > MAX
    requires sender.Live? && next == (if sender.next == 255 then 0 else sender.next + 1) && f.current
    ensures FlowFits(Forwarded(f, p, taken), sender.(next := next), receiver,
                     bag + W.Taken(Reversed(Split(p, sender.next)), taken))
  {
    hide UnderWay, HandedOnce, GotFits, GotWhole, StoreFits, ArrivedOnce;
    var n, g := |f.sent|, f.(sent := f.sent + [p]);
    var h := g.(stream := f.stream + [n], packets := f.packets + [p]);
    SentGrows(f, sender, receiver, bag, p);
    StreamBounds(f, sender, receiver, bag);
    StreamGrows(g, sender, next, receiver, bag, n);
    NewestGoesOut(h, sender.(next := next), receiver, bag, sender.next, taken);
  }

  lemma ForwardsFirst(f: Flow, sender: W.Link, receiver: W.Link, bag: seq<Packet>, p: Packet, taken: nat)
    requires FlowFits(f, sender, receiver, bag) && p[0] == DATA && FragmentCount(p) <= 255 && |p| > MAX
    requires sender.Live? && !f.current && NothingLeft(f, receiver)
    ensures sender.next == 0
    ensures FlowFits(Forwarded(f, p, taken), sender.(next := 1), receiver,
                     bag + W.Taken(Reversed(Split(p, 0)), taken))
  {
    hide UnderWay, HandedOnce, GotFits, GotWhole, StoreFits, ArrivedOnce;
    var n, g := |f.sent|, f.(sent := f.sent + [p]);
    var h := g.(stream := [n], packets := [p], current := true, arrivals := [], since := 0);
    SentGrows(f, sender, receiver, bag, p);
    StreamStarts(g, sender, receiver, bag, n);
    NewestGoesOut(h, sender.(next := 1), receiver, bag, 0, taken);
  }

  /** A connected end forwards a frame: the account goes on, if a link that starts to send fragments finds
      none of an earlier link left. */
  lemma ForwardFits(f: Flow, sender: W.Link, receiver: W.Link, bag: seq<Packet>, frame: seq<byte>, taken: nat)
    requires FlowFits(f, sender, receiver, bag) && IsConnected(sender) && FragmentCount([DATA] + frame) <= 255
    requires |[DATA] + frame| > MAX && !f.current ==> NothingLeft(f, receiver)
    ensures var r := W.SendFrame(sender, frame, taken);
      r.Received? && FlowFits(Forwarded(f, [DATA] + frame, taken), r.link, receiver, bag + r.wire)
  {
    hide FlowFits;
    var p: Packet := [DATA] + frame;
    if |p| <= MAX {
      ForwardsAlone(f, sender, receiver, bag, p, taken);
    } else if f.current {
      ForwardsOn(f, sender, if sender.next == 255 then 0 else sender.next + 1, receiver, bag, p, taken);
    } else {
      ForwardsFirst(f, sender, receiver, bag, p, taken);
    }
  }
}
