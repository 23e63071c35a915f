/**
 Control packets as bytes, and one end of a connection at the level of bytes: the state machine together
 with the fragment store and the 8-bit set index counter.
*/
module Wire {
  import opened Packets
  import opened Fragmentation
  import opened Reassembly
  import opened Endpoint

  // ------------------------------------------------------------ control packets

  /** Data::fromPacketId and Data::fromIpPostfix. */
  function Encode(m: Msg): (p: Packet)
    ensures |p| <= MAX && 160 <= p[0] <= 191
  {
    match m
    case Request => [CONNECTION_REQUEST]
    case Accept => [CONNECTION_ACCEPT]
    case Reject => [CONNECTION_REJECT]
    case Close => [CONNECTION_CLOSE]
    case Reset => [CONNECTION_RESET]
    case IpProposal(subnet, postfix) => [IP_PROPOSAL, subnet, postfix]
    case IpAccept => [IP_ACCEPT]
    case IpReject => [IP_REJECT]
  }

  /** The dispatch on the header byte; proposals are checked for their size when they are read. */
  function Classify(p: Packet): Input {
    if p[0] == CONNECTION_REQUEST then Control(Request)
    else if p[0] == CONNECTION_ACCEPT then Control(Msg.Accept)
    else if p[0] == CONNECTION_REJECT then Control(Reject)
    else if p[0] == CONNECTION_CLOSE then Control(Close)
    else if p[0] == CONNECTION_RESET then Control(Reset)
    else if p[0] == IP_PROPOSAL then
      if |p| == 3 then Control(IpProposal(p[1], p[2])) else BadProposal
    else if p[0] == IP_ACCEPT then Control(IpAccept)
    else if p[0] == IP_REJECT then Control(IpReject)
    else if p[0] == DATA then Input.Payload
    else Noise
  }

  lemma ControlRoundTrip(m: Msg)
    ensures Classify(Encode(m)) == Control(m)
  {
  }

  function EncodeAll(ms: seq<Msg>): (ps: seq<Packet>)
    ensures |ps| == |ms|
  {
    seq(|ms|, i requires 0 <= i < |ms| => Encode(ms[i]))
  }

  // ------------------------------------------------------------------- a link

  /** The connection object a core holds for one friend, if any. */
  datatype Link = Down | Live(s: Session, next: byte, store: Store)

  function EndOf(l: Link): End { if l.Down? then Idle else Up(l.s) }

  /** The link after its state machine moved to `e`: a new connection starts with an empty store
      and index 0, a deleted one takes both with it. */
  function Moved(l: Link, e: End): Link {
    match e
    case Idle => Down
    case Up(s) => if l.Live? then l.(s := s) else Live(s, 0, map[])
  }

  datatype Received =
    | Received(link: Link, wire: seq<Packet>, events: seq<Event>, tun: seq<Packet>)
    | Crashed

  function Done(l: Link, r: Reaction, tun: seq<Packet>): Received {
    Received(Moved(l, r.end), EncodeAll(r.out), r.events, tun)
  }

  /** A packet that is no fragment, or has come out of its fragments. */
  function Handle(l: Link, p: Packet, env: Env): Received
    requires WellFormed(EndOf(l))
  {
    var tun := if IsUp(EndOf(l), Connected) && p[0] == DATA then [p] else [];
    Done(l, React(EndOf(l), Classify(p), env), tun)
  }

  /** A packet arrives from the friend. A corrupt fragment set ends the program: joining throws out
      of a noexcept function. */
  function Receive(l: Link, p: Packet, env: Env): Received
    requires WellFormed(EndOf(l))
  {
    if l.Down? then Handle(l, p, env)
    else
      var u := Unwrap(l.store, p);
      match u.content
      case Crash => Crashed
      case Held => Received(l.(store := u.store), [], [], [])
      case Plain(q) => Handle(l.(store := u.store), q, env)
  }

  lemma ReceiveKeepsShape(l: Link, p: Packet, env: Env)
    requires WellFormed(EndOf(l))
    ensures Receive(l, p, env).Received? ==> WellFormed(EndOf(Receive(l, p, env).link))
  {
    ReactKeepsShape(EndOf(l), Classify(p), env);
    if l.Live? {
      var u := Unwrap(l.store, p);
      if u.content.Plain? { ReactKeepsShape(EndOf(l), Classify(u.content.packet), env); }
    }
  }

  function CallOn(l: Link, call: Call, env: Env): Received
    requires WellFormed(EndOf(l))
  {
    Done(l, UserCall(EndOf(l), call, env), [])
  }

  datatype Outgoing = Outgoing(list: seq<Packet>, next: byte)

  /** What sendToTox hands to tox: the packet itself, or its fragments, last piece first, under the
      next set index, which wraps from 255 to 0. */
  function ToSend(p: Packet, next: byte): Outgoing {
    if |p| <= MAX then Outgoing([p], next)
    else Outgoing(Reversed(Split(p, next)), if next == 255 then 0 else next + 1)
  }

  function Taken(list: seq<Packet>, n: nat): seq<Packet> {
    list[..if n < |list| then n else |list|]
  }

  /** One frame read from the tun device of a connected link; tox takes the first n packets. */
  function SendFrame(l: Link, frame: seq<byte>, n: nat): Received {
    if IsUp(EndOf(l), Connected) then
      var o := ToSend([DATA] + frame, l.next);
      Received(l.(next := o.next), Taken(o.list, n), [], [])
    else Received(l, [], [], [])
  }

  /** Whatever is handed to the outside is tagged with the friend it belongs to. */
  function Tagged<T>(friend: nat, items: seq<T>): seq<(nat, T)> {
    seq(|items|, i requires 0 <= i < |items| => (friend, items[i]))
  }
}
