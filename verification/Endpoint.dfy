/**
 One end of a connection as a state machine: what every packet, every user call and the destructor
 do to the state, which control packets they send and which events they report
 (src/Connection.cpp, src/ToxTunCore.cpp).
*/
module Endpoint {
  import opened Packets
  import opened Tun

  datatype Phase =
    | OwnRequestPending
    | FriendsRequestPending
    | ExpectingIpPacket
    | ExpectingIpConfirmation
    | Connected
    | Deleting

  datatype Address = Address(subnet: byte, postfix: byte)

  datatype Msg =
    | Request
    | Accept
    | Reject
    | Close
    | Reset
    | IpProposal(subnet: byte, postfix: byte)
    | IpAccept
    | IpReject

  datatype Event = ConnectionRequested | ConnectionAccepted | ConnectionRejected | ConnectionClosed

  /** `initiator` and `ip` record the role and the address given to the tun device. */
  datatype Session = Session(phase: Phase, initiator: bool, subnet: int, ip: Option<Address>)

  /** Idle: the core holds no connection for the friend. */
  datatype End = Idle | Up(s: Session)

  /** What arrives: a control packet, an address proposal of the wrong size, payload for the tun
      device, or something that changes nothing at an open connection (a fragment that is kept, a
      packet with an unknown header). */
  datatype Input = Control(m: Msg) | BadProposal | Payload | Noise

  /** What the surroundings do during one step: which subnets the local check lets pass, whether
      sending the reply succeeds, whether sending a goodbye (Reset, Reject, Close) succeeds, and
      whether a tun device can be opened. */
  datatype Env = Env(free: set<byte>, sendOk: bool, goodbyeOk: bool, tunOk: bool)

  datatype Reaction = Reaction(end: End, out: seq<Msg>, events: seq<Event>)

  datatype Call = RequestConnection | AcceptConnection | RejectConnection | CloseConnection

  predicate IsUp(e: End, phase: Phase) { e.Up? && e.s.phase == phase }

  function NewSession(initiator: bool): Session {
    Session(if initiator then OwnRequestPending else FriendsRequestPending, initiator, -1, None)
  }

  function Say(m: Msg, ok: bool): seq<Msg> { if ok then [m] else [] }

  function ResetAndDelete(env: Env): Reaction {
    Reaction(Idle, Say(Reset, env.goodbyeOk), [ConnectionClosed])
  }

  /** The destructor: the goodbye depends on the state. */
  function Goodbye(s: Session, env: Env): Reaction {
    match s.phase
    case FriendsRequestPending => Reaction(Idle, Say(Reject, env.goodbyeOk), [])
    case Connected => Reaction(Idle, Say(Close, env.goodbyeOk), [])
    case Deleting => Reaction(Idle, [], [])
    case _ => ResetAndDelete(env)
  }

  /** The least subnet above `after` that the check lets pass; 256 when there is none. */
  function NextFree(after: int, free: set<byte>): (n: int)
    requires -1 <= after <= 255
    ensures after < n <= 256
    ensures n < 256 ==> n in free
    ensures forall b :: after < b < n ==> b !in free
    decreases 255 - after
  {
    if after == 255 then 256
    else if after + 1 in free then after + 1
    else NextFree(after + 1, free)
  }

  /** Propose the next subnet, or give up when none is left. */
  function SendIp(s: Session, env: Env): Reaction
    requires -1 <= s.subnet <= 255
  {
    var next := NextFree(s.subnet, env.free);
    if next == 256 || !env.sendOk then ResetAndDelete(env)
    else Reaction(Up(s.(phase := ExpectingIpConfirmation, subnet := next)), [IpProposal(next, 2)], [])
  }

  function SetIp(s: Session, a: Address, out: seq<Msg>): Reaction {
    Reaction(Up(s.(phase := Connected, ip := Some(a))), out, [ConnectionAccepted])
  }

  /** What the user is shown for a friend. */
  datatype ConnectionState = ShownConnected | RingingAtFriend | FriendIsRinging | Disconnected

  function Shown(e: End): ConnectionState {
    if e.Idle? then Disconnected
    else match e.s.phase
      case Connected => ShownConnected
      case Deleting => Disconnected
      case FriendsRequestPending => FriendIsRinging
      case ExpectingIpPacket => FriendIsRinging
      case OwnRequestPending => RingingAtFriend
      case ExpectingIpConfirmation => RingingAtFriend
  }

  /** What holds of the fields of a session in each state. */
  predicate WellFormed(e: End) {
    e.Up? ==>
      && e.s.phase != Deleting
      && (if e.s.initiator then
            && (e.s.phase == OwnRequestPending ==> e.s.subnet == -1)
            && (e.s.phase == ExpectingIpConfirmation ==> 0 <= e.s.subnet <= 255)
            && (e.s.phase == Connected ==> 0 <= e.s.subnet <= 255 && e.s.ip == Some(Address(e.s.subnet, 1)))
            && e.s.phase != FriendsRequestPending && e.s.phase != ExpectingIpPacket
          else
            && e.s.subnet == -1
            && (e.s.phase == Connected ==> e.s.ip.Some?)
            && e.s.phase != OwnRequestPending && e.s.phase != ExpectingIpConfirmation)
      && (e.s.phase != Connected ==> e.s.ip == None)
  }

  /** A packet for a friend without a connection. */
  function Stranger(input: Input, env: Env): Reaction {
    match input
    case Control(Request) =>
      if env.tunOk then Reaction(Up(NewSession(false)), [], [ConnectionRequested])
      else Reaction(Idle, Say(Reset, env.goodbyeOk), [])
    case Control(Reset) => Reaction(Idle, [], [])
    case _ => Reaction(Idle, Say(Reset, env.goodbyeOk), [])
  }

  function HandleControl(s: Session, m: Msg, env: Env): Reaction
    requires WellFormed(Up(s))
  {
    match m
    case Request => Reaction(Up(s), [], [])
    case Accept =>
      if s.phase == OwnRequestPending then SendIp(s, env) else ResetAndDelete(env)
    case Reject =>
      if s.phase == OwnRequestPending then Reaction(Idle, [], [ConnectionRejected]) else ResetAndDelete(env)
    case Close =>
      if s.phase == Connected then Reaction(Idle, [], [ConnectionClosed]) else ResetAndDelete(env)
    case Reset => Reaction(Idle, [], [ConnectionClosed])
    case IpProposal(subnet, postfix) =>
      if s.phase != ExpectingIpPacket || !env.sendOk then ResetAndDelete(env)
      else if subnet in env.free then SetIp(s, Address(subnet, postfix), [IpAccept])
      else Reaction(Up(s), [IpReject], [])
    case IpAccept =>
      if s.phase == ExpectingIpConfirmation then SetIp(s, Address(s.subnet % 256, 1), [])
      else ResetAndDelete(env)
    case IpReject =>
      if s.phase == ExpectingIpConfirmation then SendIp(s, env) else ResetAndDelete(env)
  }

  /** Reaction of either end to anything that arrives. */
  function React(e: End, input: Input, env: Env): Reaction
    requires WellFormed(e)
  {
    if e.Idle? then Stranger(input, env)
    else match input
      case Control(m) => HandleControl(e.s, m, env)
      case BadProposal =>
        if e.s.phase == ExpectingIpPacket then Reaction(e, [], []) else ResetAndDelete(env)
      case Payload =>
        if e.s.phase == Connected then Reaction(e, [], []) else ResetAndDelete(env)
      case Noise => Reaction(e, [], [])
  }

  /** A call of the user. Accepting in the wrong state throws and destroys the connection. */
  function UserCall(e: End, call: Call, env: Env): Reaction {
    match call
    case RequestConnection =>
      if e.Idle? && env.tunOk && env.sendOk then Reaction(Up(NewSession(true)), [Request], [])
      else Reaction(e, [], [])
    case AcceptConnection =>
      if e.Idle? then Reaction(e, [], [])
      else if e.s.phase != FriendsRequestPending then Goodbye(e.s, env)
      else if env.sendOk then Reaction(Up(e.s.(phase := ExpectingIpPacket)), [Accept], [])
      else ResetAndDelete(env)
    case RejectConnection => if e.Idle? then Reaction(e, [], []) else Goodbye(e.s, env)
    case CloseConnection => if e.Idle? then Reaction(e, [], []) else Goodbye(e.s, env)
  }

  /** On every path a session keeps its shape; so the subnet stays within -1..255 in the state,
      and narrowing it to a byte in the proposal and in the own address loses nothing. */
  lemma ReactKeepsShape(e: End, input: Input, env: Env)
    requires WellFormed(e)
    ensures WellFormed(React(e, input, env).end)
    ensures |React(e, input, env).out| <= 1
  {
  }

  lemma CallKeepsShape(e: End, call: Call, env: Env)
    requires WellFormed(e)
    ensures WellFormed(UserCall(e, call, env).end)
    ensures |UserCall(e, call, env).out| <= 1
  {
  }

  /** Whenever an end proposes, the proposal is the least subnet above its previous one that its own
      check lets pass, never 256, with postfix 2; and it is what the end then waits on. */
  lemma ProposalsRise(e: End, input: Input, env: Env)
    requires WellFormed(e)
    ensures var r := React(e, input, env);
      (exists m <- r.out :: m.IpProposal?) ==>
        && e.Up? && r.end.Up?
        && -1 <= e.s.subnet < r.end.s.subnet <= 255
        && r.out == [IpProposal(r.end.s.subnet, 2)]
        && r.end.s.subnet in env.free
        && forall b :: e.s.subnet < b < r.end.s.subnet ==> b !in env.free
  {
    if e.Up? && input.Control? {
      match input.m
      case Accept =>
      case IpReject =>
      case _ =>
    }
  }
}
