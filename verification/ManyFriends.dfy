/**
 The core over all friends as a map of links, and its independence: any run, projected to one friend, is
 a run of that friend's machine alone.
*/
module ManyFriends {
  import opened Packets
  import opened Endpoint
  import opened Wire

  /** Friends without an entry have no connection. */
  type Links = m: map<nat, Link> | forall f <- m :: m[f].Live? && WellFormed(EndOf(m[f]))

  datatype Input = Packet(p: Packet) | Request(call: Call) | Frame(frame: seq<byte>, taken: nat)

  datatype Turn = Turn(friend: nat, input: Input, env: Env)

  function LinkOf(links: Links, friend: nat): (l: Link)
    ensures WellFormed(EndOf(l))
  {
    if friend in links then links[friend] else Down
  }

  /** What one input does at one friend's link. */
  function OnLink(l: Link, input: Input, env: Env): (r: Received)
    requires WellFormed(EndOf(l))
    ensures r.Received? ==> WellFormed(EndOf(r.link))
  {
    match input
    case Packet(p) =>
      ReceiveKeepsShape(l, p, env);
      Receive(l, p, env)
    case Request(call) =>
      CallKeepsShape(EndOf(l), call, env);
      CallOn(l, call, env)
    case Frame(frame, taken) => SendFrame(l, frame, taken)
  }

  /** emplace, erase or update one entry of the connection map. */
  function Put(links: Links, friend: nat, l: Link): Links
    requires WellFormed(EndOf(l))
  {
    if l.Down? then links - {friend} else links[friend := l]
  }

  /** The core after a run, with the packets it sent and the events it reported, tagged by friend;
      a corrupt fragment set from any friend ends the program. */
  datatype Core = Core(links: Links, sent: seq<(nat, Packet)>, reported: seq<(nat, Event)>, frames: seq<(nat, Packet)>)
                | Ended

  function TakeTurn(c: Core, t: Turn): Core {
    if c.Ended? then Ended
    else
      var r := OnLink(LinkOf(c.links, t.friend), t.input, t.env);
      if r.Crashed? then Ended
      else Core(Put(c.links, t.friend, r.link), c.sent + Tagged(t.friend, r.wire),
                c.reported + Tagged(t.friend, r.events), c.frames + Tagged(t.friend, r.tun))
  }

  function RunCore(c: Core, turns: seq<Turn>): Core
    decreases |turns|
  {
    if turns == [] then c else RunCore(TakeTurn(c, turns[0]), turns[1..])
  }

  /** One friend's own machine and what it hands to the outside. */
  datatype Single = Single(link: Link, sent: seq<Packet>, reported: seq<Event>, frames: seq<Packet>) | Gone

  predicate Shaped(m: Single) { m.Single? ==> WellFormed(EndOf(m.link)) }

  function TakeAlone(m: Single, t: Turn): (r: Single)
    requires Shaped(m)
    ensures Shaped(r)
  {
    if m.Gone? then Gone
    else
      var r := OnLink(m.link, t.input, t.env);
      if r.Crashed? then Gone else Single(r.link, m.sent + r.wire, m.reported + r.events, m.frames + r.tun)
  }

  function RunAlone(m: Single, turns: seq<Turn>): (r: Single)
    requires Shaped(m)
    ensures Shaped(r)
    decreases |turns|
  {
    if turns == [] then m else RunAlone(TakeAlone(m, turns[0]), turns[1..])
  }

  /** The turns that concern one friend. */
  function Of(turns: seq<Turn>, friend: nat): seq<Turn> {
    if turns == [] then []
    else if turns[0].friend == friend then [turns[0]] + Of(turns[1..], friend)
    else Of(turns[1..], friend)
  }

  function For<T>(log: seq<(nat, T)>, friend: nat): seq<T> {
    if log == [] then []
    else if log[0].0 == friend then [log[0].1] + For(log[1..], friend)
    else For(log[1..], friend)
  }

  /** The part of the core that belongs to one friend. */
  function Projected(c: Core, friend: nat): (m: Single)
    ensures Shaped(m)
  {
    if c.Ended? then Gone
    else Single(LinkOf(c.links, friend), For(c.sent, friend), For(c.reported, friend), For(c.frames, friend))
  }

  lemma {:induction false} ForConcat<T>(a: seq<(nat, T)>, b: seq<(nat, T)>, friend: nat)
    ensures For(a + b, friend) == For(a, friend) + For(b, friend)
  {
    if a == [] {
      assert a + b == b;
    } else {
      assert (a + b)[1..] == a[1..] + b;
      ForConcat(a[1..], b, friend);
    }
  }

  lemma {:induction false} ForTagged<T>(items: seq<T>, tagged: nat, friend: nat)
    ensures For(Tagged(tagged, items), friend) == if tagged == friend then items else []
  {
    if items != [] {
      assert Tagged(tagged, items)[1..] == Tagged(tagged, items[1..]);
      ForTagged(items[1..], tagged, friend);
    }
  }

  lemma ForAppended<T>(log: seq<(nat, T)>, items: seq<T>, tagged: nat, friend: nat)
    ensures For(log + Tagged(tagged, items), friend) == For(log, friend) + (if tagged == friend then items else [])
  {
    ForConcat(log, Tagged(tagged, items), friend);
    ForTagged(items, tagged, friend);
  }

  /** A turn acts on its friend's part as that friend's machine does, and on no other part. */
  lemma TurnIsLocal(c: Core, t: Turn, friend: nat)
    requires TakeTurn(c, t).Core?
    ensures Projected(TakeTurn(c, t), friend) ==
      if t.friend == friend then TakeAlone(Projected(c, friend), t) else Projected(c, friend)
  {
    var r := OnLink(LinkOf(c.links, t.friend), t.input, t.env);
    ForAppended(c.sent, r.wire, t.friend, friend);
    ForAppended(c.reported, r.events, t.friend, friend);
    ForAppended(c.frames, r.tun, t.friend, friend);
  }

  lemma {:induction false} EndedStays(turns: seq<Turn>)
    ensures RunCore(Ended, turns) == Ended
  {
    if turns != [] { EndedStays(turns[1..]); }
  }

  lemma {:induction false} GoneStays(turns: seq<Turn>)
    ensures RunAlone(Gone, turns) == Gone
  {
    if turns != [] { GoneStays(turns[1..]); }
  }

  /** One turn earlier: a friend's own run from before the turn is its own run from after it. */
  lemma RunFromNextTurn(c: Core, turns: seq<Turn>, friend: nat)
    requires turns != [] && TakeTurn(c, turns[0]).Core?
    ensures RunAlone(Projected(c, friend), Of(turns, friend))
         == RunAlone(Projected(TakeTurn(c, turns[0]), friend), Of(turns[1..], friend))
  {
    TurnIsLocal(c, turns[0], friend);
    if turns[0].friend == friend {
      assert ([turns[0]] + Of(turns[1..], friend))[1..] == Of(turns[1..], friend);
    }
  }

  /** Friends are independent: a run of the core, projected to one friend, is the run of that
      friend's machine on its own turns, with the same packets, events and frames. */
  lemma {:induction false} FriendsIndependent(c: Core, turns: seq<Turn>, friend: nat)
    requires RunCore(c, turns).Core?
    ensures Projected(RunCore(c, turns), friend) == RunAlone(Projected(c, friend), Of(turns, friend))
    decreases |turns|
  {
    if turns != [] {
      if TakeTurn(c, turns[0]).Ended? {
        EndedStays(turns[1..]);
        assert false;
      }
      RunFromNextTurn(c, turns, friend);
      FriendsIndependent(TakeTurn(c, turns[0]), turns[1..], friend);
    }
  }

  /** The program ends on a corrupt set if and only if the machine of some friend, run alone on that
      friend's own turns, does: nobody's packets can bring about or prevent anybody else's end. */
  lemma {:induction false} EndsWithSomeFriend(c: Core, turns: seq<Turn>)
    requires c.Core?
    ensures RunCore(c, turns).Ended? <==>
      exists f: nat :: RunAlone(Projected(c, f), Of(turns, f)).Gone?
    decreases |turns|
  {
    if turns != [] {
      var f, c' := turns[0].friend, TakeTurn(c, turns[0]);
      if c'.Ended? {
        EndedStays(turns[1..]);
        assert TakeAlone(Projected(c, f), turns[0]).Gone?;
        GoneStays(Of(turns[1..], f));
        assert ([turns[0]] + Of(turns[1..], f))[1..] == Of(turns[1..], f);
        assert RunAlone(Projected(c, f), Of(turns, f)).Gone?;
      } else {
        EndsWithSomeFriend(c', turns[1..]);
        forall g: nat
          ensures RunAlone(Projected(c, g), Of(turns, g)) == RunAlone(Projected(c', g), Of(turns[1..], g))
        {
          RunFromNextTurn(c, turns, g);
        }
      }
    }
  }
}
