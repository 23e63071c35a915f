/**
 The core object (src/ToxTunCore.hpp, src/ToxTunCore.cpp): it holds at most one connection object per friend,
 creates and erases them, and dispatches packets and user calls. Every method is proved to take the
 turn that ManyFriends describes, and to leave all other friends alone.
*/
module Core {
  import opened Packets
  import opened Endpoint
  import opened Wire
  import opened Connections
  import M = ManyFriends

  class ToxTunCore {
    var connections: map<nat, Connection>
    const outside: Outside

    constructor ()
      ensures Valid() && connections == map[] && fresh(outside)
      ensures outside.sent == [] && outside.reported == [] && outside.frames == []
    {
      connections := map[];
      outside := new Outside();
    }

    /** Every entry is a connection of its own to the friend it is filed under. */
    ghost predicate Filed()
      reads this, connections.Values
    {
      && (forall f <- connections :: connections[f].connectedFriend == f && connections[f].outside == outside)
      && (forall f <- connections, g <- connections :: f != g ==> connections[f] != connections[g])
    }

    ghost predicate Valid()
      reads this, connections.Values
    {
      Filed() && forall f <- connections :: connections[f].Valid()
    }

    ghost function LinkOf(f: nat): Link
      reads this, connections.Values
    {
      if f in connections then connections[f].View() else Down
    }

    /** The turn moved friend f's link and nobody else's, and handed to the outside what `r` says. */
    twostate predicate Took(f: nat, r: Received)
      requires r.Received?
      reads this, connections.Values, outside
    {
      && LinkOf(f) == r.link
      && (forall g: nat :: g != f ==> LinkOf(g) == old(LinkOf(g)))
      && outside.sent == old(outside.sent) + Tagged(f, r.wire)
      && outside.reported == old(outside.reported) + Tagged(f, r.events)
      && outside.frames == old(outside.frames) + Tagged(f, r.tun)
    }

    /** A new connection object is entered for a friend that has none. */
    method Emplace(friend: nat, connection: Connection)
      requires Valid() && friend !in connections && connection.Valid()
      requires connection.connectedFriend == friend && connection.outside == outside
      modifies this`connections
      ensures Valid() && LinkOf(friend) == connection.View()
      ensures forall g: nat :: g != friend ==> LinkOf(g) == old(LinkOf(g))
    {
      assert forall f <- connections :: connections[f].connectedFriend != friend;
      connections := connections[friend := connection];
    }

    /** The reply to a friend without a connection. */
    method ResetStranger(friend: nat, s: Surroundings)
      modifies outside`sent
      ensures outside.sent == old(outside.sent) + Tagged(friend, EncodeAll(Say(Reset, s.goodbyeOk)))
    {
      if s.goodbyeOk {
        outside.sent := outside.sent + [(friend, Encode(Reset))];
      }
    }

    /** Erase the entry if the connection has deleted itself; no link changes by that. */
    method EraseDeleted(friend: nat)
      requires Filed() && friend in connections
      requires connections[friend].state == Deleting || connections[friend].Valid()
      requires forall f <- connections :: f != friend ==> connections[f].Valid()
      modifies this`connections
      ensures Valid() && forall f: nat :: LinkOf(f) == old(LinkOf(f))
    {
      if connections[friend].state == Deleting {
        connections := connections - {friend};
      }
    }

    /** Erasing an entry runs the connection's destructor. */
    method Erase(friend: nat, s: Surroundings)
      requires Valid() && friend in connections
      modifies this, connections.Values, outside
      ensures Valid() && Took(friend, Done(old(LinkOf(friend)), Goodbye(old(LinkOf(friend)).s, EnvOf(s)), []))
    {
      connections[friend].Destroy(s);
      EraseDeleted(friend);
    }

    /** A packet arrives. A connection that deletes itself while handling it is erased. */
    method HandleData(data: Packet, friend: nat, s: Surroundings) returns (crashed: bool)
      requires Valid()
      modifies this, connections.Values, outside
      ensures var r := M.OnLink(old(LinkOf(friend)), M.Packet(data), EnvOf(s));
        crashed == r.Crashed? && (!crashed ==> Valid() && Took(friend, r))
    {
      if friend in connections {
        var connection := connections[friend];
        crashed := connection.HandleData(data, s);
        if !crashed {
          ShapeOf(old(LinkOf(friend)), M.Packet(data), EnvOf(s));
          EraseDeleted(friend);
        }
      } else {
        crashed := false;
        HandleStranger(data, friend, s);
      }
    }

    /** A packet from a friend without a connection; a Reset is ignored. */
    method HandleStranger(data: Packet, friend: nat, s: Surroundings)
      requires Valid() && friend !in connections
      modifies this, outside
      ensures Valid() && Took(friend, M.OnLink(Down, M.Packet(data), EnvOf(s)))
    {
      match data[0]
      case 160 => HandleConnectionRequest(friend, s);
      case 164 =>
      case _ => ResetStranger(friend, s);
    }

    /** The shape that OnLink promises, for the handlers' results. */
    lemma ShapeOf(l: Link, input: M.Input, env: Env)
      requires WellFormed(EndOf(l))
      ensures var r := M.OnLink(l, input, env); r.Received? ==> WellFormed(EndOf(r.link))
    {
    }

    /** What a request does to a friend without a connection. */
    lemma RequestOnDown(env: Env)
      ensures M.OnLink(Down, M.Packet([CONNECTION_REQUEST]), env) ==
        if env.tunOk then Received(Live(NewSession(false), 0, map[]), [], [ConnectionRequested], [])
        else Received(Down, EncodeAll(Say(Reset, env.goodbyeOk)), [], [])
    {
      assert EncodeAll([]) == [];
    }

    method HandleConnectionRequest(friend: nat, s: Surroundings)
      requires Valid() && friend !in connections
      modifies this, outside
      ensures Valid() && Took(friend, M.OnLink(Down, M.Packet([CONNECTION_REQUEST]), EnvOf(s)))
    {
      RequestOnDown(EnvOf(s));
      if !s.tunOk {
        ResetStranger(friend, s);
        return;
      }
      var connection := new Connection(friend, outside, false, s);
      Emplace(friend, connection);
      outside.reported := outside.reported + Tagged(friend, [ConnectionRequested]);
    }

    /** False when a connection exists already or none could be created. */
    method SendConnectionRequest(friend: nat, s: Surroundings) returns (ok: bool)
      requires Valid()
      modifies this, outside
      ensures Valid() && Took(friend, M.OnLink(old(LinkOf(friend)), M.Request(RequestConnection), EnvOf(s)))
      ensures ok <==> old(friend !in connections) && s.tunOk && s.sendOk
    {
      if friend in connections || !s.tunOk {
        return false;
      }
      var connection := new Connection(friend, outside, true, s);
      ok := connection.state != Deleting;
      if ok {
        Emplace(friend, connection);
      }
    }

    /** A connection that refuses to accept, being in the wrong state, is destroyed. */
    method AcceptConnection(friend: nat, s: Surroundings) returns (ok: bool)
      requires Valid()
      modifies this, connections.Values, outside
      ensures Valid() && Took(friend, M.OnLink(old(LinkOf(friend)), M.Request(Call.AcceptConnection), EnvOf(s)))
      ensures ok <==> IsUp(EndOf(old(LinkOf(friend))), FriendsRequestPending)
      ensures !ok ==> friend !in connections
    {
      if friend !in connections {
        return false;
      }
      var connection := connections[friend];
      ok := connection.AcceptConnection(s);
      if ok {
        ShapeOf(old(LinkOf(friend)), M.Request(Call.AcceptConnection), EnvOf(s));
        EraseDeleted(friend);
      } else {
        Erase(friend, s);
      }
    }

    method CloseConnection(friend: nat, s: Surroundings)
      requires Valid()
      modifies this, connections.Values, outside
      ensures Valid() && Took(friend, M.OnLink(old(LinkOf(friend)), M.Request(Call.CloseConnection), EnvOf(s)))
    {
      if friend in connections {
        Erase(friend, s);
      }
    }

    method RejectConnection(friend: nat, s: Surroundings)
      requires Valid()
      modifies this, connections.Values, outside
      ensures Valid() && Took(friend, M.OnLink(old(LinkOf(friend)), M.Request(Call.RejectConnection), EnvOf(s)))
    {
      if friend in connections {
        Erase(friend, s);
      }
    }

    method GetConnectionState(friend: nat) returns (shown: ConnectionState)
      requires Valid()
      ensures shown == Shown(EndOf(LinkOf(friend)))
      ensures friend !in connections ==> shown == Disconnected
      ensures friend in connections ==>
        shown == (if connections[friend].ip.Some? then ShownConnected
                  else if connections[friend].initiator then RingingAtFriend else FriendIsRinging)
    {
      if friend !in connections {
        return Disconnected;
      }
      match connections[friend].state
      case Connected => return ShownConnected;
      case FriendsRequestPending => return FriendIsRinging;
      case ExpectingIpPacket => return FriendIsRinging;
      case OwnRequestPending => return RingingAtFriend;
      case ExpectingIpConfirmation => return RingingAtFriend;
      case Deleting => return Disconnected;
    }

    /** One connection's turn in iterate. */
    method Forward(friend: nat, frame: seq<byte>, taken: nat, s: Surroundings)
      requires Valid()
      modifies this, connections.Values, outside
      ensures Valid() && Took(friend, M.OnLink(old(LinkOf(friend)), M.Frame(frame, taken), EnvOf(s)))
    {
      if friend in connections {
        connections[friend].ForwardFrame(frame, taken);
      }
    }
  }
}
