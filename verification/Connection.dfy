/**
 The connection object (src/Connection.hpp, src/Connection.cpp): its handlers update state, subnet, set index and
 fragment store in place. Every method is proved to do what the functions of Wire say.
*/
module Connections {
  import opened Packets
  import opened Fragmentation
  import opened Reassembly
  import opened Tun
  import opened Endpoint
  import opened Wire

  /** What the operating system and tox answer during one call. */
  datatype Surroundings = Surroundings(answers: Answers, sendOk: bool, goodbyeOk: bool, tunOk: bool)

  function EnvOf(s: Surroundings): Env {
    Env(Free(s.answers), s.sendOk, s.goodbyeOk, s.tunOk)
  }

  /** Everything handed to the outside, in order and per friend: packets to tox, events to the user's
      callback, frames to the tun devices. */
  class Outside {
    var sent: seq<(nat, Packet)>
    var reported: seq<(nat, Event)>
    var frames: seq<(nat, Packet)>

    constructor ()
      ensures sent == [] && reported == [] && frames == []
    {
      sent, reported, frames := [], [], [];
    }
  }

  class Connection {
    const connectedFriend: nat
    const outside: Outside
    ghost const initiator: bool
    var state: Phase
    var subnet: int
    var nextFragmentIndex: byte
    var fragments: Store
    /** The address given to the tun device. */
    var ip: Option<Address>

    ghost function Fields(): Session
      reads this
    {
      Session(state, initiator, subnet, ip)
    }

    ghost function View(): Link
      reads this
    {
      if state == Deleting then Down else Live(Fields(), nextFragmentIndex, fragments)
    }

    ghost predicate Valid()
      reads this
    {
      state != Deleting && WellFormed(Up(Fields()))
    }

    /** The call did what `r` says: new link, and everything handed to the outside. */
    twostate predicate Did(r: Received)
      requires r.Received?
      reads this, outside
    {
      && View() == r.link
      && outside.sent == old(outside.sent) + Tagged(connectedFriend, r.wire)
      && outside.reported == old(outside.reported) + Tagged(connectedFriend, r.events)
      && outside.frames == old(outside.frames) + Tagged(connectedFriend, r.tun)
    }

    /** The initiator's constructor sends the request and throws when that fails; then `state` is
        Deleting, for no object remains. */
    constructor (friendNumber: nat, out: Outside, initiate: bool, s: Surroundings)
      modifies out
      ensures connectedFriend == friendNumber && outside == out && initiator == initiate
      ensures View() == if initiate && !s.sendOk then Down else Live(NewSession(initiate), 0, map[])
      ensures out.sent == old(out.sent) +
        (if initiate then Tagged(friendNumber, EncodeAll(Say(Request, s.sendOk))) else [])
      ensures out.reported == old(out.reported) && out.frames == old(out.frames)
    {
      connectedFriend, outside, initiator := friendNumber, out, initiate;
      state := if initiate then OwnRequestPending else FriendsRequestPending;
      nextFragmentIndex, subnet, fragments, ip := 0, -1, map[], None;
      new;
      if initiate {
        var ok := SendControl(Request, s.sendOk);
        if !ok { state := Deleting; }
      }
    }

    /** sendToTox: tox takes the first `taken` of the packets; false when it refused one. */
    method SendToTox(data: Packet, taken: nat) returns (ok: bool)
      modifies this`nextFragmentIndex, outside`sent
      ensures var o := ToSend(data, old(nextFragmentIndex));
        && nextFragmentIndex == o.next && ok == (taken >= |o.list|)
        && outside.sent == old(outside.sent) + Tagged(connectedFriend, Taken(o.list, taken))
    {
      var dataList: seq<Packet>;
      if |data| <= MAX {
        dataList := [data];
      } else {
        var index := nextFragmentIndex;
        nextFragmentIndex := if nextFragmentIndex == 255 then 0 else nextFragmentIndex + 1;
        dataList := GetSplitted(data, index);
      }
      ghost var before := outside.sent;
      for k := 0 to |dataList|
        modifies outside`sent
        invariant k <= taken
        invariant outside.sent == before + Tagged(connectedFriend, dataList[..k])
      {
        if k == taken { return false; }
        assert dataList[..k + 1] == dataList[..k] + [dataList[k]];
        outside.sent := outside.sent + [(connectedFriend, dataList[k])];
      }
      assert dataList[..|dataList|] == dataList;
      return true;
    }

    method SendControl(m: Msg, sendOk: bool) returns (ok: bool)
      modifies this`nextFragmentIndex, outside`sent
      ensures ok == sendOk && nextFragmentIndex == old(nextFragmentIndex)
      ensures outside.sent == old(outside.sent) + Tagged(connectedFriend, EncodeAll(Say(m, sendOk)))
    {
      ok := SendToTox(Encode(m), if sendOk then 1 else 0);
      assert EncodeAll(Say(m, sendOk)) == Taken([Encode(m)], if sendOk then 1 else 0);
    }

    method Report(e: Event)
      modifies outside`reported
      ensures outside.reported == old(outside.reported) + Tagged(connectedFriend, [e])
    {
      outside.reported := outside.reported + [(connectedFriend, e)];
    }

    method ResetAndDeleteConnection(s: Surroundings)
      modifies this, outside
      ensures Did(Done(old(View()), ResetAndDelete(EnvOf(s)), []))
      ensures state == Deleting
      ensures outside.sent == old(outside.sent) + if s.goodbyeOk then [(connectedFriend, [CONNECTION_RESET])] else []
      ensures outside.reported == old(outside.reported) + [(connectedFriend, ConnectionClosed)]
    {
      var _ := SendControl(Reset, s.goodbyeOk);
      Report(ConnectionClosed);
      state := Deleting;
    }

    /** The destructor: the friend gets the goodbye of the state, the own user hears of the end of a pending
        or negotiating connection only. */
    method Destroy(s: Surroundings)
      modifies this, outside
      ensures Did(Done(old(View()), Goodbye(old(Fields()), EnvOf(s)), []))
      ensures outside.reported == old(outside.reported) +
        if old(state) in {OwnRequestPending, ExpectingIpPacket, ExpectingIpConfirmation}
        then [(connectedFriend, ConnectionClosed)] else []
    {
      match state
      case FriendsRequestPending =>
        var _ := SendControl(Reject, s.goodbyeOk);
        state := Deleting;
      case Connected =>
        var _ := SendControl(Close, s.goodbyeOk);
        state := Deleting;
      case Deleting =>
      case _ =>
        ResetAndDeleteConnection(s);
    }

    /** The search for the next subnet that is unused here; it stops at 256 when there is none. */
    method SearchSubnet(s: Surroundings)
      requires -1 <= subnet <= 255
      modifies this`subnet
      ensures subnet == NextFree(old(subnet), Free(s.answers))
      ensures old(subnet) < subnet <= 256 && (subnet < 256 ==> !KnownUsed(s.answers, subnet))
      ensures forall b: byte :: old(subnet) < b < subnet ==> KnownUsed(s.answers, b)
    {
      var unused := false;
      ghost var start := subnet;
      FreeExactly(s.answers);
      while !unused
        invariant start <= subnet <= 255
        invariant forall b :: start < b < subnet ==> b !in Free(s.answers)
        invariant unused <==> start < subnet && subnet in Free(s.answers)
        decreases 256 - subnet, !unused
      {
        subnet := subnet + 1;
        var used := s.answers[subnet % 256];
        if used.Some? {
          unused := IsAddrspaceUnused(used.value, subnet % 256);
        } else {
          unused := true;
        }
        if subnet == 256 {
          return;
        }
      }
    }

    /** Propose the subnet found, or give up. */
    method ProposeIp(s: Surroundings)
      requires state == ExpectingIpConfirmation && -1 <= subnet <= 255
      modifies this, outside
      ensures Did(Done(old(View()), SendIp(old(Fields()), EnvOf(s)), []))
    {
      SearchSubnet(s);
      if subnet == 256 {
        ResetAndDeleteConnection(s);
        return;
      }
      var ok := SendControl(IpProposal(subnet, 2), s.sendOk);
      if !ok {
        ResetAndDeleteConnection(s);
      }
    }

    method SetOwnIp(postfixSubnet: byte, postfix: byte)
      modifies this`ip, this`state, outside`reported
      ensures ip == Some(Address(postfixSubnet, postfix)) && state == Connected
      ensures outside.reported == old(outside.reported) + Tagged(connectedFriend, [ConnectionAccepted])
    {
      ip := Some(Address(postfixSubnet, postfix));
      state := Connected;
      Report(ConnectionAccepted);
    }

    method HandleConnectionAccepted(s: Surroundings)
      requires Valid()
      modifies this, outside
      ensures Did(Done(old(View()), HandleControl(old(Fields()), Msg.Accept, EnvOf(s)), []))
    {
      if state != OwnRequestPending {
        ResetAndDeleteConnection(s);
        return;
      }
      state := ExpectingIpConfirmation;
      ProposeIp(s);
    }

    method HandleConnectionRejected(s: Surroundings)
      requires Valid()
      modifies this, outside
      ensures Did(Done(old(View()), HandleControl(old(Fields()), Reject, EnvOf(s)), []))
    {
      if state != OwnRequestPending {
        ResetAndDeleteConnection(s);
        return;
      }
      Report(ConnectionRejected);
      state := Deleting;
    }

    method HandleConnectionClosed(s: Surroundings)
      requires Valid()
      modifies this, outside
      ensures Did(Done(old(View()), HandleControl(old(Fields()), Close, EnvOf(s)), []))
    {
      if state != Connected {
        ResetAndDeleteConnection(s);
        return;
      }
      Report(ConnectionClosed);
      state := Deleting;
    }

    method HandleConnectionReset(s: Surroundings)
      requires Valid()
      modifies this, outside
      ensures Did(Done(old(View()), HandleControl(old(Fields()), Reset, EnvOf(s)), []))
    {
      Report(ConnectionClosed);
      state := Deleting;
    }

    /** A proposal of the wrong size is ignored, but only where a proposal is expected at all. */
    method HandleIpProposal(data: Packet, s: Surroundings)
      requires Valid() && data[0] == IP_PROPOSAL
      modifies this, outside
      ensures Did(Done(old(View()), React(Up(old(Fields())), Classify(data), EnvOf(s)), []))
      ensures old(state) == ExpectingIpPacket && |data| == 3 && s.sendOk ==>
        if KnownUsed(s.answers, data[1]) then state == ExpectingIpPacket
        else state == Connected && ip == Some(Address(data[1], data[2]))
    {
      if state != ExpectingIpPacket {
        ResetAndDeleteConnection(s);
        return;
      }
      if |data| != 3 { return; }
      FreeExactly(s.answers);
      var subnet, postfix := data[1], data[2];
      var used := s.answers[subnet];
      var unused := true;
      if used.Some? {
        unused := IsAddrspaceUnused(used.value, subnet);
      }
      var ok := SendControl(if unused then IpAccept else IpReject, s.sendOk);
      if !ok {
        ResetAndDeleteConnection(s);
        return;
      }
      if unused {
        SetOwnIp(subnet, postfix);
      }
    }

    method HandleIpAccepted(s: Surroundings)
      requires Valid()
      modifies this, outside
      ensures Did(Done(old(View()), HandleControl(old(Fields()), IpAccept, EnvOf(s)), []))
    {
      if state != ExpectingIpConfirmation {
        ResetAndDeleteConnection(s);
        return;
      }
      SetOwnIp(subnet % 256, 1);
    }

    method HandleIpRejected(s: Surroundings)
      requires Valid()
      modifies this, outside
      ensures Did(Done(old(View()), HandleControl(old(Fields()), IpReject, EnvOf(s)), []))
    {
      if state != ExpectingIpConfirmation {
        ResetAndDeleteConnection(s);
        return;
      }
      ProposeIp(s);
    }

    method SendToTun(data: Packet, s: Surroundings)
      requires Valid() && data[0] == DATA
      modifies this, outside
      ensures Did(Handle(old(View()), data, EnvOf(s)))
    {
      if state != Connected {
        ResetAndDeleteConnection(s);
        return;
      }
      outside.frames := outside.frames + [(connectedFriend, data)];
    }

    method HandleData(data: Packet, s: Surroundings) returns (crashed: bool)
      requires Valid()
      modifies this, outside
      ensures crashed == old(Receive(View(), data, EnvOf(s))).Crashed?
      ensures !crashed ==> Did(old(Receive(View(), data, EnvOf(s))))
      decreases StoreBytes(fragments) + |data|, 1
    {
      crashed := false;
      match data[0]
      case 160 => // a ConnectionRequest for an open connection is only logged
      case 161 => HandleConnectionAccepted(s);
      case 162 => HandleConnectionRejected(s);
      case 163 => HandleConnectionClosed(s);
      case 164 => HandleConnectionReset(s);
      case 165 => HandleIpProposal(data, s);
      case 166 => HandleIpAccepted(s);
      case 167 => HandleIpRejected(s);
      case 200 => SendToTun(data, s);
      case 201 => crashed := HandleFragment(data, s);
      case _ => // an unknown header matches no case
    }

    /** The part of handleFragment that works on the fragment store. */
    method StoreFragment(data: Fragment) returns (outcome: Outcome)
      modifies this`fragments
      ensures fragments == Reassembly.Accept(old(fragments), data).store
      ensures outcome == Reassembly.Accept(old(fragments), data).outcome
    {
      var sdi := SetIndex(data);
      if sdi !in fragments {
        fragments := fragments[sdi := [data]];
      } else {
        fragments := fragments[sdi := [data] + fragments[sdi]];
      }
      assert fragments[sdi] == [data] + Listed(old(fragments), sdi);
      if |fragments[sdi]| != Count(data) {
        return Stored;
      }
      var list := fragments[sdi];
      fragments := fragments - {sdi};
      var i := sdi as int + 128;
      while i < sdi as int + 128 + 3
        invariant sdi as int + 128 <= i <= sdi as int + 131
        invariant fragments == old(fragments) - {sdi} - (set k | sdi as int + 128 <= k < i :: k % 256)
      {
        fragments := fragments - {i % 256};
        i := i + 1;
      }
      assert (set k | sdi as int + 128 <= k < i :: k % 256) + {sdi} == Erased(sdi);
      var joined := JoinFragments(list);
      outcome := if joined.Whole? then Delivered(joined.packet) else Broken;
    }

    method HandleFragment(data: Packet, s: Surroundings) returns (crashed: bool)
      requires Valid() && data[0] == FRAGMENT
      modifies this, outside
      ensures crashed == old(Receive(View(), data, EnvOf(s))).Crashed?
      ensures !crashed ==> Did(old(Receive(View(), data, EnvOf(s))))
      decreases StoreBytes(fragments) + |data|, 0
    {
      if !IsValidFragment(data) { return false; }
      var outcome := StoreFragment(data);
      match outcome
      case Stored => return false;
      case Broken => return true;
      case Delivered(packet) =>
        CompletionPays(old(fragments), data);
        crashed := HandleData(packet, s);
    }

    /** False, with nothing changed, when no request of the friend is pending. */
    method AcceptConnection(s: Surroundings) returns (ok: bool)
      requires Valid()
      modifies this, outside
      ensures ok <==> old(state) == FriendsRequestPending
      ensures ok ==> Did(CallOn(old(View()), Call.AcceptConnection, EnvOf(s)))
      ensures !ok ==> unchanged(this) && unchanged(outside)
    {
      if state != FriendsRequestPending {
        return false;
      }
      ok := true;
      state := ExpectingIpPacket;
      var sent := SendControl(Msg.Accept, s.sendOk);
      if !sent {
        ResetAndDeleteConnection(s);
      }
    }

    /** One turn of the loop in iterate: a frame read from the tun device goes to tox. */
    method ForwardFrame(frame: seq<byte>, taken: nat)
      requires Valid()
      modifies this, outside
      ensures Did(SendFrame(old(View()), frame, taken))
    {
      if state == Connected {
        var _ := SendToTox([DATA] + frame, taken);
      }
    }
  }
}
