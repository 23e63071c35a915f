/**
 The bytes on the wire, written out: what every control packet looks like and on which of tox's two
 channels it goes, what every packet is read as, and where in a packet each fragment's bytes come from.
*/
module Layout {
  import opened Packets
  import opened Tun
  import opened Fragmentation
  import opened JoinTheorems
  import opened Reassembly
  import opened Endpoint
  import opened Wire
  import Oversize

  // ------------------------------------------------------------ control packets

  lemma ControlBytes()
    ensures Encode(Request) == [160] && Encode(Msg.Accept) == [161] && Encode(Reject) == [162]
    ensures Encode(Close) == [163] && Encode(Reset) == [164]
    ensures forall subnet: byte, postfix: byte :: Encode(IpProposal(subnet, postfix)) == [165, subnet, postfix]
    ensures Encode(IpAccept) == [166] && Encode(IpReject) == [167]
  {
  }

  /** A control packet is told by its first byte, whatever follows it; a proposal has exactly three bytes. */
  lemma ReadExactly(p: Packet, m: Msg)
    ensures Classify(p) == Control(m) <==> if m.IpProposal? then p == Encode(m) else p[0] == Encode(m)[0]
    ensures Classify(p) == BadProposal <==> p[0] == 165 && |p| != 3
    ensures Classify(p) == Input.Payload <==> p[0] == 200
    ensures Classify(p) == Noise <==> !(160 <= p[0] <= 167) && p[0] != 200
  {
    if |p| == 3 { assert p == [p[0], p[1], p[2]]; }
  }

  datatype Channel = Lossless | Lossy

  /** Tox takes packets with a first byte of 160 to 191 losslessly and of 200 to 254 lossily, no others. */
  function SendTox(p: Packet): Option<Channel> {
    if 200 <= p[0] <= 254 then Some(Lossy)
    else if 160 <= p[0] <= 191 then Some(Lossless)
    else None
  }

  /** Control packets keep their order, frames and fragments may not: the two channels of a pair are those
      that the code asks tox for. */
  lemma ChannelsByHeader(m: Msg, frame: seq<byte>, next: byte)
    ensures SendTox(Encode(m)) == Some(Lossless)
    ensures forall p <- ToSend([DATA] + frame, next).list :: SendTox(p) == Some(Lossy)
  {
  }

  // ------------------------------------------------------------------ fragments

  /** How many fragments there are, and every byte of each of them. */
  lemma FragmentBytes(p: Packet, index: byte, i: nat)
    requires i < FragmentCount(p)
    ensures (FragmentCount(p) - 1) * ROOM < |p| <= FragmentCount(p) * ROOM
    ensures i * ROOM < |p|
    ensures var end := if |p| < i * ROOM + ROOM then |p| else i * ROOM + ROOM;
      Split(p, index)[i] == [201, index, i % 256, FragmentCount(p) % 256] + p[i * ROOM..end]
  {
    PieceBytes(p, i);
    PieceBytes(p, FragmentCount(p) - 1);
    Oversize.OneMore(FragmentCount(p), ROOM);
    Oversize.ChunksFrom(p, FragmentCount(p));
    assert Chunks(p)[FragmentCount(p)..] == [];
  }

  lemma PieceBytes(p: Packet, i: nat)
    requires i < FragmentCount(p)
    ensures i * ROOM < |p|
    ensures Chunks(p)[i] == p[i * ROOM..if |p| < i * ROOM + ROOM then |p| else i * ROOM + ROOM]
  {
    hide Chunks;
    var start := i * ROOM;
    var rest := Oversize.From(p, i);
    Oversize.ChunksFrom(p, i);
    FirstOf(Chunks(p), i, rest);
    assert rest == p[start..];
    FirstPiece(p, start);
  }

  lemma FirstOf(cs: seq<seq<byte>>, i: nat, rest: seq<byte>)
    requires i < |cs| && cs[i..] == Chunks(rest)
    ensures rest != [] && cs[i] == Chunks(rest)[0]
  {
    assert cs[i] == cs[i..][0];
  }

  lemma FirstPiece(p: Packet, start: nat)
    requires start < |p|
    ensures Chunks(p[start..]) != []
    ensures Chunks(p[start..])[0] == p[start..if |p| < start + ROOM then |p| else start + ROOM]
  {
  }

  /** A fragment too short for its header is dropped. */
  lemma ShortFragmentDropped(store: Store, p: Packet)
    requires p[0] == 201 && |p| < 4
    ensures Unwrap(store, p) == Unwrapped(store, Held)
  {
  }

  /** A fragment without payload is kept like any other, until its set is complete: the set is then corrupt. */
  lemma EmptyFragmentKept(store: Store, f: Fragment)
    requires |f| == 4
    ensures var u := Unwrap(store, f);
      if |Listed(store, f[1])| + 1 == f[3] then u.content == Crash
      else u == Unwrapped(store[f[1] := [f] + Listed(store, f[1])], Held)
  {
    var list := [f] + Listed(store, f[1]);
    JoinExact(list);
    assert list[0] == f;
  }
}
