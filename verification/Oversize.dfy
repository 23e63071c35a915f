/**
 Frames of more than 256 fragments: number and count of a fragment are one byte each (src/Data.cpp:175,
 src/Data.cpp:184), so of such a frame several fragments carry number 0. What the receiver makes of it, and
 why the bound of Reassembly is exact.
*/
module Oversize {
  import opened Packets
  import opened Fragmentation
  import opened JoinTheorems
  import opened Reassembly
  import L = LinkConditions

  /** The packet from its n-th piece on. */
  function From(p: seq<byte>, n: nat): seq<byte> {
    if n * ROOM < |p| then p[n * ROOM..] else []
  }

  lemma {:induction false} ChunksFrom(p: seq<byte>, n: nat)
    requires n <= FragmentCount(p)
    ensures Chunks(p)[n..] == Chunks(From(p, n))
    decreases n
  {
    if n == 0 {
      assert From(p, 0) == p;
    } else {
      ChunksFrom(p, n - 1);
      var rest := From(p, n - 1);
      assert Chunks(p)[n - 1..][1..] == Chunks(p)[n..];
      if rest != [] {
        assert Chunks(rest)[1..] == Chunks(rest[Take(|rest|)..]);
        NextFrom(p, n);
      }
    }
  }

  lemma NextFrom(p: seq<byte>, n: nat)
    requires n > 0 && From(p, n - 1) != []
    ensures var rest := From(p, n - 1); rest[Take(|rest|)..] == From(p, n)
  {
    OneMore(n, ROOM);
    DropPiece(p, (n - 1) * ROOM);
  }

  lemma OneMore(n: nat, room: nat)
    requires n > 0
    ensures n * room == (n - 1) * room + room
  {
  }

  lemma DropPiece(p: seq<byte>, start: nat)
    requires start < |p|
    ensures p[start..][Take(|p| - start)..] == if start + ROOM < |p| then p[start + ROOM..] else []
  {
  }

  /** The fragments of a packet from its n-th one on. */
  function Tail(p: Packet, index: byte, n: nat): (fs: seq<Fragment>)
    requires n <= FragmentCount(p)
    ensures |fs| == FragmentCount(p) - n
  {
    Split(p, index)[n..]
  }

  lemma TailPayloads(p: Packet, index: byte, n: nat)
    requires n <= FragmentCount(p)
    ensures Payloads(Tail(p, index, n)) == From(p, n)
  {
    ChunksFrom(p, n);
    PayloadsOfChunks(From(p, n), Tail(p, index, n));
  }

  /** How many fragments the count byte speaks of, and how many pieces lie ahead of those. */
  function CountByte(p: Packet): byte { FragmentCount(p) % 256 }

  function Ahead(p: Packet): (m: nat)
    ensures m % 256 == 0 && m + CountByte(p) == FragmentCount(p)
  {
    WholeBlocks(FragmentCount(p));
    256 * (FragmentCount(p) / 256)
  }

  lemma WholeBlocks(n: nat)
    ensures 256 * (n / 256) % 256 == 0 && 256 * (n / 256) + n % 256 == n
  {
  }

  lemma NumbersRestart(m: nat, j: nat)
    requires m % 256 == 0 && j < 256
    ensures (m + j) % 256 == j
  {
  }

  /** The last fragments, numbered from 0 again, are in sequence. */
  lemma TailInSequence(p: Packet, index: byte)
    ensures InSequence(Tail(p, index, Ahead(p)))
  {
    var m, fs := Ahead(p), Tail(p, index, Ahead(p));
    SplitShape(p, index);
    hide FragmentCount, Split, CountByte, Ahead;
    forall j | 0 <= j < |fs|
      ensures Number(fs[j]) == j && |fs[j]| > 4
    {
      assert fs[j] == Split(p, index)[m + j];
      NumbersRestart(m, j);
    }
  }

  lemma PieceHead(p: Packet, index: byte, n: nat)
    requires n < FragmentCount(p)
    ensures n * ROOM < |p| && |Split(p, index)[n]| > 4 && Split(p, index)[n][4] == p[n * ROOM]
  {
    ChunksFrom(p, n);
    assert Chunks(p)[n..][0] == Chunks(p)[n];
    assert From(p, n) != [];
  }

  /** They join to the end of the packet. */
  lemma TailJoins(p: Packet, index: byte)
    requires CountByte(p) != 0
    ensures From(p, Ahead(p)) != [] && FromFragments(Tail(p, index, Ahead(p))) == Whole(From(p, Ahead(p)))
  {
    TailInSequence(p, index);
    TailPayloads(p, index, Ahead(p));
    PieceHead(p, index, Ahead(p));
    JoinConcatenates(Tail(p, index, Ahead(p)), Tail(p, index, Ahead(p)));
  }

  /** The store after the first t fragments in the order in which they are sent, the last one first. */
  function AfterSent(p: Packet, index: byte, store: Store, t: nat): Store
    requires t <= FragmentCount(p)
  {
    if t == 0 then store
    else Accept(AfterSent(p, index, store, t - 1), Split(p, index)[FragmentCount(p) - t]).store
  }

  function OutcomeOfNext(p: Packet, index: byte, store: Store, t: nat): Outcome
    requires t < FragmentCount(p)
  {
    Accept(AfterSent(p, index, store, t), Split(p, index)[FragmentCount(p) - 1 - t]).outcome
  }

  /** Until the count byte is reached, they are listed. */
  lemma {:induction false} ListedAsSent(p: Packet, index: byte, store: Store, t: nat)
    requires index !in store && t < CountByte(p) && t < FragmentCount(p)
    ensures Listed(AfterSent(p, index, store, t), index) == Tail(p, index, FragmentCount(p) - t)
  {
    hide FragmentCount, CountByte, Split, Accept;
    if t == 0 {
      assert Tail(p, index, FragmentCount(p)) == [];
    } else {
      ListedAsSent(p, index, store, t - 1);
      NextSent(p, index, AfterSent(p, index, store, t - 1), t - 1);
    }
  }

  lemma NextSent(p: Packet, index: byte, store: Store, t: nat)
    requires t < FragmentCount(p) && Listed(store, index) == Tail(p, index, FragmentCount(p) - t)
    ensures var f := Split(p, index)[FragmentCount(p) - 1 - t]; var list := Tail(p, index, FragmentCount(p) - 1 - t);
      && SetIndex(f) == index && Count(f) == CountByte(p)
      && [f] + Listed(store, index) == list && |list| == t + 1
      && (t + 1 != CountByte(p) ==> Accept(store, f) == Accepted(store[index := list], Stored))
  {
    SplitShape(p, index);
  }

  /** What comes out of a frame whose fragments arrive as they are sent, whatever its size. Unless their
      number is a multiple of 256, as many of them as the count byte says are joined, and that is the
      end of the frame: all of it if there are at most 255, but otherwise only what follows the last
      multiple of 256 pieces, whatever it begins with. */
  lemma EndOfFrameArrives(p: Packet, index: byte, store: Store)
    requires index !in store && CountByte(p) != 0
    ensures CountByte(p) <= FragmentCount(p) && From(p, Ahead(p)) != []
    ensures forall t: nat :: t < CountByte(p) - 1 ==> OutcomeOfNext(p, index, store, t) == Stored
    ensures OutcomeOfNext(p, index, store, CountByte(p) - 1) == Delivered(From(p, Ahead(p)))
  {
    assert CountByte(p) <= FragmentCount(p) by { assert Ahead(p) >= 0; }
    TailJoins(p, index);
    forall t: nat | t < CountByte(p) - 1
      ensures OutcomeOfNext(p, index, store, t) == Stored
    {
      hide FragmentCount, CountByte, Split;
      ListedAsSent(p, index, store, t);
      NextSent(p, index, AfterSent(p, index, store, t), t);
    }
    LastSent(p, index, store);
  }

  lemma LastSent(p: Packet, index: byte, store: Store)
    requires index !in store && CountByte(p) != 0 && CountByte(p) <= FragmentCount(p) && From(p, Ahead(p)) != []
    ensures OutcomeOfNext(p, index, store, CountByte(p) - 1) == Delivered(From(p, Ahead(p)))
  {
    var t := CountByte(p) - 1;
    assert FragmentCount(p) - 1 - t == Ahead(p);
    hide FragmentCount, CountByte, Split, Ahead, From;
    ListedAsSent(p, index, store, t);
    NextSent(p, index, AfterSent(p, index, store, t), t);
    TailJoins(p, index);
  }

  /** Of a multiple of 256 fragments the count byte is 0, and none of them ever completes a set. */
  lemma CountZeroNeverCompletes(p: Packet, index: byte, store: Store, i: nat)
    requires CountByte(p) == 0 && i < FragmentCount(p)
    ensures Accept(store, Split(p, index)[i]).outcome == Stored
  {
    SplitShape(p, index);
  }

  /** The bound of 256 in HonestFragment is exact: the 257th fragment of any larger frame carries number 0
      and the byte at its place in the frame, and that byte becomes the header of a joined packet,
      alone when the count byte is 1, otherwise with the second fragment of any two-fragment frame. */
  lemma LargerFramesMix(p: Packet, other: Packet, index: byte)
    requires FragmentCount(p) > 256 && FragmentCount(other) == 2
    ensures 256 * ROOM < |p|
    ensures var first := Accept(map[], Split(p, index)[256]);
      if CountByte(p) == 1 then
        first.outcome.Delivered? && first.outcome.packet[0] == p[256 * ROOM]
      else
        var second := Accept(first.store, Split(other, index)[1]);
        first.outcome == Stored && second.outcome.Delivered? && second.outcome.packet[0] == p[256 * ROOM]
  {
    var f, g := Split(p, index)[256], Split(other, index)[1];
    SplitShape(p, index);
    PieceHead(p, index, 256);
    L.PiecesOfTwo(other, index);
    if CountByte(p) == 1 {
      OneJoins(f);
    } else {
      assert [f] + Listed(map[], index) == [f];
      assert [g] + Listed(map[index := [f]], index) == [g, f];
      L.JoinTwo(g, f);
    }
  }

  lemma OneJoins(f: Fragment)
    requires Number(f) == 0 && Count(f) == 1 && |f| > 4
    ensures Accept(map[], f).outcome == Delivered(Payload(f))
  {
    assert [f] + Listed(map[], SetIndex(f)) == [f];
    assert [f][1..] == [] && SortByNumber([f]) == [f];
    assert Payloads([f]) == Payload(f) + Payloads([]);
    JoinConcatenates([f], [f]);
  }
}
