/**
 Why ReorderedStream needs its conditions on the link: what left-over and duplicated fragments do.
*/
module LinkConditions {
  import opened Packets
  import opened Fragmentation
  import opened JoinTheorems
  import opened Reassembly
  import E = Endpoint
  import Wire

  lemma FirstOfTwo(f: Fragment)
    requires Count(f) == 2
    ensures Accept(map[], f) == Accepted(map[SetIndex(f) := [f]], Stored)
  {
    assert [f] + Listed(map[], SetIndex(f)) == [f];
  }

  lemma JoinTwo(second: Fragment, first: Fragment)
    requires Number(first) == 0 && Number(second) == 1 && |first| > 4 && |second| > 4
    ensures FromFragments([second, first]) == Whole(Payload(first) + Payload(second))
  {
    assert [second, first][1..] == [first];
    assert SortByNumber([first]) == [first];
    assert SortByNumber([second, first]) == Insert(second, [first]) == [first, second];
    assert [first, second][1..] == [second];
    assert Payloads([second]) == Payload(second);
  }

  /** Without eviction in between, a left-over fragment of packet k and one of packet k+256 are
      joined to a packet that nobody sent. */
  lemma WithoutEvictionSetsMix(earlier: Packet, later: Packet, index: byte)
    requires FragmentCount(earlier) == 2 && FragmentCount(later) == 2
    ensures |earlier| > ROOM && |later| > ROOM
    ensures var left := Accept(map[], Split(earlier, index)[0]).store;
      Accept(left, Split(later, index)[1]).outcome == Delivered(earlier[..ROOM] + later[ROOM..])
  {
    var first := Split(earlier, index)[0];
    var second := Split(later, index)[1];
    PiecesOfTwo(earlier, index);
    PiecesOfTwo(later, index);
    FirstOfTwo(first);
    assert [second] + Listed(map[index := [first]], index) == [second, first];
    JoinTwo(second, first);
  }

  lemma PiecesOfTwo(p: Packet, index: byte)
    requires FragmentCount(p) == 2
    ensures ROOM < |p|
    ensures var fs := Split(p, index);
      && Payload(fs[0]) == p[..ROOM] && Payload(fs[1]) == p[ROOM..] && |fs[0]| > 4 && |fs[1]| > 4
      && Number(fs[0]) == 0 && Number(fs[1]) == 1 && Count(fs[0]) == Count(fs[1]) == 2
      && SetIndex(fs[0]) == SetIndex(fs[1]) == index
  {
    var rest := p[Take(|p|)..];
    assert Chunks(p) == [p[..Take(|p|)]] + Chunks(rest);
    assert |Chunks(rest)| == 1;
    assert Chunks(rest[Take(|rest|)..]) == [];
    assert rest[..Take(|rest|)] == rest;
  }

  /** A duplicated fragment of a two-fragment packet completes a corrupt set. */
  lemma DuplicateCorrupts(p: Packet, index: byte, i: nat)
    requires FragmentCount(p) == 2 && i < 2
    ensures var f := Split(p, index)[i]; Accept(Accept(map[], f).store, f).outcome == Broken
  {
    var f := Split(p, index)[i];
    PiecesOfTwo(p, index);
    FirstOfTwo(f);
    var list := [f, f];
    assert [f] + Listed(map[index := [f]], index) == list;
    JoinExact(list);
    assert !Occurs(list, 1 - i);
  }

  /** Left-overs end the program: when an open connection has kept one fragment of a two-fragment frame and
      the other one got lost, the fragment with the same number of any two-fragment frame under the
      same index, as a new connection at the other end sends it, completes a corrupt set. */
  lemma LeftOverEndsProgram(p: Packet, q: Packet, index: byte, i: nat, s: E.Session, next: byte, env: E.Env)
    requires FragmentCount(p) == 2 && FragmentCount(q) == 2 && p[0] == DATA && q[0] == DATA && i < 2
    requires E.WellFormed(E.Up(s))
    ensures var left := Accept(map[], Split(p, index)[i]).store; var f := Split(q, index)[i];
      && left == map[index := [Split(p, index)[i]]] && HonestStore(left) && HonestFragment(f)
      && Wire.Receive(Wire.Live(s, next, left), f, env) == Wire.Crashed
  {
    var first, f := Split(p, index)[i], Split(q, index)[i];
    PiecesOfTwo(p, index);
    PiecesOfTwo(q, index);
    FirstOfTwo(first);
    assert CutFrom(first, p, index, i) && CutFrom(f, q, index, i);
    var left := map[index := [first]];
    assert [f] + Listed(left, index) == [f, first];
    assert !Occurs([f, first], 1 - i);
    BrokenExactly(left, f);
  }
}
