/**
 Splitting a packet into fragments and joining fragments back (src/Data.cpp,
 Data::getSplitted and Data::fromFragments).
*/
module Fragmentation {
  import opened Packets

  // ---------------------------------------------------------------- splitting

  /** The size of the next piece. */
  function Take(left: nat): nat { if left < ROOM then left else ROOM }

  /** The pieces a packet is cut into, in order. */
  function Chunks(p: seq<byte>): seq<seq<byte>>
    decreases |p|
  {
    if p == [] then [] else [p[..Take(|p|)]] + Chunks(p[Take(|p|)..])
  }

  /** Number and count go through a one-byte narrowing. */
  function MakeFragment(index: byte, number: nat, count: nat, payload: seq<byte>): (f: Fragment)
    ensures |f| == 4 + |payload| && Payload(f) == payload
  {
    [FRAGMENT, index, number % 256, count % 256] + payload
  }

  function FragmentCount(p: seq<byte>): nat { |Chunks(p)| }

  /** All fragments of a packet, in number order. */
  function Split(p: seq<byte>, index: byte): (fs: seq<Fragment>)
    ensures |fs| == FragmentCount(p)
  {
    var cs := Chunks(p);
    seq(|cs|, i requires 0 <= i < |cs| => MakeFragment(index, i, |cs|, cs[i]))
  }

  lemma NextChunk(p: seq<byte>, pos: nat, cs: seq<seq<byte>>, n: nat)
    requires pos < |p| && n <= |cs| && cs[n..] == Chunks(p[pos..])
    ensures n < |cs| && cs[n] == p[pos..pos + Take(|p| - pos)]
    ensures cs[n + 1..] == Chunks(p[pos + Take(|p| - pos)..])
  {
    var rest := p[pos..];
    var take := Take(|rest|);
    assert rest[..take] == p[pos..pos + take] && rest[take..] == p[pos + take..];
    assert cs[n] == cs[n..][0] && cs[n + 1..] == cs[n..][1..];
  }

  /** The splitting loop. New fragments are pushed at the front, so the last piece comes first. */
  method CutPieces(p: Packet, index: byte) returns (list: seq<Fragment>)
    ensures |list| == FragmentCount(p)
    ensures forall j :: 0 <= j < |list| ==>
      list[j] == MakeFragment(index, |list| - 1 - j, 0, Chunks(p)[|list| - 1 - j])
  {
    ghost var cs := Chunks(p);
    var pos, n := 0, 0;
    list := [];
    while pos < |p|
      invariant 0 <= pos <= |p| && |list| == n <= |cs|
      invariant cs[n..] == Chunks(p[pos..])
      invariant forall j :: 0 <= j < n ==> list[j] == MakeFragment(index, n - 1 - j, 0, cs[n - 1 - j])
    {
      var take := Take(|p| - pos);
      NextChunk(p, pos, cs, n);
      list := [MakeFragment(index, n, 0, p[pos..pos + take])] + list;
      pos, n := pos + take, n + 1;
    }
    assert p[pos..] == [];
  }

  /** Cut the packet, then fill in the count byte, known only when all pieces are cut. */
  method GetSplitted(p: Packet, index: byte) returns (list: seq<Fragment>)
    ensures list == Reversed(Split(p, index))
  {
    list := CutPieces(p, index);
    forall j | 0 <= j < |list|
      ensures list[j][3 := |list| % 256] == Split(p, index)[|list| - 1 - j]
    {
      CountFilled(index, |list| - 1 - j, |list|, Chunks(p)[|list| - 1 - j]);
    }
    list := SetCounts(list);
  }

  lemma CountFilled(index: byte, number: nat, count: nat, payload: seq<byte>)
    ensures MakeFragment(index, number, 0, payload)[3 := count % 256] == MakeFragment(index, number, count, payload)
  {
  }

  /** The second pass: every fragment gets the count byte. */
  method SetCounts(fragments: seq<Fragment>) returns (list: seq<Fragment>)
    ensures |list| == |fragments|
    ensures forall i :: 0 <= i < |list| ==> list[i] == fragments[i][3 := |fragments| % 256]
  {
    list := fragments;
    for k := 0 to |list|
      invariant |list| == |fragments|
      invariant forall i :: 0 <= i < k ==> list[i] == fragments[i][3 := |fragments| % 256]
      invariant forall i :: k <= i < |list| ==> list[i] == fragments[i]
    {
      list := list[k := list[k][3 := |fragments| % 256]];
    }
  }

  // ------------------------------------------------------------------ joining

  datatype Joined = Whole(packet: Packet) | Corrupt

  function Insert(f: Fragment, fs: seq<Fragment>): seq<Fragment> {
    if fs == [] || Number(f) <= Number(fs[0]) then [f] + fs
    else [fs[0]] + Insert(f, fs[1..])
  }

  /** The stable sort by fragment number. */
  function SortByNumber(fs: seq<Fragment>): seq<Fragment> {
    if fs == [] then [] else Insert(fs[0], SortByNumber(fs[1..]))
  }

  function Payloads(fs: seq<Fragment>): seq<byte> {
    if fs == [] then [] else Payload(fs[0]) + Payloads(fs[1..])
  }

  /** Position i holds number i, and no payload is empty (reading byte 4 of an empty one fails). */
  predicate InSequence(fs: seq<Fragment>) {
    forall i :: 0 <= i < |fs| ==> Number(fs[i]) == i && |fs[i]| > 4
  }

  function AtLeastOneByte(bytes: seq<byte>): Packet {
    if bytes == [] then [0] else bytes
  }

  function FromFragments(fs: seq<Fragment>): Joined {
    var sorted := SortByNumber(fs);
    if InSequence(sorted) then Whole(AtLeastOneByte(Payloads(sorted))) else Corrupt
  }

  function PayloadBytes(fs: seq<Fragment>): nat {
    if fs == [] then 0 else |fs[0]| - 4 + PayloadBytes(fs[1..])
  }

  lemma {:induction false} PayloadsLength(fs: seq<Fragment>)
    ensures |Payloads(fs)| == PayloadBytes(fs)
  {
    if fs != [] { PayloadsLength(fs[1..]); }
  }

  lemma {:induction false} InsertKeeps(f: Fragment, fs: seq<Fragment>)
    ensures |Insert(f, fs)| == |fs| + 1
    ensures multiset(Insert(f, fs)) == multiset{f} + multiset(fs)
    ensures PayloadBytes(Insert(f, fs)) == |f| - 4 + PayloadBytes(fs)
  {
    if fs != [] {
      assert fs == [fs[0]] + fs[1..];
      if Number(f) > Number(fs[0]) {
        InsertKeeps(f, fs[1..]);
        assert Insert(f, fs)[1..] == Insert(f, fs[1..]);
      } else {
        assert Insert(f, fs)[1..] == fs;
      }
    }
  }

  lemma {:induction false} SortKeeps(fs: seq<Fragment>)
    ensures |SortByNumber(fs)| == |fs|
    ensures multiset(SortByNumber(fs)) == multiset(fs)
    ensures PayloadBytes(SortByNumber(fs)) == PayloadBytes(fs)
  {
    if fs != [] {
      assert fs == [fs[0]] + fs[1..];
      SortKeeps(fs[1..]);
      InsertKeeps(fs[0], SortByNumber(fs[1..]));
    }
  }

  /** The payloads of the first n fragments. */
  function PayloadsUpTo(fs: seq<Fragment>, n: nat): seq<byte>
    requires n <= |fs|
  {
    if n == 0 then [] else PayloadsUpTo(fs, n - 1) + Payload(fs[n - 1])
  }

  lemma {:induction false} PayloadsInTwo(fs: seq<Fragment>, n: nat)
    requires n <= |fs|
    ensures Payloads(fs) == PayloadsUpTo(fs, n) + Payloads(fs[n..])
    ensures |PayloadsUpTo(fs, n)| + PayloadBytes(fs[n..]) == PayloadBytes(fs)
  {
    PayloadsLength(fs);
    PayloadsLength(fs[n..]);
    if n > 0 {
      PayloadsInTwo(fs, n - 1);
      assert fs[n - 1..][1..] == fs[n..];
    } else {
      assert fs[0..] == fs;
    }
  }

  /** There is room in the buffer for one more fragment. */
  lemma RoomForNext(fs: seq<Fragment>, n: nat)
    requires n < |fs|
    ensures |PayloadsUpTo(fs, n)| + |fs[n]| - 4 <= PayloadBytes(fs)
  {
    PayloadsInTwo(fs, n + 1);
  }

  method TotalPayload(fragments: seq<Fragment>) returns (len: nat)
    ensures len == PayloadBytes(fragments)
  {
    len := 0;
    for k := 0 to |fragments|
      invariant len + PayloadBytes(fragments[k..]) == PayloadBytes(fragments)
    {
      assert fragments[k..][1..] == fragments[k + 1..];
      len := len + |fragments[k]| - 4;
    }
  }

  lemma Splice(now: seq<byte>, done: seq<byte>, initial: seq<byte>, pos: nat, f: Fragment)
    requires |done| == pos && pos + |f| - 4 <= |initial| && now == done + initial[pos..]
    ensures |now| == |initial|
    ensures now[..pos] + Payload(f) + now[pos + |f| - 4..] == (done + Payload(f)) + initial[pos + |f| - 4..]
  {
  }

  /** Check and copy fragment after fragment; false when a number is out of sequence or a payload empty. */
  method CopyInOrder(sorted: seq<Fragment>, buffer: array<byte>) returns (ok: bool)
    requires PayloadBytes(sorted) <= buffer.Length
    modifies buffer
    ensures ok <==> InSequence(sorted)
    ensures ok ==> buffer[..] == Payloads(sorted) + old(buffer[PayloadBytes(sorted)..])
  {
    var pos: nat, i: nat := 0, 0;
    while i < |sorted|
      invariant i <= |sorted| && forall j :: 0 <= j < i ==> Number(sorted[j]) == j && |sorted[j]| > 4
      invariant pos <= buffer.Length
      invariant buffer[..] == PayloadsUpTo(sorted, i) + old(buffer[pos..])
    {
      if i != Number(sorted[i]) || |sorted[i]| == 4 {
        return false;
      }
      RoomForNext(sorted, i);
      Splice(buffer[..], PayloadsUpTo(sorted, i), old(buffer[..]), pos, sorted[i]);
      CopyInto(buffer, pos, sorted[i]);
      pos, i := pos + |sorted[i]| - 4, i + 1;
    }
    PayloadsInTwo(sorted, |sorted|);
    return true;
  }

  /** Sort the list, then copy it into a buffer of the right length, at least one byte. */
  method JoinFragments(fragments: seq<Fragment>) returns (r: Joined)
    ensures r == FromFragments(fragments)
  {
    var len := TotalPayload(fragments);
    var buffer := new byte[if len == 0 then 1 else len](_ => 0);
    var sorted := SortByNumber(fragments);
    SortKeeps(fragments);
    PayloadsLength(sorted);
    ghost var rest := buffer[len..];
    assert rest == if len == 0 then [0] else [];
    var ok := CopyInOrder(sorted, buffer);
    assert Payloads(sorted) + rest == AtLeastOneByte(Payloads(sorted));
    r := if ok then Whole(buffer[..]) else Corrupt;
  }

  /** memcpy of a fragment's payload to buffer position pos. */
  method CopyInto(buffer: array<byte>, pos: nat, f: Fragment)
    requires pos + |f| - 4 <= buffer.Length
    modifies buffer
    ensures buffer[..] == old(buffer[..pos]) + Payload(f) + old(buffer[pos + |f| - 4..])
  {
    for k := 0 to |f| - 4
      invariant buffer[..] == old(buffer[..pos]) + f[4..4 + k] + old(buffer[pos + k..])
    {
      buffer[pos + k] := f[4 + k];
    }
  }
}
