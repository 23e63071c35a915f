/**
 What splitting and joining promise: splitting loses nothing and fits, joining succeeds exactly on a
 permutation of 0..n-1, ignores arrival order, and undoes splitting.
*/
module JoinTheorems {
  import opened Packets
  import opened Fragmentation

  // ------------------------------------------------------------ splitting fits

  lemma {:induction false} ChunkShape(p: seq<byte>, i: nat)
    requires i < FragmentCount(p)
    ensures 0 < |Chunks(p)[i]| <= ROOM
    ensures i < FragmentCount(p) - 1 ==> |Chunks(p)[i]| == ROOM
    decreases |p|
  {
    if i > 0 { ChunkShape(p[Take(|p|)..], i - 1); }
  }

  lemma {:induction false} ChunkBounds(p: seq<byte>)
    ensures (FragmentCount(p) - 1) * ROOM < |p| <= FragmentCount(p) * ROOM || (p == [] && FragmentCount(p) == 0)
    decreases |p|
  {
    if |p| > ROOM {
      ChunkBounds(p[ROOM..]);
      assert FragmentCount(p) == 1 + FragmentCount(p[ROOM..]);
    } else if p != [] {
      assert Chunks(p[|p|..]) == [];
      assert FragmentCount(p) == 1;
    }
  }

  lemma ChunkCount(p: seq<byte>)
    ensures FragmentCount(p) == (|p| + ROOM - 1) / ROOM
  {
    ChunkBounds(p);
    QuotientBetween(|p|, FragmentCount(p), ROOM);
  }

  lemma QuotientBetween(len: nat, count: nat, room: nat)
    requires room > 0
    requires (count - 1) * room < len <= count * room || (len == 0 && count == 0)
    ensures count == (len + room - 1) / room
  {
    if len == 0 {
      assert (room - 1) / room == 0;
    } else {
      var r := len + room - 1 - count * room;
      assert (count - 1) * room == count * room - room;
      assert len + room - 1 == count * room + r && 0 <= r < room;
      UniqueQuotient(len + room - 1, room, count, r);
    }
  }

  lemma UniqueQuotient(x: int, d: nat, q: int, r: int)
    requires d > 0 && x == q * d + r && 0 <= r < d
    ensures x / d == q
  {
    var k := x / d - q;
    assert x == (x / d) * d + x % d;
    assert k * d == r - x % d;
    assert 0 - d < k * d < d;
    assert k > 0 ==> k * d >= d;
    assert k < 0 ==> k * d <= 0 - d;
  }

  lemma {:induction false} PayloadsOfChunks(p: seq<byte>, fs: seq<Fragment>)
    requires |fs| == FragmentCount(p)
    requires forall i :: 0 <= i < |fs| ==> Payload(fs[i]) == Chunks(p)[i]
    ensures Payloads(fs) == p
    decreases |p|
  {
    if p != [] {
      var rest := p[Take(|p|)..];
      assert Chunks(p)[1..] == Chunks(rest);
      PayloadsOfChunks(rest, fs[1..]);
      assert p == p[..Take(|p|)] + rest;
    }
  }

  /** Sizes and tags of a packet's fragments. */
  lemma SplitShape(p: seq<byte>, index: byte)
    ensures var fs := Split(p, index);
      && (forall i :: 0 <= i < |fs| ==>
            4 < |fs[i]| <= MAX && SetIndex(fs[i]) == index && Count(fs[i]) == |fs| % 256 && Number(fs[i]) == i % 256)
      && (forall i :: 0 <= i < |fs| - 1 ==> |fs[i]| == MAX)
  {
    forall i | 0 <= i < FragmentCount(p)
      ensures 0 < |Chunks(p)[i]| <= ROOM
      ensures i < FragmentCount(p) - 1 ==> |Chunks(p)[i]| == ROOM
    {
      ChunkShape(p, i);
    }
  }

  /** Splitting conserves the bytes and every fragment fits: ceil(len / (MAX-4)) fragments, none
      empty, none above MAX, all but the last exactly MAX, payloads in order are the packet,
      and every fragment carries the same set index and count. */
  lemma SplitConservesAndFits(p: Packet, index: byte)
    ensures var fs := Split(p, index);
      && |fs| == (|p| + ROOM - 1) / ROOM
      && Payloads(fs) == p
      && (forall i :: 0 <= i < |fs| ==>
            4 < |fs[i]| <= MAX && SetIndex(fs[i]) == index && Count(fs[i]) == |fs| % 256 && Number(fs[i]) == i % 256)
      && (forall i :: 0 <= i < |fs| - 1 ==> |fs[i]| == MAX)
  {
    ChunkCount(p);
    PayloadsOfChunks(p, Split(p, index));
    SplitShape(p, index);
  }

  // --------------------------------------------------------- joining, any order

  /** n fragments among whose numbers each of 0..n-1 occurs: their numbers are a permutation of 0..n-1. */
  predicate NumberedAsPermutation(fs: seq<Fragment>) {
    forall n :: 0 <= n < |fs| ==> Occurs(fs, n)
  }

  predicate Occurs(fs: seq<Fragment>, n: int) {
    exists f :: f in fs && Number(f) == n
  }

  predicate Sorted(fs: seq<Fragment>) {
    forall i, j :: 0 <= i < j < |fs| ==> Number(fs[i]) <= Number(fs[j])
  }

  lemma {:induction false} InsertMembers(f: Fragment, fs: seq<Fragment>)
    ensures forall g :: g in Insert(f, fs) <==> g == f || g in fs
  {
    if fs != [] && Number(f) > Number(fs[0]) {
      InsertMembers(f, fs[1..]);
    }
  }

  lemma {:induction false} InsertSorts(f: Fragment, fs: seq<Fragment>)
    requires Sorted(fs)
    ensures Sorted(Insert(f, fs))
  {
    if fs != [] && Number(f) > Number(fs[0]) {
      InsertSorts(f, fs[1..]);
      InsertMembers(f, fs[1..]);
      var rest := Insert(f, fs[1..]);
      forall i | 0 <= i < |rest|
        ensures Number(fs[0]) <= Number(rest[i])
      {
        assert rest[i] in rest;
      }
    }
  }

  lemma {:induction false} SortSorts(fs: seq<Fragment>)
    ensures Sorted(SortByNumber(fs))
    ensures forall g :: g in SortByNumber(fs) <==> g in fs
  {
    if fs != [] {
      SortSorts(fs[1..]);
      InsertSorts(fs[0], SortByNumber(fs[1..]));
      InsertMembers(fs[0], SortByNumber(fs[1..]));
    }
  }

  lemma {:induction false} PositionAtLeast(s: seq<Fragment>, i: nat, j: nat)
    requires Sorted(s) && NumberedAsPermutation(s)
    requires i < |s| && j < |s| && Number(s[j]) == i
    ensures i <= j
  {
    if i > 0 {
      assert Occurs(s, i - 1);
      var k :| 0 <= k < |s| && Number(s[k]) == i - 1;
      PositionAtLeast(s, i - 1, k);
    }
  }

  lemma {:induction false} PositionAtMost(s: seq<Fragment>, i: nat, j: nat)
    requires Sorted(s) && NumberedAsPermutation(s)
    requires i < |s| && j < |s| && Number(s[j]) == i
    ensures j <= i
    decreases |s| - i
  {
    if i < |s| - 1 {
      assert Occurs(s, i + 1);
      var k :| 0 <= k < |s| && Number(s[k]) == i + 1;
      PositionAtMost(s, i + 1, k);
    }
  }

  /** A sorted sequence numbered as a permutation has number i at position i. */
  lemma SortedPermutation(s: seq<Fragment>)
    requires Sorted(s) && NumberedAsPermutation(s)
    ensures forall i :: 0 <= i < |s| ==> Number(s[i]) == i
  {
    forall i | 0 <= i < |s|
      ensures Number(s[i]) == i
    {
      assert Occurs(s, i);
      var k :| 0 <= k < |s| && Number(s[k]) == i;
      PositionAtLeast(s, i, k);
      PositionAtMost(s, i, k);
    }
  }

  lemma SameMembers(fs: seq<Fragment>, gs: seq<Fragment>)
    requires forall f :: f in fs <==> f in gs
    requires |fs| == |gs|
    ensures NumberedAsPermutation(fs) ==> NumberedAsPermutation(gs)
  {
    if NumberedAsPermutation(fs) {
      forall n | 0 <= n < |gs|
        ensures Occurs(gs, n)
      {
        assert Occurs(fs, n);
      }
    }
  }

  /** Joining succeeds exactly when no payload is empty and the numbers are a permutation of
      0..n-1. */
  lemma JoinExact(fs: seq<Fragment>)
    ensures FromFragments(fs).Whole? <==> (forall f <- fs :: |f| > 4) && NumberedAsPermutation(fs)
  {
    var s := SortByNumber(fs);
    SortKeeps(fs);
    SortSorts(fs);
    SameMembers(fs, s);
    SameMembers(s, fs);
    if (forall f <- fs :: |f| > 4) && NumberedAsPermutation(fs) {
      SortedPermutation(s);
      assert forall i :: 0 <= i < |s| ==> s[i] in fs;
    }
    if InSequence(s) {
      forall n | 0 <= n < |s|
        ensures Occurs(s, n)
      {
        assert s[n] in s;
      }
      forall f | f in fs
        ensures |f| > 4
      {
        assert f in s;
      }
    }
  }

  lemma MembersOf(fs: seq<Fragment>, gs: seq<Fragment>)
    requires multiset(fs) == multiset(gs)
    ensures |fs| == |gs|
    ensures forall f :: f in fs <==> f in gs
  {
    assert |fs| == |multiset(fs)| && |gs| == |multiset(gs)|;
    assert forall f :: f in fs <==> f in multiset(fs);
    assert forall f :: f in gs <==> f in multiset(gs);
  }

  /** If fragments numbered 0..n-1 are all among n received ones, sorting puts them back in order. */
  lemma SortRecovers(fs: seq<Fragment>, ordered: seq<Fragment>)
    requires InSequence(ordered) && |fs| == |ordered|
    requires forall f <- ordered :: f in fs
    ensures SortByNumber(fs) == ordered
  {
    var s := SortByNumber(fs);
    SortKeeps(fs);
    SortSorts(fs);
    forall n | 0 <= n < |s|
      ensures Occurs(s, n)
    {
      assert ordered[n] in s;
    }
    SortedPermutation(s);
    forall i | 0 <= i < |s|
      ensures s[i] == ordered[i]
    {
      assert ordered[i] in s;
    }
  }

  /** The outcome of joining does not depend on the order in which the fragments arrived. */
  lemma JoinIgnoresOrder(fs: seq<Fragment>, gs: seq<Fragment>)
    requires multiset(fs) == multiset(gs)
    ensures FromFragments(fs) == FromFragments(gs)
  {
    MembersOf(fs, gs);
    SortKeeps(fs);
    SortKeeps(gs);
    SortSorts(fs);
    SortSorts(gs);
    var s := SortByNumber(fs);
    var t := SortByNumber(gs);
    if InSequence(s) {
      SortRecovers(gs, s);
    } else if InSequence(t) {
      SortRecovers(fs, t);
    }
  }

  /** A successful join is the concatenation of the payloads in number order. */
  lemma JoinConcatenates(fs: seq<Fragment>, ordered: seq<Fragment>)
    requires multiset(fs) == multiset(ordered) && InSequence(ordered)
    ensures FromFragments(fs) == Whole(AtLeastOneByte(Payloads(ordered)))
  {
    MembersOf(fs, ordered);
    SortRecovers(fs, ordered);
  }

  lemma SplitInSequence(p: Packet, index: byte)
    requires FragmentCount(p) <= 256
    ensures InSequence(Split(p, index)) && Payloads(Split(p, index)) == p
  {
    SplitShape(p, index);
    PayloadsOfChunks(p, Split(p, index));
  }

  /** As many fragments as the split has, none of the split missing: joining gives the packet. */
  lemma JoinCovering(p: Packet, index: byte, fs: seq<Fragment>)
    requires FragmentCount(p) <= 256 && |fs| == FragmentCount(p)
    requires forall f <- Split(p, index) :: f in fs
    ensures FromFragments(fs) == Whole(p)
  {
    SplitInSequence(p, index);
    SortRecovers(fs, Split(p, index));
  }

  lemma TooManyFragments(p: Packet, index: byte)
    requires FragmentCount(p) > 256
    ensures FromFragments(Split(p, index)) == Corrupt
  {
    var fs := Split(p, index);
    JoinExact(fs);
    forall f | f in fs
      ensures Number(f) != 256
    {}
    assert !Occurs(fs, 256);
  }

  /** Split/join round trip, and its exact limit: for every rearrangement of a packet's fragments
      joining returns the packet if and only if there are at most 256 of them. (With 257 the
      number byte wraps, no fragment is numbered 256, and joining fails.) */
  lemma SplitJoinRoundTrip(p: Packet, index: byte, fs: seq<Fragment>)
    requires multiset(fs) == multiset(Split(p, index))
    ensures FragmentCount(p) <= 256 ==> FromFragments(fs) == Whole(p)
    ensures FragmentCount(p) > 256 ==> FromFragments(fs) == Corrupt
  {
    MembersOf(fs, Split(p, index));
    if FragmentCount(p) <= 256 {
      JoinCovering(p, index, fs);
    } else {
      JoinIgnoresOrder(fs, Split(p, index));
      TooManyFragments(p, index);
    }
  }
}
