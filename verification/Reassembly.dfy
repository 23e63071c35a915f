/**
 The receiver's store of unfinished fragment sets (src/Connection.cpp, Connection::handleFragment)
 and the mutual recursion of handleData and handleFragment.
*/
module Reassembly {
  import opened Packets
  import opened Fragmentation
  import opened JoinTheorems

  /** Per set index the fragments received so far, newest first. */
  type Store = map<byte, seq<Fragment>>

  datatype Outcome = Stored | Delivered(packet: Packet) | Broken

  datatype Accepted = Accepted(store: Store, outcome: Outcome)

  function Listed(store: Store, index: byte): seq<Fragment> {
    if index in store then store[index] else []
  }

  /** The indices erased when set `index` completes. */
  function Erased(index: byte): set<byte> {
    {index, (index + 128) % 256, (index + 129) % 256, (index + 130) % 256}
  }

  /** One fragment arrives: it is listed under its set index; when the list is as long as the
      fragment's count byte says, the set is taken out, three old indices are evicted and the
      list is joined. */
  function Accept(store: Store, f: Fragment): Accepted {
    var index := SetIndex(f);
    var list := [f] + Listed(store, index);
    if |list| == Count(f) then
      Accepted(store - Erased(index),
               match FromFragments(list)
               case Whole(p) => Delivered(p)
               case Corrupt => Broken)
    else
      Accepted(store[index := list], Stored)
  }

  // ------------------------------------------------- nested packets terminate

  function Bytes(fs: seq<Fragment>): nat {
    if fs == [] then 0 else |fs[0]| + Bytes(fs[1..])
  }

  function BytesBelow(store: Store, n: nat): nat
    requires n <= 256
  {
    if n == 0 then 0 else BytesBelow(store, n - 1) + Bytes(Listed(store, n - 1))
  }

  /** All bytes waiting in the store. */
  function StoreBytes(store: Store): nat { BytesBelow(store, 256) }

  lemma {:induction false} BytesBelowChange(s: Store, t: Store, i: byte, n: nat)
    requires n <= 256
    requires forall b: byte :: b != i ==> Bytes(Listed(t, b)) <= Bytes(Listed(s, b))
    ensures BytesBelow(t, n) + (if i < n then Bytes(Listed(s, i)) else 0)
         <= BytesBelow(s, n) + (if i < n then Bytes(Listed(t, i)) else 0)
  {
    if n > 0 {
      BytesBelowChange(s, t, i, n - 1);
      var b: byte := n - 1;
      assert b != i ==> Bytes(Listed(t, b)) <= Bytes(Listed(s, b));
    }
  }

  lemma {:induction false} BytesSplit(fs: seq<Fragment>)
    ensures Bytes(fs) == PayloadBytes(fs) + 4 * |fs|
  {
    if fs != [] { BytesSplit(fs[1..]); }
  }

  lemma JoinedLength(fs: seq<Fragment>)
    requires fs != [] && FromFragments(fs).Whole?
    ensures |FromFragments(fs).packet| == PayloadBytes(fs) == Bytes(fs) - 4 * |fs|
  {
    var s := SortByNumber(fs);
    SortKeeps(fs);
    PayloadsLength(s);
    BytesSplit(fs);
    assert Payloads(s) == Payload(s[0]) + Payloads(s[1..]);
  }

  /** Completing a set pays four bytes per fragment: bytes in the store plus the bytes in hand
      drop by at least that much. This is what ends the recursion of handleData and
      handleFragment on packets nested in fragments. */
  lemma CompletionPays(store: Store, f: Fragment)
    requires Accept(store, f).outcome.Delivered?
    ensures StoreBytes(Accept(store, f).store) + |Accept(store, f).outcome.packet| + 4 * Count(f)
         <= StoreBytes(store) + |f|
    ensures Count(f) > 0
  {
    var index := SetIndex(f);
    var list := [f] + Listed(store, index);
    BytesBelowChange(store, Accept(store, f).store, index, 256);
    JoinedLength(list);
    assert list[1..] == Listed(store, index);
  }

  datatype Content = Plain(packet: Packet) | Held | Crash

  datatype Unwrapped = Unwrapped(store: Store, content: Content)

  /** What finally comes out of an arriving packet: a packet that is no fragment, nothing (the
      fragment was kept or is too short), or a corrupt set. */
  function Unwrap(store: Store, p: Packet): Unwrapped
    decreases StoreBytes(store) + |p|
  {
    if p[0] != FRAGMENT then Unwrapped(store, Plain(p))
    else if !IsValidFragment(p) then Unwrapped(store, Held)
    else
      var a := Accept(store, p);
      match a.outcome
      case Stored => Unwrapped(a.store, Held)
      case Broken => Unwrapped(a.store, Crash)
      case Delivered(q) =>
        CompletionPays(store, p);
        Unwrap(a.store, q)
  }

  /** No reassembly, however nested, creates bytes. */
  lemma {:induction false} UnwrapConserves(store: Store, p: Packet)
    ensures var u := Unwrap(store, p);
      StoreBytes(u.store) + (if u.content.Plain? then |u.content.packet| else 0) <= StoreBytes(store) + |p|
    decreases StoreBytes(store) + |p|
  {
    if IsValidFragment(p) {
      var a := Accept(store, p);
      BytesBelowChange(store, a.store, SetIndex(p), 256);
      assert ([p] + Listed(store, SetIndex(p)))[1..] == Listed(store, SetIndex(p));
      if a.outcome.Delivered? {
        CompletionPays(store, p);
        UnwrapConserves(a.store, a.outcome.packet);
      }
    }
  }

  // ------------------------------------------- honest fragments give only Data

  /** A fragment as the code itself sends it: cut from a Data packet of at most 256 fragments. (Of a larger
      one a later piece carries number 0 again; Oversize shows what comes of that.) */
  ghost predicate HonestFragment(f: Fragment) {
    exists p: Packet, index: byte, i: nat :: CutFrom(f, p, index, i)
  }

  predicate CutFrom(f: Fragment, p: Packet, index: byte, i: nat) {
    && p[0] == DATA && FragmentCount(p) <= 256
    && i < FragmentCount(p) && f == Split(p, index)[i]
  }

  ghost predicate HonestStore(store: Store) {
    forall index <- store, f <- store[index] :: HonestFragment(f)
  }

  lemma FirstPieceIsHead(f: Fragment, p: Packet, index: byte, i: nat)
    requires CutFrom(f, p, index, i) && Number(f) == 0
    ensures |f| > 4 && f[4] == DATA
  {
    SplitShape(p, index);
    HeadOfSplit(p, index);
  }

  lemma JoinedHonest(fs: seq<Fragment>)
    requires fs != [] && FromFragments(fs).Whole?
    requires forall f <- fs :: HonestFragment(f)
    ensures FromFragments(fs).packet[0] == DATA
  {
    var s := SortByNumber(fs);
    SortKeeps(fs);
    SortSorts(fs);
    assert s[0] in s;
    var p, index, i :| CutFrom(s[0], p, index, i);
    FirstPieceIsHead(s[0], p, index, i);
    assert Payloads(s) == Payload(s[0]) + Payloads(s[1..]);
    assert Payload(s[0])[0] == DATA;
  }

  /** Whatever mixture of honest sets shares an index, a packet joined from honest fragments has
      header Data: fragments cannot mimic control packets. */
  lemma HonestStaysData(store: Store, f: Fragment)
    requires HonestStore(store) && HonestFragment(f)
    ensures HonestStore(Accept(store, f).store)
    ensures Accept(store, f).outcome.Delivered? ==> Accept(store, f).outcome.packet[0] == DATA
  {
    var list := [f] + Listed(store, SetIndex(f));
    assert forall g <- list :: HonestFragment(g);
    if Accept(store, f).outcome.Delivered? {
      JoinedHonest(list);
    }
  }

  lemma HeadOfSplit(p: Packet, index: byte)
    ensures |Split(p, index)| > 0 && |Split(p, index)[0]| > 4 && Split(p, index)[0][4] == p[0]
  {
    SplitShape(p, index);
    ChunkShape(p, 0);
  }

  /** The same for handleData as a whole: an honest fragment ends as nothing, as a Data packet, or
      as a corrupt set. */
  lemma HonestUnwrap(store: Store, f: Fragment)
    requires HonestStore(store) && HonestFragment(f)
    ensures var u := Unwrap(store, f);
      && HonestStore(u.store)
      && (u.content.Plain? ==> u.content.packet[0] == DATA)
  {
    HonestStaysData(store, f);
  }

  // ------------------------------------------------------- when a set is corrupt

  /** The fragment makes its list as long as its count byte says, but the numbers in the list are not a
      permutation of 0..n-1 or a payload is empty. */
  predicate CompletesCorrupt(store: Store, f: Fragment) {
    var list := [f] + Listed(store, SetIndex(f));
    |list| == Count(f) && !(NumberedAsPermutation(list) && forall g <- list :: |g| > 4)
  }

  lemma BrokenExactly(store: Store, f: Fragment)
    ensures Accept(store, f).outcome == Broken <==> CompletesCorrupt(store, f)
  {
    JoinExact([f] + Listed(store, SetIndex(f)));
  }

  /** Handling a packet ends on a corrupt set exactly when it is a fragment that completes one, or that
      completes a good set whose joined packet ends so in turn. */
  lemma CrashExactly(store: Store, p: Packet)
    ensures Unwrap(store, p).content == Crash <==>
      IsValidFragment(p) && (CompletesCorrupt(store, p) ||
        (Accept(store, p).outcome.Delivered? &&
         Unwrap(Accept(store, p).store, Accept(store, p).outcome.packet).content == Crash))
  {
    if IsValidFragment(p) { BrokenExactly(store, p); }
  }

  /** On honest fragments there is no nesting: the first case is the only one. */
  lemma HonestCrashExactly(store: Store, f: Fragment)
    requires HonestStore(store) && HonestFragment(f)
    ensures Unwrap(store, f).content == Crash <==> CompletesCorrupt(store, f)
  {
    CrashExactly(store, f);
    HonestStaysData(store, f);
  }

  // --------------------------------------------------------------- size limit

  predicate FitsLink(f: Fragment) { |f| <= MAX }

  lemma {:induction false} PayloadBound(fs: seq<Fragment>)
    requires forall f <- fs :: FitsLink(f)
    ensures PayloadBytes(fs) <= |fs| * ROOM
  {
    if fs != [] {
      PayloadBound(fs[1..]);
      assert FitsLink(fs[0]);
      assert |fs| * ROOM == (|fs| - 1) * ROOM + ROOM;
    }
  }

  lemma SmallSetsJoinSmall(fs: seq<Fragment>, p: Packet)
    requires fs != [] && |fs| <= 255 && FragmentCount(p) > 255
    requires forall f <- fs :: FitsLink(f)
    ensures FromFragments(fs) != Whole(p)
  {
    ChunkBounds(p);
    PayloadBound(fs);
    assert |p| > (FragmentCount(p) - 1) * ROOM;
    Monotone(255, FragmentCount(p) - 1, ROOM);
    Monotone(|fs|, 255, ROOM);
    if FromFragments(fs).Whole? { JoinedLength(fs); }
  }

  lemma Monotone(a: nat, b: nat, c: nat)
    requires a <= b
    ensures a * c <= b * c
  {
  }

  /** No set of fragments that crossed the link, its own among them, ever joins to a packet of more than
      255 fragments, whose count byte wraps. */
  lemma LargeNeverJoins(store: Store, f: Fragment, p: Packet)
    requires FitsLink(f) && forall i <- store, g <- store[i] :: FitsLink(g)
    requires FragmentCount(p) > 255
    ensures Accept(store, f).outcome != Delivered(p)
  {
    var list := [f] + Listed(store, SetIndex(f));
    assert forall g <- list :: FitsLink(g);
    if |list| <= 255 { SmallSetsJoinSmall(list, p); }
  }

  lemma HonestFits(f: Fragment)
    requires HonestFragment(f)
    ensures FitsLink(f)
  {
    var p: Packet, index: byte, i: nat :| CutFrom(f, p, index, i);
    SplitShape(p, index);
  }

  /** Nor does it come out of handling a fragment as a whole, nested or not, as long as all fragments were
      cut from Data packets of at most 256 fragments. */
  lemma LargePacketsNeverArrive(store: Store, f: Fragment, p: Packet)
    requires HonestStore(store) && HonestFragment(f)
    requires FragmentCount(p) > 255
    ensures Unwrap(store, f).content != Plain(p)
  {
    HonestFits(f);
    forall i, g | i in store && g in store[i]
      ensures FitsLink(g)
    {
      HonestFits(g);
    }
    LargeNeverJoins(store, f, p);
    HonestStaysData(store, f);
  }
}
