/**
 An unbounded stream of split packets over the lossy, reordering link: the k-th split packet carries
 set index k mod 256 (src/Connection.cpp, sendToTox and handleFragment). Under bounded reordering the
 8-bit indices are safe: the receiver behaves like an ideal one that keeps whole packet numbers.
*/
module ReorderedStream {
  import opened Packets
  import opened Fragmentation
  import opened JoinTheorems
  import opened Reassembly
  import E = Endpoint
  import Wire

  /** Arrival of fragment `number` of the `packet`-th split packet. */
  datatype Arrival = Arrival(packet: nat, number: nat)

  type Trace = seq<Arrival>

  /** The fragment bytes that travel; the sender's counter wraps from 255 to 0. */
  function Sent(packets: seq<Packet>, a: Arrival): Fragment
    requires Exists(packets, a)
  {
    Split(packets[a.packet], a.packet % 256)[a.number]
  }

  predicate Exists(packets: seq<Packet>, a: Arrival) {
    a.packet < |packets| && a.number < FragmentCount(packets[a.packet]) <= 255
  }

  /** Every fragment of packet k is among the arrivals. */
  predicate FullyArrived(packets: seq<Packet>, trace: Trace, k: int) {
    && 0 <= k < |packets|
    && forall j: nat :: j < FragmentCount(packets[k]) ==> Arrival(k, j) in trace
  }

  /** What the link may do: lose, delay and reorder, but not duplicate; no fragment of packet q
      arrives after one of packet q+126 or later; and before a fragment of packet k+254 or later
      arrives, one of packets k+126, k+127, k+128 has arrived whole, if any of packet k has arrived. */
  ghost predicate Admissible(packets: seq<Packet>, trace: Trace) {
    && (forall t :: 0 <= t < |trace| ==> Exists(packets, trace[t]))
    && (forall s, t :: 0 <= s < t < |trace| ==> trace[s] != trace[t])
    && (forall s, t :: 0 <= s < t < |trace| ==> trace[s].packet < trace[t].packet + 126)
    && (forall s, t :: 0 <= s < t < |trace| && trace[t].packet >= trace[s].packet + 254 ==>
          OneOfThree(packets, trace, trace[s].packet + 126))
  }

  ghost predicate OneOfThree(packets: seq<Packet>, trace: Trace, k: int) {
    FullyArrived(packets, trace, k) || FullyArrived(packets, trace, k + 1) || FullyArrived(packets, trace, k + 2)
  }

  // ------------------------------------------------------ the sender's counter

  /** The sender's set index counter before it sends the k-th packet, starting from 0. */
  function Counter(packets: seq<Packet>, k: nat): byte
    requires k <= |packets|
  {
    if k == 0 then 0 else Wire.ToSend(packets[k - 1], Counter(packets, k - 1)).next
  }

  /** When all packets are too large for one tox packet, the k-th travels under index k mod 256. */
  lemma {:induction false} CounterWraps(packets: seq<Packet>, k: nat)
    requires k <= |packets| && forall i :: 0 <= i < k ==> |packets[i]| > MAX
    ensures Counter(packets, k) == k % 256
  {
    if k > 0 {
      CounterWraps(packets, k - 1);
      var before := Counter(packets, k - 1);
      assert Wire.ToSend(packets[k - 1], before).next == if before == 255 then 0 else before + 1;
    }
  }

  // ---------------------------------------------------------------- the run

  /** The receiver's store after the first t arrivals. */
  function StoreAfter(packets: seq<Packet>, trace: Trace, t: nat): Store
    requires t <= |trace| && forall i :: 0 <= i < |trace| ==> Exists(packets, trace[i])
  {
    if t == 0 then map[]
    else Accept(StoreAfter(packets, trace, t - 1), Sent(packets, trace[t - 1])).store
  }

  function OutcomeAt(packets: seq<Packet>, trace: Trace, t: nat): Outcome
    requires t < |trace| && forall i :: 0 <= i < |trace| ==> Exists(packets, trace[i])
  {
    Accept(StoreAfter(packets, trace, t), Sent(packets, trace[t])).outcome
  }

  /** The fragments of packet k among the first t arrivals, newest first. */
  function Collected(packets: seq<Packet>, trace: Trace, t: nat, k: nat): seq<Fragment>
    requires t <= |trace| && forall i :: 0 <= i < |trace| ==> Exists(packets, trace[i])
  {
    if t == 0 then []
    else if trace[t - 1].packet == k then [Sent(packets, trace[t - 1])] + Collected(packets, trace, t - 1, k)
    else Collected(packets, trace, t - 1, k)
  }

  function CollectedNumbers(trace: Trace, t: nat, k: nat): set<nat>
    requires t <= |trace|
  {
    if t == 0 then {}
    else if trace[t - 1].packet == k then {trace[t - 1].number} + CollectedNumbers(trace, t - 1, k)
    else CollectedNumbers(trace, t - 1, k)
  }

  /** A packet 126 to 128 later has arrived whole: set k has been evicted. */
  ghost predicate Stale(packets: seq<Packet>, trace: Trace, t: nat, k: nat)
    requires t <= |trace|
  {
    OneOfThree(packets, trace[..t], k + 126)
  }

  /** Packet k has an unfinished set in the store. */
  ghost predicate Live(packets: seq<Packet>, trace: Trace, t: nat, k: nat)
    requires t <= |trace| && forall i :: 0 <= i < |trace| ==> Exists(packets, trace[i])
  {
    && Collected(packets, trace, t, k) != []
    && !FullyArrived(packets, trace[..t], k)
    && !Stale(packets, trace, t, k)
  }

  /** The store holds exactly the live sets, each complete so far, under distinct indices. */
  ghost predicate StoreMatches(packets: seq<Packet>, trace: Trace, t: nat)
    requires t <= |trace| && forall i :: 0 <= i < |trace| ==> Exists(packets, trace[i])
  {
    var store := StoreAfter(packets, trace, t);
    && (forall k: nat :: Live(packets, trace, t, k) ==>
          Listed(store, k % 256) == Collected(packets, trace, t, k))
    && (forall b <- store :: exists k: nat :: Live(packets, trace, t, k) && k % 256 == b)
  }

  // ------------------------------------------------------------- collecting

  lemma {:induction false} CollectedMembers(packets: seq<Packet>, trace: Trace, t: nat, k: nat)
    requires t <= |trace| && forall i :: 0 <= i < |trace| ==> Exists(packets, trace[i])
    ensures forall j: nat :: j in CollectedNumbers(trace, t, k) <==> Arrival(k, j) in trace[..t]
    ensures forall j: nat :: j in CollectedNumbers(trace, t, k) ==>
      k < |packets| && j < FragmentCount(packets[k]) && Sent(packets, Arrival(k, j)) in Collected(packets, trace, t, k)
    ensures Collected(packets, trace, t, k) == [] <==> CollectedNumbers(trace, t, k) == {}
  {
    if t > 0 {
      CollectedMembers(packets, trace, t - 1, k);
      assert trace[..t] == trace[..t - 1] + [trace[t - 1]];
    }
  }

  lemma {:induction false} CollectedCount(packets: seq<Packet>, trace: Trace, t: nat, k: nat)
    requires t <= |trace| && forall i :: 0 <= i < |trace| ==> Exists(packets, trace[i])
    requires forall s, t :: 0 <= s < t < |trace| ==> trace[s] != trace[t]
    ensures |Collected(packets, trace, t, k)| == |CollectedNumbers(trace, t, k)|
  {
    if t > 0 {
      CollectedCount(packets, trace, t - 1, k);
      CollectedMembers(packets, trace, t - 1, k);
      if trace[t - 1].packet == k {
        assert Arrival(k, trace[t - 1].number) == trace[t - 1];
        assert trace[t - 1] !in trace[..t - 1];
      }
    }
  }

  function Below(n: nat): (s: set<nat>)
    ensures forall j: nat :: j in s <==> j < n
    ensures |s| == n
  {
    if n == 0 then {} else Below(n - 1) + {n - 1}
  }

  lemma FullSubset(s: set<nat>, n: nat)
    requires s <= Below(n)
    ensures |s| == n <==> forall j: nat :: j < n ==> j in s
  {
    if forall j: nat :: j < n ==> j in s {
      assert forall j :: j in Below(n) ==> j in s;
      assert s == Below(n);
    }
    if |s| == n {
      assert |Below(n) - s| == 0;
      assert Below(n) - s == {};
      assert forall j :: j in Below(n) ==> j in s;
    }
  }

  /** A set is as long as its count byte says exactly when the packet has fully arrived. */
  lemma FullWhenCounted(packets: seq<Packet>, trace: Trace, t: nat, k: nat)
    requires t <= |trace| && forall i :: 0 <= i < |trace| ==> Exists(packets, trace[i])
    requires forall s, t :: 0 <= s < t < |trace| ==> trace[s] != trace[t]
    requires k < |packets|
    ensures |Collected(packets, trace, t, k)| == FragmentCount(packets[k]) <==> FullyArrived(packets, trace[..t], k)
  {
    CollectedMembers(packets, trace, t, k);
    CollectedCount(packets, trace, t, k);
    FullSubset(CollectedNumbers(trace, t, k), FragmentCount(packets[k]));
  }

  lemma CompletedJoins(packets: seq<Packet>, trace: Trace, t: nat, k: nat)
    requires t <= |trace| && forall i :: 0 <= i < |trace| ==> Exists(packets, trace[i])
    requires k < |packets| && FragmentCount(packets[k]) <= 255
    requires |Collected(packets, trace, t, k)| == FragmentCount(packets[k])
    requires FullyArrived(packets, trace[..t], k)
    ensures FromFragments(Collected(packets, trace, t, k)) == Whole(packets[k])
  {
    var fs := Collected(packets, trace, t, k);
    CollectedMembers(packets, trace, t, k);
    forall f | f in Split(packets[k], k % 256)
      ensures f in fs
    {
      var j: nat :| j < FragmentCount(packets[k]) && Split(packets[k], k % 256)[j] == f;
      assert Arrival(k, j) in trace[..t];
    }
    JoinCovering(packets[k], k % 256, fs);
  }

  // ------------------------------------------------------------ the invariant

  /** A whole packet arrived before t only if one of its fragments did. */
  lemma FullHasArrival(packets: seq<Packet>, trace: Trace, t: nat, p: nat)
    requires t <= |trace| && FullyArrived(packets, trace[..t], p)
    ensures exists s :: 0 <= s < t && trace[s].packet == p
  {
    HeadOfSplit(packets[p], 0);
    assert Arrival(p, 0) in trace[..t];
  }

  /** When a fragment of packet p arrives, every whole packet at least 126 older has already fully arrived. */
  lemma OldPacketsSettled(packets: seq<Packet>, trace: Trace, t: nat, p: nat)
    requires Admissible(packets, trace) && t < |trace|
    requires trace[t].packet >= p + 126 && FullyArrived(packets, trace, p)
    ensures FullyArrived(packets, trace[..t], p)
  {
    forall j: nat | j < FragmentCount(packets[p])
      ensures Arrival(p, j) in trace[..t]
    {
      var s :| 0 <= s < |trace| && trace[s] == Arrival(p, j);
      assert s < t;
      assert trace[..t][s] == trace[s];
    }
  }

  /** A packet of which something has arrived is stale before one 254 later has an arrival. */
  lemma StaleBeforeReuse(packets: seq<Packet>, trace: Trace, s: nat, t: nat)
    requires Admissible(packets, trace) && s < t < |trace|
    requires trace[t].packet >= trace[s].packet + 254
    ensures Stale(packets, trace, t, trace[s].packet)
  {
    var k := trace[s].packet + 126;
    assert OneOfThree(packets, trace, k);
    var p: nat :| k <= p <= k + 2 && FullyArrived(packets, trace, p);
    OldPacketsSettled(packets, trace, t, p);
  }

  /** A set that still lives is not of a packet 254 or more behind an arriving one. */
  lemma NotLiveBeforeReuse(packets: seq<Packet>, trace: Trace, t: nat, k: nat)
    requires Admissible(packets, trace) && t < |trace|
    requires trace[t].packet >= k + 254
    ensures !Live(packets, trace, t, k)
  {
    if Live(packets, trace, t, k) {
      CollectedMembers(packets, trace, t, k);
      var j :| j in CollectedNumbers(trace, t, k);
      var s :| 0 <= s < t && trace[s] == Arrival(k, j);
      StaleBeforeReuse(packets, trace, s, t);
      assert false;
    }
  }

  /** An arriving fragment's own set is neither evicted nor finished. */
  lemma ArrivingIsOpen(packets: seq<Packet>, trace: Trace, t: nat)
    requires Admissible(packets, trace) && t < |trace|
    ensures !Stale(packets, trace, t, trace[t].packet)
    ensures !FullyArrived(packets, trace[..t], trace[t].packet)
  {
    var k := trace[t].packet;
    if Stale(packets, trace, t, k) {
      var p: nat :| k + 126 <= p <= k + 128 && FullyArrived(packets, trace[..t], p);
      FullHasArrival(packets, trace, t, p);
      assert false;
    }
    assert trace[t] == Arrival(k, trace[t].number);
    assert trace[t] !in trace[..t];
  }

  /** A live set lies strictly between 254 behind and 126 ahead of the arriving packet. */
  lemma LiveWindow(packets: seq<Packet>, trace: Trace, t: nat, k: nat)
    requires Admissible(packets, trace) && t < |trace|
    requires Live(packets, trace, t, k)
    ensures trace[t].packet - 254 < k < trace[t].packet + 126
  {
    CollectedMembers(packets, trace, t, k);
    var j :| j in CollectedNumbers(trace, t, k);
    var s :| 0 <= s < t && trace[s] == Arrival(k, j);
    assert trace[s].packet < trace[t].packet + 126;
    if trace[t].packet >= k + 254 { NotLiveBeforeReuse(packets, trace, t, k); }
  }

  lemma {:induction false} UnopenedIndexFree(packets: seq<Packet>, trace: Trace, t: nat)
    requires Admissible(packets, trace) && t < |trace|
    requires StoreMatches(packets, trace, t)
    requires Collected(packets, trace, t, trace[t].packet) == []
    ensures trace[t].packet % 256 !in StoreAfter(packets, trace, t)
  {
    forall k: nat | Live(packets, trace, t, k)
      ensures k % 256 != trace[t].packet % 256
    {
      LiveWindow(packets, trace, t, k);
      WindowIndices(trace[t].packet, k);
    }
  }

  lemma ListBeforeArrival(packets: seq<Packet>, trace: Trace, t: nat)
    requires Admissible(packets, trace) && t < |trace|
    requires StoreMatches(packets, trace, t)
    ensures Listed(StoreAfter(packets, trace, t), trace[t].packet % 256)
         == Collected(packets, trace, t, trace[t].packet)
  {
    if Collected(packets, trace, t, trace[t].packet) == [] {
      UnopenedIndexFree(packets, trace, t);
    } else {
      ArrivingIsOpen(packets, trace, t);
    }
  }

  lemma SentShape(packets: seq<Packet>, a: Arrival)
    requires Exists(packets, a)
    ensures SetIndex(Sent(packets, a)) == a.packet % 256
    ensures Count(Sent(packets, a)) == FragmentCount(packets[a.packet])
  {
  }

  /** The list that an arrival completes or prolongs, and when it counts as complete. */
  lemma {:induction false} ListAfterArrival(packets: seq<Packet>, trace: Trace, t: nat)
    requires Admissible(packets, trace) && t < |trace|
    requires StoreMatches(packets, trace, t)
    ensures var k := trace[t].packet; var f := Sent(packets, trace[t]);
      && SetIndex(f) == k % 256
      && Collected(packets, trace, t + 1, k) == [f] + Listed(StoreAfter(packets, trace, t), k % 256)
      && (|Collected(packets, trace, t + 1, k)| == Count(f) <==> FullyArrived(packets, trace[..t + 1], k))
  {
    ListBeforeArrival(packets, trace, t);
    FullWhenCounted(packets, trace, t + 1, trace[t].packet);
    SentShape(packets, trace[t]);
  }

  /** What one arrival does, in terms of whole packet numbers. */
  lemma {:induction false} OneArrival(packets: seq<Packet>, trace: Trace, t: nat)
    requires Admissible(packets, trace) && t < |trace|
    requires StoreMatches(packets, trace, t)
    ensures var k := trace[t].packet; var store := StoreAfter(packets, trace, t);
      if FullyArrived(packets, trace[..t + 1], k) then
        OutcomeAt(packets, trace, t) == Delivered(packets[k])
        && StoreAfter(packets, trace, t + 1) == store - Erased(k % 256)
      else
        OutcomeAt(packets, trace, t) == Stored
        && StoreAfter(packets, trace, t + 1) == store[k % 256 := Collected(packets, trace, t + 1, k)]
  {
    var k := trace[t].packet;
    var list := Collected(packets, trace, t + 1, k);
    ListAfterArrival(packets, trace, t);
    if FullyArrived(packets, trace[..t + 1], k) {
      FullWhenCounted(packets, trace, t + 1, k);
      CompletedJoins(packets, trace, t + 1, k);
    }
    AcceptByCount(StoreAfter(packets, trace, t), Sent(packets, trace[t]), list);
  }

  lemma AcceptByCount(store: Store, f: Fragment, list: seq<Fragment>)
    requires list == [f] + Listed(store, SetIndex(f))
    ensures |list| != Count(f) ==> Accept(store, f) == Accepted(store[SetIndex(f) := list], Stored)
    ensures |list| == Count(f) ==> Accept(store, f).store == store - Erased(SetIndex(f))
    ensures |list| == Count(f) && FromFragments(list).Whole? ==>
      Accept(store, f).outcome == Delivered(FromFragments(list).packet)
  {
  }

  lemma SameResidue(a: int, b: int)
    requires -256 < a - b < 256
    ensures a % 256 == b % 256 <==> a == b
  {
  }

  lemma ShiftedResidue(k: int, c: int)
    ensures (k % 256 + c) % 256 == (k + c - 256) % 256
  {
    assert (k + c - 256) % 256 == (k % 256 + c + 256 * (k / 256 - 1)) % 256;
  }

  /** Inside the window, index arithmetic modulo 256 identifies packet numbers: only the packet's
      own set shares its index, and only the sets 126 to 128 behind are erased with it. */
  lemma WindowIndices(k: nat, k': nat)
    requires k - 254 < k' < k + 126 && k' != k
    ensures k' % 256 != k % 256
    ensures k' % 256 in Erased(k % 256) <==> k' + 126 <= k <= k' + 128
  {
    SameResidue(k', k);
    ShiftedResidue(k, 128);
    ShiftedResidue(k, 129);
    ShiftedResidue(k, 130);
    SameResidue(k', k - 128);
    SameResidue(k', k - 127);
    SameResidue(k', k - 126);
  }

  lemma OthersUnaffected(packets: seq<Packet>, trace: Trace, t: nat, k: nat)
    requires t < |trace| && trace[t].packet != k
    requires forall i :: 0 <= i < |trace| ==> Exists(packets, trace[i])
    ensures Collected(packets, trace, t + 1, k) == Collected(packets, trace, t, k)
    ensures FullyArrived(packets, trace[..t + 1], k) == FullyArrived(packets, trace[..t], k)
  {
    assert trace[..t + 1] == trace[..t] + [trace[t]];
  }

  /** Which sets are live after an arrival. */
  lemma LiveAfter(packets: seq<Packet>, trace: Trace, t: nat, k': nat)
    requires Admissible(packets, trace) && t < |trace|
    ensures var k := trace[t].packet; var full := FullyArrived(packets, trace[..t + 1], k);
      Live(packets, trace, t + 1, k') <==>
        if k' == k then !full else Live(packets, trace, t, k') && !(full && k' + 126 <= k <= k' + 128)
  {
    var k := trace[t].packet;
    ArrivingIsOpen(packets, trace, t);
    forall p: nat | p != k
      ensures FullyArrived(packets, trace[..t + 1], p) == FullyArrived(packets, trace[..t], p)
    {
      OthersUnaffected(packets, trace, t, p);
    }
    if k' != k { OthersUnaffected(packets, trace, t, k'); }
  }

  lemma {:induction false} ListsStep(packets: seq<Packet>, trace: Trace, t: nat, k': nat)
    requires Admissible(packets, trace) && t < |trace|
    requires StoreMatches(packets, trace, t)
    requires Live(packets, trace, t + 1, k')
    ensures Listed(StoreAfter(packets, trace, t + 1), k' % 256) == Collected(packets, trace, t + 1, k')
  {
    OneArrival(packets, trace, t);
    LiveAfter(packets, trace, t, k');
    if k' != trace[t].packet {
      OthersUnaffected(packets, trace, t, k');
      LiveWindow(packets, trace, t, k');
      WindowIndices(trace[t].packet, k');
    }
  }

  lemma {:induction false} OwnersStep(packets: seq<Packet>, trace: Trace, t: nat, b: byte)
    requires Admissible(packets, trace) && t < |trace|
    requires StoreMatches(packets, trace, t)
    requires b in StoreAfter(packets, trace, t + 1)
    ensures exists k': nat :: Live(packets, trace, t + 1, k') && k' % 256 == b
  {
    var k := trace[t].packet;
    OneArrival(packets, trace, t);
    if b == k % 256 {
      LiveAfter(packets, trace, t, k);
    } else {
      var k': nat :| Live(packets, trace, t, k') && k' % 256 == b;
      LiveAfter(packets, trace, t, k');
      LiveWindow(packets, trace, t, k');
      WindowIndices(k, k');
    }
  }

  lemma StoreMatchesStep(packets: seq<Packet>, trace: Trace, t: nat)
    requires Admissible(packets, trace) && t < |trace|
    requires StoreMatches(packets, trace, t)
    ensures StoreMatches(packets, trace, t + 1)
  {
    forall k: nat | Live(packets, trace, t + 1, k)
      ensures Listed(StoreAfter(packets, trace, t + 1), k % 256) == Collected(packets, trace, t + 1, k)
    {
      ListsStep(packets, trace, t, k);
    }
    var after := StoreAfter(packets, trace, t + 1);
    forall b | b in after
      ensures exists k: nat :: Live(packets, trace, t + 1, k) && k % 256 == b
    {
      OwnersStep(packets, trace, t, b);
    }
  }

  lemma StoreMatchesStart(packets: seq<Packet>, trace: Trace)
    requires forall i :: 0 <= i < |trace| ==> Exists(packets, trace[i])
    ensures StoreMatches(packets, trace, 0)
  {
    assert StoreAfter(packets, trace, 0) == map[];
    assert forall k: nat :: !Live(packets, trace, 0, k);
  }

  lemma StoreAlwaysMatches(packets: seq<Packet>, trace: Trace, t: nat)
    requires Admissible(packets, trace) && t <= |trace|
    ensures StoreMatches(packets, trace, t)
  {
    StoreMatchesStart(packets, trace);
    for i := 0 to t
      invariant StoreMatches(packets, trace, i)
    {
      StoreMatchesStep(packets, trace, i);
    }
  }

  /** The list under index b is the set of packet k, all its fragments that have arrived. */
  ghost predicate HoldsSetOf(packets: seq<Packet>, trace: Trace, t: nat, b: byte, k: nat)
    requires t <= |trace| && forall i :: 0 <= i < |trace| ==> Exists(packets, trace[i])
  {
    && k % 256 == b && Live(packets, trace, t, k)
    && Listed(StoreAfter(packets, trace, t), b) == Collected(packets, trace, t, k)
  }

  /** Whatever the store holds is the unfinished set of one packet. */
  lemma StoreHoldsSets(packets: seq<Packet>, trace: Trace, t: nat, b: byte) returns (k: nat)
    requires Admissible(packets, trace) && t <= |trace| && b in StoreAfter(packets, trace, t)
    ensures HoldsSetOf(packets, trace, t, b, k)
  {
    StoreAlwaysMatches(packets, trace, t);
    hide Live, StoreAfter, Collected, Admissible, Exists;
    k :| Live(packets, trace, t, k) && k % 256 == b;
  }

  /** Before packet k+254, let alone k+256 which reuses its index, sends anything that arrives,
      set k is gone from the store: every list there is the set of a packet other than k. */
  lemma GoneBeforeReuse(packets: seq<Packet>, trace: Trace, t: nat, k: nat)
    requires Admissible(packets, trace) && t < |trace|
    requires trace[t].packet >= k + 254
    ensures var store := StoreAfter(packets, trace, t);
      forall b <- store :: exists k': nat :: k' != k && HoldsSetOf(packets, trace, t, b, k')
  {
    var store := StoreAfter(packets, trace, t);
    NotLiveBeforeReuse(packets, trace, t, k);
    hide Live, StoreAfter, Collected, Admissible, Exists;
    forall b | b in store
      ensures exists k': nat :: k' != k && HoldsSetOf(packets, trace, t, b, k')
    {
      var k' := StoreHoldsSets(packets, trace, t, b);
    }
  }

  // ------------------------------------------------------------ main results

  /** At every arrival: if it completes its packet, exactly that packet is delivered; otherwise
      the fragment is stored. Nothing else is ever delivered and no set is ever corrupt. */
  lemma {:induction false} StreamReassembles(packets: seq<Packet>, trace: Trace, t: nat)
    requires Admissible(packets, trace) && t < |trace|
    ensures OutcomeAt(packets, trace, t) ==
      if FullyArrived(packets, trace[..t + 1], trace[t].packet) then Delivered(packets[trace[t].packet]) else Stored
  {
    StoreAlwaysMatches(packets, trace, t);
    OneArrival(packets, trace, t);
  }

  ghost predicate DeliversPacket(packets: seq<Packet>, trace: Trace, t: nat, k: nat)
    requires Admissible(packets, trace)
  {
    && t < |trace| && trace[t].packet == k && k < |packets|
    && OutcomeAt(packets, trace, t) == Delivered(packets[k])
  }

  lemma {:induction false} CompleteIsDelivered(packets: seq<Packet>, trace: Trace, k: nat) returns (t: nat)
    requires Admissible(packets, trace) && FullyArrived(packets, trace, k) && FragmentCount(packets[k]) <= 255
    ensures DeliversPacket(packets, trace, t, k)
  {
    assert trace[..|trace|] == trace;
    t := FirstFull(packets, trace, k, |trace|);
    StreamReassembles(packets, trace, t);
  }

  lemma {:induction false} DeliveredIsComplete(packets: seq<Packet>, trace: Trace, k: nat, t: nat)
    requires Admissible(packets, trace) && DeliversPacket(packets, trace, t, k)
    ensures FullyArrived(packets, trace, k)
  {
    StreamReassembles(packets, trace, t);
    assert forall a :: a in trace[..t + 1] ==> a in trace;
  }

  /** A packet is delivered if and only if all its fragments arrive, and then exactly once: with
      its last fragment. */
  lemma {:induction false} DeliveredExactlyOnce(packets: seq<Packet>, trace: Trace, k: nat)
    requires Admissible(packets, trace) && k < |packets| && FragmentCount(packets[k]) <= 255
    ensures FullyArrived(packets, trace, k) <==> exists t: nat :: DeliversPacket(packets, trace, t, k)
    ensures forall s: nat, t: nat ::
      DeliversPacket(packets, trace, s, k) && DeliversPacket(packets, trace, t, k) ==> s == t
  {
    if FullyArrived(packets, trace, k) {
      var _ := CompleteIsDelivered(packets, trace, k);
    }
    forall t: nat | DeliversPacket(packets, trace, t, k)
      ensures FullyArrived(packets, trace, k)
    {
      DeliveredIsComplete(packets, trace, k, t);
    }
    forall s: nat, t: nat | DeliversPacket(packets, trace, s, k) && DeliversPacket(packets, trace, t, k)
      ensures s == t
    {
      NotDeliveredBefore(packets, trace, s, t, k);
      NotDeliveredBefore(packets, trace, t, s, k);
    }
  }

  lemma NotDeliveredBefore(packets: seq<Packet>, trace: Trace, s: nat, t: nat, k: nat)
    requires Admissible(packets, trace) && DeliversPacket(packets, trace, t, k)
    requires DeliversPacket(packets, trace, s, k)
    ensures s >= t
  {
    StreamReassembles(packets, trace, s);
    ArrivingIsOpen(packets, trace, t);
    NotFullEarlier(packets, trace, if s < t then s + 1 else 0, t, k);
  }

  lemma NotFullEarlier(packets: seq<Packet>, trace: Trace, s: nat, t: nat, k: nat)
    requires s <= t <= |trace| && !FullyArrived(packets, trace[..t], k)
    ensures !FullyArrived(packets, trace[..s], k)
  {
    assert forall a :: a in trace[..s] ==> a in trace[..t];
  }

  lemma {:induction false} FirstFull(packets: seq<Packet>, trace: Trace, k: nat, t: nat) returns (first: nat)
    requires Admissible(packets, trace) && t <= |trace| && FullyArrived(packets, trace[..t], k)
    ensures first < t && trace[first].packet == k && FullyArrived(packets, trace[..first + 1], k)
  {
    FullHasArrival(packets, trace, t, k);
    if trace[t - 1].packet == k {
      first := t - 1;
    } else {
      OthersUnaffected(packets, trace, t - 1, k);
      first := FirstFull(packets, trace, k, t - 1);
    }
  }

  /** The same for the connected receiver as a whole: an arriving fragment hands exactly the packet it
      completes to the tun device, and does nothing else to be seen outside. */
  lemma {:induction false} ReceiverHandsOver(packets: seq<Packet>, trace: Trace, t: nat,
                                             s: E.Session, next: byte, env: E.Env)
    requires Admissible(packets, trace) && t < |trace|
    requires forall i :: 0 <= i < |packets| ==> packets[i][0] == DATA
    requires E.WellFormed(E.Up(s)) && s.phase == E.Connected
    ensures var k := trace[t].packet;
      Wire.Receive(Wire.Live(s, next, StoreAfter(packets, trace, t)), Sent(packets, trace[t]), env) ==
        Wire.Received(Wire.Live(s, next, StoreAfter(packets, trace, t + 1)), [], [],
                      if FullyArrived(packets, trace[..t + 1], k) then [packets[k]] else [])
  {
    StreamReassembles(packets, trace, t);
    HandOver(StoreAfter(packets, trace, t), Sent(packets, trace[t]), s, next, env);
  }

  /** What a connected end does with a fragment, given what the store does with it. */
  lemma HandOver(store: Store, f: Fragment, s: E.Session, next: byte, env: E.Env)
    requires E.WellFormed(E.Up(s)) && s.phase == E.Connected
    ensures var a := Accept(store, f); var r := Wire.Receive(Wire.Live(s, next, store), f, env);
      && (a.outcome == Stored ==> r == Wire.Received(Wire.Live(s, next, a.store), [], [], []))
      && (a.outcome.Delivered? && a.outcome.packet[0] == DATA ==>
            r == Wire.Received(Wire.Live(s, next, a.store), [], [], [a.outcome.packet]))
  {
    var a := Accept(store, f);
    assert f[0] == FRAGMENT;
    assert Wire.EncodeAll([]) == [];
    if a.outcome.Delivered? && a.outcome.packet[0] == DATA {
      assert Unwrap(a.store, a.outcome.packet) == Unwrapped(a.store, Plain(a.outcome.packet));
    }
  }

  /** Eviction is harmless: whatever set a completion erases besides its own belongs to a packet of
      which no fragment arrives any more. */
  lemma {:induction false} EvictionHarmless(packets: seq<Packet>, trace: Trace, t: nat, b: byte, later: nat)
    returns (k: nat)
    requires Admissible(packets, trace) && t < later < |trace|
    requires OutcomeAt(packets, trace, t).Delivered?
    requires b in StoreAfter(packets, trace, t) && b in Erased(trace[t].packet % 256) && b != trace[t].packet % 256
    ensures HoldsSetOf(packets, trace, t, b, k) && trace[later].packet != k
    ensures trace[t].packet - 128 <= k <= trace[t].packet - 126
  {
    k := StoreHoldsSets(packets, trace, t, b);
    LiveWindow(packets, trace, t, k);
    WindowIndices(trace[t].packet, k);
    assert trace[t].packet < trace[later].packet + 126;
  }
}
