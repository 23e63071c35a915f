/**
 Streams without end: the conditions on the link stated once for all time, and shown to give the
 conditions of ReorderedStream at every moment.
*/
module EndlessStream {
  import opened Packets
  import opened Fragmentation
  import opened ReorderedStream

  /** Every fragment of packet k arrives some time. */
  ghost predicate ArrivesWhole(source: nat -> Packet, arrivals: nat -> Arrival, k: nat) {
    forall j: nat :: j < FragmentCount(source(k)) ==> exists t: nat :: arrivals(t) == Arrival(k, j)
  }

  ghost predicate OneOfThreeWhole(source: nat -> Packet, arrivals: nat -> Arrival, k: nat) {
    ArrivesWhole(source, arrivals, k) || ArrivesWhole(source, arrivals, k + 1) || ArrivesWhole(source, arrivals, k + 2)
  }

  /** An endless stream of packets of at most 255 fragments each, and an endless run of arrivals:
      no duplicates, no fragment of packet q after one of packet q+126 or later, and of any three
      consecutive packets at least one arrives whole. */
  ghost predicate AdmissibleForever(source: nat -> Packet, arrivals: nat -> Arrival) {
    && (forall t: nat :: arrivals(t).number < FragmentCount(source(arrivals(t).packet)) <= 255)
    && (forall s: nat, t: nat :: s < t ==> arrivals(s) != arrivals(t))
    && (forall s: nat, t: nat :: s < t ==> arrivals(s).packet < arrivals(t).packet + 126)
    && (forall k: nat :: OneOfThreeWhole(source, arrivals, k))
  }

  function Prefix<T>(f: nat -> T, n: nat): (s: seq<T>)
    ensures |s| == n && forall i: nat :: i < n ==> s[i] == f(i)
  {
    seq(n, i requires 0 <= i < n => f(i))
  }

  lemma WholeByThen(source: nat -> Packet, arrivals: nat -> Arrival, m: nat, n: nat, p: nat, t: nat)
    requires AdmissibleForever(source, arrivals) && ArrivesWhole(source, arrivals, p)
    requires t < n && p < m && arrivals(t).packet >= p + 126
    ensures FullyArrived(Prefix(source, m), Prefix(arrivals, n), p)
  {
    var trace := Prefix(arrivals, n);
    forall j: nat | j < FragmentCount(source(p))
      ensures Arrival(p, j) in trace
    {
      var s: nat :| arrivals(s) == Arrival(p, j);
      assert s <= t;
      assert trace[s] == Arrival(p, j);
    }
  }

  /** Every prefix of such a stream is admissible; so everything above holds at every moment of it. */
  lemma PrefixAdmissible(source: nat -> Packet, arrivals: nat -> Arrival, m: nat, n: nat)
    requires AdmissibleForever(source, arrivals)
    requires forall t: nat :: t < n ==> arrivals(t).packet < m
    ensures Admissible(Prefix(source, m), Prefix(arrivals, n))
  {
    var packets, trace := Prefix(source, m), Prefix(arrivals, n);
    forall s, t | 0 <= s < t < n && trace[t].packet >= trace[s].packet + 254
      ensures OneOfThree(packets, trace, trace[s].packet + 126)
    {
      var k := trace[s].packet + 126;
      assert OneOfThreeWhole(source, arrivals, k);
      var p: nat :| k <= p <= k + 2 && ArrivesWhole(source, arrivals, p);
      WholeByThen(source, arrivals, m, n, p, t);
    }
  }
}
