/**
 The local address check with which subnets are negotiated (src/Tun.cpp, isAddrspaceUnused). The list
 of used addresses comes from the operating system and is a parameter; None stands for a failed query.
*/
module Tun {
  import opened Packets

  datatype Option<+T> = None | Some(value: T)

  datatype Ipv4 = Ipv4(b0: byte, b1: byte, b2: byte, b3: byte)

  predicate InSubnet(a: Ipv4, subnet: byte) {
    a.b0 == 192 && a.b1 == 168 && a.b2 == subnet
  }

  predicate Unused(used: seq<Ipv4>, subnet: byte) {
    forall a <- used :: !InSubnet(a, subnet)
  }

  /** For each subnet the answer the operating system gives when that subnet is checked. */
  type Answers = a: seq<Option<seq<Ipv4>>> | |a| == 256 witness seq(256, _ => None)

  /** The subnets a check lets pass; a failed query counts as unused. */
  function Free(answers: Answers): set<byte> {
    set b: byte | answers[b].None? || Unused(answers[b].value, b)
  }

  /** The operating system did answer, and listed an address in 192.168.x. */
  predicate KnownUsed(answers: Answers, subnet: byte) {
    answers[subnet].Some? &&
    exists a :: a in answers[subnet].value && a.b0 == 192 && a.b1 == 168 && a.b2 == subnet
  }

  /** A check fails exactly on what is known to be in use. */
  lemma FreeExactly(answers: Answers)
    ensures forall b: byte :: b in Free(answers) <==> !KnownUsed(answers, b)
  {
    forall b: byte
      ensures b in Free(answers) <==> !KnownUsed(answers, b)
    {
      if answers[b].Some? && !Unused(answers[b].value, b) {
        var a :| a in answers[b].value && InSubnet(a, b);
        assert KnownUsed(answers, b);
      }
    }
  }

  method IsAddrspaceUnused(used: seq<Ipv4>, subnet: byte) returns (unused: bool)
    ensures unused <==> forall a <- used :: !(a.b0 == 192 && a.b1 == 168 && a.b2 == subnet)
  {
    for k := 0 to |used|
      invariant forall i :: 0 <= i < k ==> !InSubnet(used[i], subnet)
    {
      var addr := used[k];
      if addr.b0 != 192 || addr.b1 != 168 {
        continue;
      }
      if addr.b2 == subnet {
        assert InSubnet(addr, subnet) && addr in used;
        return false;
      }
    }
    return true;
  }
}
