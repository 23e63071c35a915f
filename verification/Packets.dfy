/**
 Byte packets as they cross the Tox link: the header byte, the packet kinds and the
 fixed-size control packets (src/Data.hpp, src/Data.cpp).
*/
module Packets {

  type byte = b: int | 0 <= b < 256

  /** A Data object holds at least one byte: the constructor rounds a zero length up to one. */
  type Packet = p: seq<byte> | |p| > 0 witness [0]

  type PacketLimit = n: int | n > 4 witness 5

  /** TOX_MAX_CUSTOM_PACKET_SIZE. Its value belongs to toxcore; only `MAX > 4` is used. */
  const MAX: PacketLimit

  /** Payload room of one fragment: four bytes go to header, set index, number and count. */
  const ROOM: int := MAX - 4

  const CONNECTION_REQUEST: byte := 160
  const CONNECTION_ACCEPT: byte := 161
  const CONNECTION_REJECT: byte := 162
  const CONNECTION_CLOSE: byte := 163
  const CONNECTION_RESET: byte := 164
  const IP_PROPOSAL: byte := 165
  const IP_ACCEPT: byte := 166
  const IP_REJECT: byte := 167
  const DATA: byte := 200
  const FRAGMENT: byte := 201

  /** What isValidFragment accepts. */
  predicate IsValidFragment(p: Packet) {
    p[0] == FRAGMENT && |p| >= 4
  }

  type Fragment = p: Packet | IsValidFragment(p) witness [201, 0, 0, 0]

  function SetIndex(f: Fragment): byte { f[1] }

  function Number(f: Fragment): byte { f[2] }

  function Count(f: Fragment): byte { f[3] }

  function Payload(f: Fragment): seq<byte> { f[4..] }

  function Reversed<T>(s: seq<T>): (r: seq<T>)
    ensures |r| == |s|
    ensures forall i :: 0 <= i < |s| ==> r[i] == s[|s| - 1 - i]
  {
    seq(|s|, i requires 0 <= i < |s| => s[|s| - 1 - i])
  }
}
