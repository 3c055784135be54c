/**
 HDLC framing as a bit stream: what the transmitter emits and what the receiver does with each bit.
 A payload octet is its eight bits least significant first; an HDLC octet is eight consecutive bits
 of the stream, which is most significant first. The byte loops of ax25class.cpp are proved against
 these functions in Ax25.dfy. All folds run over a prefix first, as the loops do.
*/
module Hdlc {
  import opened BitStrings

  /** 0x7E; it reads the same in both bit orders. */
  const FLAG: Bits := [false, true, true, true, true, true, true, false]

  /** 0xFE, least significant bit first. */
  const OCTET_FE: Bits := [false, true, true, true, true, true, true, true]

  /** A byte whose low bits are `bits` and whose other bits are 0 has the value of octet o. */
  predicate Matches(bits: Bits, o: Bits)
  {
    forall i: nat | i < 8 :: (i < |bits| && bits[i]) == (i < |o| && o[i])
  }

  // ---------- transmitter ----------

  /** Number of 1 bits that end the payload so far, counted from the last inserted 0. */
  function RunOf(bits: Bits): nat
  {
    if bits == [] || !bits[|bits| - 1] then 0
    else if RunOf(bits[..|bits| - 1]) == 4 then 0
    else RunOf(bits[..|bits| - 1]) + 1
  }

  /** The payload bits with a 0 inserted after every fifth consecutive 1. */
  function StuffBits(bits: Bits): Bits
  {
    if bits == [] then []
    else
      var sofar := StuffBits(bits[..|bits| - 1]);
      if !bits[|bits| - 1] then sofar + [false]
      else if RunOf(bits[..|bits| - 1]) == 4 then sofar + [true, false]
      else sofar + [true]
  }

  function StuffedPayload(p: seq<Bits>): Bits
  {
    StuffBits(Flatten(p))
  }

  function FlagBits(count: nat, flag: Bits): Bits
  {
    if count == 0 then [] else FlagBits(count - 1, flag) + flag
  }

  /** The complete octets of a bit stream; an incomplete tail is dropped. */
  function Pack(bits: Bits): (r: seq<Bits>)
    ensures |r| == |bits| / 8 && Octets(r)
  {
    seq(|bits| / 8, i requires 0 <= i < |bits| / 8 => bits[8 * i..8 * i + 8])
  }

  function Repeat(o: Bits, n: nat): (r: seq<Bits>)
    ensures |r| == n
  {
    seq(n, i => o)
  }

  /** The HDLC octets for a payload: leading flags, then payload and trailing flags as one bit stream. */
  function Frame(p: seq<Bits>, flagCount: nat, flag: Bits): seq<Bits>
    requires |flag| == 8
  {
    Repeat(Reverse(flag), flagCount) + Pack(StuffedPayload(p) + FlagBits(flagCount, flag))
  }

  // ---------- receiver ----------

  /** `bits` is the octet under construction. */
  datatype Rx = Rx(out: seq<Bits>, bits: Bits, run: nat, stopped: bool)

  const RX_START := Rx([], [], 0, false)

  /** The counter of 1s is a uint8 in the receiver and wraps. */
  function Inc8(n: nat): nat
  {
    (n + 1) % 256
  }

  /** One bit: a 0 after exactly five 1s is dropped; a complete octet is output, or ends the packet. */
  function RxBit(s: Rx, v: bool, flag: Bits): Rx
  {
    if s.stopped then s
    else if !v && s.run == 5 then s.(run := 0)
    else
      var bits := s.bits + [v];
      var run := if v then Inc8(s.run) else 0;
      if |bits| < 8 then s.(bits := bits, run := run)
      else if Matches(bits, flag) then Rx(s.out, bits, run, true)
      else Rx(s.out + [bits], [], run, false)
  }

  /** At the end of an HDLC octet the incomplete octet is compared with the flag as well. */
  function RxOctetEnd(s: Rx, flag: Bits): Rx
  {
    if Matches(s.bits, flag) then s.(stopped := true) else s
  }

  function RxBits(s: Rx, bits: Bits, flag: Bits): Rx
  {
    if bits == [] then s else RxBit(RxBits(s, bits[..|bits| - 1], flag), bits[|bits| - 1], flag)
  }

  /** One HDLC octet: octets equal to the flag are passed over wherever they stand. */
  function RxOctet(s: Rx, o: Bits, flag: Bits): Rx
    requires |flag| == 8
  {
    if s.stopped || o == Reverse(flag) then s else RxOctetEnd(RxBits(s, o, flag), flag)
  }

  function RxOctets(h: seq<Bits>, flag: Bits): Rx
    requires |flag| == 8
  {
    if h == [] then RX_START else RxOctet(RxOctets(h[..|h| - 1], flag), h[|h| - 1], flag)
  }

  function Unframe(h: seq<Bits>, flag: Bits): seq<Bits>
    requires |flag| == 8
  {
    RxOctets(h, flag).out
  }

  // ---------- what the round trip keeps ----------

  /**
   Octet i of the payload ends reception: a flag always does; 0xFE does when its first bit starts
   an HDLC octet, because then seven of its bits stand in the receiver at the end of that octet.
  */
  predicate StopsAt(p: seq<Bits>, i: nat)
    requires i < |p|
  {
    p[i] == FLAG || (p[i] == OCTET_FE && |StuffedPayload(p[..i])| % 8 == 0)
  }

  lemma StopsAtPrefix(p: seq<Bits>, n: nat)
    requires n <= |p|
    ensures forall i: nat {:trigger StopsAt(p, i)} | i < n :: StopsAt(p[..n], i) == StopsAt(p, i)
  {
    forall i: nat {:trigger StopsAt(p, i)} | i < n ensures StopsAt(p[..n], i) == StopsAt(p, i) {
      assert p[..n][..i] == p[..i];
    }
  }

  /** The number of payload octets before the first one that ends reception. */
  function Kept(p: seq<Bits>): (n: nat)
    ensures n <= |p|
    ensures n < |p| ==> StopsAt(p, n)
    ensures forall i: nat | i < n :: !StopsAt(p, i)
  {
    if p == [] then 0
    else
      var q := p[..|p| - 1];
      var n := Kept(q);
      StopsAtPrefix(p, |q|);
      if n < |q| || StopsAt(p, |q|) then n else |p|
  }
}
