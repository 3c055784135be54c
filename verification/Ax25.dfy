/** ax25class.cpp: AX.25 frames, their frame check sequence, and HDLC bit stuffing. */
module Ax25 {
  import opened BitStrings
  import opened Crc
  import opened Crc16Lib
  import Hdlc
  import HdlcProofs

  const GENERAL_ERROR_CRC := -2007
  const GENERAL_ERROR_BAD_SIZE := -2014

  const HEADER_SIZE := 16

  type Callsign = c: seq<Octet> | |c| == 6 witness seq(6, i => Zeros(8))

  /** The header as it lies in memory, field by field. */
  datatype Header = Header(
    destination: Callsign, destinationStation: Octet,
    source: Callsign, sourceStation: Octet,
    control: Octet, protocol: Octet)
  {
    function Bytes(): (r: seq<Octet>)
      ensures |r| == HEADER_SIZE
    {
      destination + [destinationStation] + source + [sourceStation, control, protocol]
    }
  }

  function HeaderFrom(bytes: seq<Octet>): (h: Header)
    requires |bytes| == HEADER_SIZE
    ensures h.Bytes() == bytes
  {
    Header(bytes[..6], bytes[6], bytes[7..13], bytes[13], bytes[14], bytes[15])
  }

  /** 0x20, the space that fills up a short callsign. */
  const SPACE: Octet := Nibble(0) + Nibble(2)

  /** Characters lie in the upper seven bits of a callsign's bytes. */
  function CallsignOf(text: seq<Octet>): (c: Callsign)
  {
    seq(6, i requires 0 <= i < 6 => [false] + (if i < |text| then text[i] else SPACE)[..7])
  }

  function TextOf(c: Callsign): (text: seq<Octet>)
  {
    seq(6, i requires 0 <= i < 6 => c[i][1..] + [false])
  }

  /** As numbers: twice the character, cut to eight bits, and 0x40 for those that are missing. */
  lemma {:induction false} CallsignValues(text: seq<Octet>, i: nat)
    requires i < 6
    ensures Value(CallsignOf(text)[i]) == if i < |text| then 2 * Value(text[i]) % 256 else 0x40
  {
    var o := if i < |text| then text[i] else SPACE;
    ValueOfShifted(o);
    if i >= |text| {
      ValueOfSpace();
    }
  }

  lemma {:induction false} ValueOfShifted(o: Octet)
    ensures Value([false] + o[..7]) == 2 * Value(o) % 256
  {
    hide Value, Power2;
    ValueSnoc(o[..7], o[7]);
    assert o == o[..7] + [o[7]];
    FromNatOfValue(o[..7]);
    ValueCons(false, o[..7]);
    assert Power2(7) == 128 by { SmallPowers(); }
  }

  lemma {:induction false} SmallPowers()
    ensures Power2(7) == 128
  {
  }

  lemma {:induction false} ValueCons(b: bool, bits: Bits)
    ensures Value([b] + bits) == (if b then 1 else 0) + 2 * Value(bits)
  {
    assert ([b] + bits)[1..] == bits;
  }

  lemma {:induction false} ValueOfSpace()
    ensures Value(SPACE) == 0x20
  {
    hide Value;
    var one: Bits := [true, false, false];
    assert Value(one) == 1 by {
      ValueCons(false, []);
      ValueCons(false, [false]);
      ValueCons(true, [false, false]);
      assert [false] + [] == [false] && [false] + [false] == [false, false] && [true] + [false, false] == one;
      ValueOfNothing();
    }
    ValueCons(false, one);
    ValueCons(false, [false] + one);
    ValueCons(false, [false] + ([false] + one));
    ValueCons(false, [false] + ([false] + ([false] + one)));
    ValueCons(false, [false] + ([false] + ([false] + ([false] + one))));
    assert SPACE == [false] + ([false] + ([false] + ([false] + ([false] + one))));
  }

  lemma {:induction false} ValueOfNothing()
    ensures Value([]) == 0
  {
  }

  /** The loop of the two setters of a callsign. */
  method WriteCallsign(text: seq<Octet>) returns (c: Callsign)
    ensures c == CallsignOf(text)
  {
    var bytes: seq<Octet> := [];
    for i := 0 to 6
      invariant bytes == CallsignOf(text)[..i]
    {
      var letter: Octet := if i >= |text| then SPACE else text[i];
      bytes := bytes + [[false] + letter[..7]];
    }
    c := bytes;
  }

  /** The loop of the two getters of a callsign. */
  method ReadCallsign(c: Callsign) returns (text: seq<Octet>)
    ensures text == TextOf(c)
  {
    text := [];
    for i := 0 to 6
      invariant text == TextOf(c)[..i]
    {
      text := text + [c[i][1..] + [false]];
    }
  }

  /** Six letters of seven bits come back as they were set, and no other text does. */
  lemma {:induction false} CallsignComesBack(text: seq<Octet>)
    ensures TextOf(CallsignOf(text)) == text <==> |text| == 6 && forall i | 0 <= i < 6 :: !text[i][7]
  {
    var back := TextOf(CallsignOf(text));
    forall i | 0 <= i < 6 && i < |text| ensures back[i] == text[i] <==> !text[i][7] {
      assert back[i] == text[i][..7] + [false];
      assert text[i] == text[i][..7] + [text[i][7]];
    }
  }

  // ---------- frames ----------

  /** The polynomial 0x1021 of the "hdlc" entry, and its 0xffff. */
  const HDLC_POLYNOMIAL: Word := Hex(0x1, 0x0, 0x2, 0x1)
  const ONES: Word := Hex(0xf, 0xf, 0xf, 0xf)

  function Fcs(covered: seq<Octet>): (w: Word)
  {
    CrcOf(HDLC_POLYNOMIAL, ONES, ONES, true, covered)
  }

  /** The size of the covered part reaches the CRC as a uint16. */
  function Covered(bytes: seq<Octet>): seq<Octet>
  {
    bytes[..|bytes| % SIZE_UINT16]
  }

  /** The frame that carries data under a header. */
  function FrameOf(header: Header, data: seq<Octet>): seq<Octet>
  {
    var body := header.Bytes() + data;
    body + [Fcs(Covered(body))[..8], Fcs(Covered(body))[8..]]
  }

  /** The check that unload makes: the last two bytes are the FCS of the bytes before them. */
  predicate Accepted(frame: seq<Octet>)
    requires |frame| >= 2
  {
    var n := |frame| - 2;
    Join(frame[n], frame[n + 1]) == Fcs(Covered(frame[..n]))
  }

  // ---------- HDLC packets of bytes ----------

  /** HDLC bytes carry the bit stream most significant bit first. */
  function StuffedPacket(payload: seq<Octet>, flagCount: nat, flag: Octet): seq<Bits>
  {
    ReverseAll(Hdlc.Frame(payload, flagCount, flag))
  }

  function UnstuffedPacket(packet: seq<Octet>, flag: Octet): seq<Bits>
  {
    Hdlc.Unframe(ReverseAll(packet), flag)
  }

  // ---------- the transmitter's byte under construction ----------

  /** The bits of an incomplete last byte, first bit in bit 7. */
  function Unfinished(bits: Bits): (o: Octet)
  {
    var tail := bits[8 * (|bits| / 8)..];
    Zeros(8 - |tail|) + Reverse(tail)
  }

  ghost predicate Sending(lead: seq<Octet>, packet: seq<Octet>, byte: Octet, bitCount: nat, bits: Bits)
  {
    packet == lead + ReverseAll(Hdlc.Pack(bits)) && byte == Unfinished(bits) && bitCount == 7 - |bits| % 8
  }

  /** `--n` on a uint8. */
  function Dec8(n: nat): nat
  {
    (n + 255) % 256
  }

  function SetBit(byte: Octet, k: nat, v: bool): (o: Octet)
    requires k < 8
  {
    if v then byte[k := true] else byte
  }

  /** Packing one more bit completes a byte or leaves the complete ones as they are. */
  lemma {:induction false} PackNext(bits: Bits, v: bool)
    ensures var tail := bits[8 * (|bits| / 8)..];
      && Hdlc.Pack(bits + [v]) == Hdlc.Pack(bits) + (if |tail| == 7 then [tail + [v]] else [])
      && (bits + [v])[8 * (|bits + [v]| / 8)..] == if |tail| == 7 then [] else tail + [v]
  {
    var n := |bits| / 8;
    var all, tail := bits + [v], bits[8 * n..];
    assert all[8 * n..] == tail + [v];
    forall i: nat | i < n ensures Hdlc.Pack(all)[i] == Hdlc.Pack(bits)[i] {
      assert all[8 * i..8 * i + 8] == bits[8 * i..8 * i + 8];
    }
    if |tail| == 7 {
      assert all[8 * n..8 * n + 8] == tail + [v];
    }
  }

  lemma {:induction false} UnfinishedNext(bits: Bits, v: bool)
    ensures var tail := bits[8 * (|bits| / 8)..];
      SetBit(Unfinished(bits), 7 - |bits| % 8, v) == Zeros(7 - |tail|) + Reverse(tail + [v])
  {
  }

  /** One more bit of the stream, as the byte loop puts it down. */
  lemma {:induction false} SendBit(lead: seq<Octet>, packet: seq<Octet>, byte: Octet, bitCount: nat,
      bits: Bits, v: bool)
    requires Sending(lead, packet, byte, bitCount, bits)
    ensures var b := SetBit(byte, bitCount, v);
            if Dec8(bitCount) > 7 then Sending(lead, packet + [b], Zeros(8), 7, bits + [v])
            else Sending(lead, packet, b, Dec8(bitCount), bits + [v])
  {
    hide Hdlc.Pack, SetBit;
    var tail := bits[8 * (|bits| / 8)..];
    PackNext(bits, v);
    UnfinishedNext(bits, v);
    if |tail| == 7 {
      assert ReverseAll(Hdlc.Pack(bits + [v])) == ReverseAll(Hdlc.Pack(bits)) + [Reverse(tail + [v])];
      assert Zeros(0) + Reverse(tail + [v]) == Reverse(tail + [v]);
      assert Zeros(8) + Reverse([]) == Zeros(8);
    }
  }

  lemma {:induction false} SendNothing(lead: seq<Octet>)
    ensures Sending(lead, lead, Zeros(8), 7, [])
  {
  }

  lemma {:induction false} SendDone(payload: seq<Octet>, flagCount: nat, flag: Octet,
                                    packet: seq<Octet>, byte: Octet, bitCount: nat)
    requires Sending(seq(flagCount, i => flag), packet, byte, bitCount,
                     Hdlc.StuffedPayload(payload) + Hdlc.FlagBits(flagCount, flag))
    ensures packet == StuffedPacket(payload, flagCount, flag)
  {
    hide Hdlc.StuffedPayload, Hdlc.FlagBits, Hdlc.Pack;
    var flags := Hdlc.Repeat(Reverse(flag), flagCount);
    ReverseTwice(flag);
    assert ReverseAll(flags) == seq(flagCount, i => flag);
    var rest := Hdlc.Pack(Hdlc.StuffedPayload(payload) + Hdlc.FlagBits(flagCount, flag));
    assert ReverseAll(flags + rest) == ReverseAll(flags) + ReverseAll(rest);
  }

  lemma {:induction false} NoFlagBits(flag: Octet)
    ensures Hdlc.FlagBits(0, flag) == []
    ensures forall n: nat :: Hdlc.FlagBits(n + 1, flag) == Hdlc.FlagBits(n, flag) + flag
  {
  }

  lemma {:induction false} SendStart()
    ensures Flatten([]) == [] && Hdlc.RunOf([]) == 0 && Hdlc.StuffBits([]) == []
  {
  }

  lemma {:induction false} NextBit(before: Bits, o: Octet, k: nat)
    requires k < 8
    ensures before + o[..k] + [o[k]] == before + o[..k + 1]
  {
  }

  lemma {:induction false} NextOctet(packet: seq<Octet>, i: nat)
    requires i < |packet|
    ensures Flatten(packet[..i]) + packet[i][..8] == Flatten(packet[..i + 1])
  {
    assert packet[..i + 1][..i] == packet[..i];
  }

  // ---------- the receiver's byte under construction ----------

  /** The receiver's variables stand for state s, in the middle of a packet. */
  ghost predicate Receiving(packet: seq<Octet>, byte: Octet, bitCount: nat, runCount: nat, s: Hdlc.Rx)
  {
    && !s.stopped && |s.bits| < 8 && packet == s.out
    && byte == s.bits + Zeros(8 - |s.bits|) && bitCount == |s.bits| && runCount == s.run
  }

  lemma {:induction false} PaddedMatches(bits: Bits, flag: Octet)
    requires |bits| <= 8
    ensures Hdlc.Matches(bits, flag) <==> bits + Zeros(8 - |bits|) == flag
  {
    var padded := bits + Zeros(8 - |bits|);
    assert forall i: nat | i < 8 :: padded[i] == (i < |bits| && bits[i]);
    if Hdlc.Matches(bits, flag) {
      forall i: nat | i < 8 ensures padded[i] == flag[i] {
        assert (i < |bits| && bits[i]) == (i < |flag| && flag[i]);
      }
    }
  }

  /** The byte under construction with one more bit. */
  lemma {:induction false} ByteNext(bits: Bits, v: bool, flag: Octet)
    requires |bits| < 8
    ensures var next := bits + [v];
            && SetBit(bits + Zeros(8 - |bits|), |bits|, v) == next + Zeros(8 - |next|)
            && (|next| == 8 ==> next + Zeros(0) == next && (Hdlc.Matches(next, flag) <==> next == flag))
  {
    var next := bits + [v];
    PaddedMatches(next, flag);
    if |next| == 8 {
      assert next + Zeros(0) == next;
    }
  }

  /** One more bit of the stream, as the byte loop takes it in. */
  lemma {:induction false} ReceiveBit(packet: seq<Octet>, byte: Octet, bitCount: nat, runCount: nat,
                                      s: Hdlc.Rx, v: bool, flag: Octet)
    requires Receiving(packet, byte, bitCount, runCount, s)
    ensures bitCount < 8
    ensures var t := Hdlc.RxBit(s, v, flag);
            var b := SetBit(byte, bitCount, v);
            var run := if v then Hdlc.Inc8(runCount) else 0;
            var count := if !v && runCount == 5 then Hdlc.Inc8(Dec8(bitCount)) else Hdlc.Inc8(bitCount);
            if count <= 7 then Receiving(packet, b, count, run, t)
            else if b == flag then t.stopped && t.out == packet && Hdlc.Matches(t.bits, flag)
            else Receiving(packet + [b], Zeros(8), 0, run, t)
  {
    hide SetBit, Zeros, Hdlc.Matches;
    ByteNext(s.bits, v, flag);
    if !v && runCount == 5 {
      DroppedBit(s.bits);
    }
    assert [] + Zeros(8) == Zeros(8);
  }

  /** A dropped 0 leaves the byte as it is. */
  lemma {:induction false} DroppedBit(bits: Bits)
    requires |bits| < 8
    ensures SetBit(bits + Zeros(8 - |bits|), |bits|, false) == bits + Zeros(8 - |bits|)
  {
  }

  lemma {:induction false} ReceiveStart(flag: Octet)
    ensures Receiving([], Zeros(8), 0, 0, Hdlc.RX_START)
    ensures Hdlc.RxOctets([], flag) == Hdlc.RX_START
    ensures forall s :: Hdlc.RxBits(s, [], flag) == s
  {
  }

  lemma {:induction false} RxBitsSnoc(s: Hdlc.Rx, o: Octet, k: nat, flag: Octet)
    requires k < 8
    ensures Hdlc.RxBits(s, o[..k + 1], flag) == Hdlc.RxBit(Hdlc.RxBits(s, o[..k], flag), o[k], flag)
  {
    assert o[..k + 1][..k] == o[..k];
  }

  lemma {:induction false} RxBitsStopped(s: Hdlc.Rx, o: Bits, k: nat, flag: Octet)
    requires k <= |o| && Hdlc.RxBits(s, o[..k], flag).stopped
    ensures Hdlc.RxBits(s, o, flag) == Hdlc.RxBits(s, o[..k], flag)
  {
    if k < |o| {
      assert o[..|o| - 1][..k] == o[..k];
      RxBitsStopped(s, o[..|o| - 1], k, flag);
    } else {
      assert o[..k] == o;
    }
  }

  lemma {:induction false} NotStopped(packet: seq<Octet>, byte: Octet, bitCount: nat, runCount: nat,
      s: Hdlc.Rx, flag: Octet)
    requires Receiving(packet, byte, bitCount, runCount, s)
    ensures !s.stopped && s.out == packet && (byte == flag <==> Hdlc.Matches(s.bits, flag))
  {
    PaddedMatches(s.bits, flag);
  }

  /** After the bit loop, whether it ran out or was left at a complete flag. */
  lemma {:induction false} OctetDone(packet: seq<Octet>, byte: Octet, bitCount: nat, runCount: nat,
                                     s: Hdlc.Rx, t: Hdlc.Rx, o: Octet, k: nat, flag: Octet)
    requires k <= 8 && t == Hdlc.RxBits(s, o[..k], flag)
    requires if t.stopped then byte == flag && t.out == packet && Hdlc.Matches(t.bits, flag)
             else k == 8 && Receiving(packet, byte, bitCount, runCount, t)
    ensures var end := Hdlc.RxOctetEnd(Hdlc.RxBits(s, o, flag), flag);
            && end == Hdlc.RxOctetEnd(t, flag) && end.out == packet && end.stopped == (byte == flag)
            && (byte != flag ==> end == t)
  {
    hide Hdlc.RxBits;
    if t.stopped {
      RxBitsStopped(s, o, k, flag);
    } else {
      assert o[..8] == o;
      NotStopped(packet, byte, bitCount, runCount, t, flag);
    }
  }

  /** One more HDLC byte in the middle of a packet. */
  lemma {:induction false} RxOctetsSnoc(packet: seq<Octet>, i: nat, flag: Octet)
    requires i < |packet|
    ensures var s := Hdlc.RxOctets(ReverseAll(packet)[..i], flag);
            Hdlc.RxOctets(ReverseAll(packet)[..i + 1], flag) ==
            if s.stopped || packet[i] == flag then s
            else Hdlc.RxOctetEnd(Hdlc.RxBits(s, Reverse(packet[i]), flag), flag)
  {
    hide Hdlc.RxBits, Hdlc.RxOctetEnd;
    var h := ReverseAll(packet);
    assert h[..i + 1][..i] == h[..i];
    ReverseTwice(packet[i]);
    ReverseTwice(flag);
  }

  class Ax25Handle {
    var header: Header
    var data: seq<Octet>
    var ax25Packet: seq<Octet>
    var hdlcPacket: seq<Octet>
    var crc: Word
    var crcCalc: Word
    const calcCrc: Crc16

    ghost predicate Valid()
      reads this, calcCrc, calcCrc.lookup
    {
      && calcCrc.Valid() && calcCrc.polynomial == HDLC_POLYNOMIAL
      && calcCrc.initial == ONES && calcCrc.xorout == ONES && calcCrc.lsbFirst
    }

    constructor (destCall: seq<Octet>, sourceCall: seq<Octet>, destStation: Octet, sourceStation: Octet,
                 control: Octet, protocol: Octet)
      ensures Valid() && fresh(calcCrc) && fresh(calcCrc.lookup)
      ensures header == Header(CallsignOf(destCall), destStation, CallsignOf(sourceCall), sourceStation, control,
                               protocol)
      ensures data == [] && ax25Packet == [] && hdlcPacket == []
    {
      var d := WriteCallsign(destCall);
      var s := WriteCallsign(sourceCall);
      header := Header(d, destStation, s, sourceStation, control, protocol);
      data, ax25Packet, hdlcPacket := [], [], [];
      calcCrc := new Crc16(HDLC_POLYNOMIAL, ONES, ONES, true);
    }

    /** Without arguments: no callsigns, the stations 0x60 and 0x61, control 0x03, protocol 0xf0. */
    constructor Default()
      ensures Valid() && fresh(calcCrc) && fresh(calcCrc.lookup)
      ensures header == Header(CallsignOf([]), Nibble(0) + Nibble(6), CallsignOf([]), Nibble(1) + Nibble(6),
                               Nibble(3) + Nibble(0), Nibble(0) + Nibble(15))
      ensures data == [] && ax25Packet == [] && hdlcPacket == []
    {
      var d := WriteCallsign([]);
      var s := WriteCallsign([]);
      header := Header(d, Nibble(0) + Nibble(6), s, Nibble(1) + Nibble(6), Nibble(3) + Nibble(0),
                       Nibble(0) + Nibble(15));
      data, ax25Packet, hdlcPacket := [], [], [];
      calcCrc := new Crc16(HDLC_POLYNOMIAL, ONES, ONES, true);
    }

    method SetDestinationCallsign(text: seq<Octet>)
      modifies this`header
      ensures header == old(header).(destination := CallsignOf(text))
    {
      var c := WriteCallsign(text);
      header := header.(destination := c);
    }

    method SetSourceCallsign(text: seq<Octet>)
      modifies this`header
      ensures header == old(header).(source := CallsignOf(text))
    {
      var c := WriteCallsign(text);
      header := header.(source := c);
    }

    /** load: builds the frame; the payload argument hides the field of the same name, which stays as it is. */
    method Load(payload: seq<Octet>) returns (size: int)
      requires Valid()
      modifies this`ax25Packet, this`crcCalc
      ensures Valid()
      ensures ax25Packet == FrameOf(header, payload) && size == 18 + |payload| == |ax25Packet|
      ensures ax25Packet[..6] == header.destination && ax25Packet[6] == header.destinationStation
      ensures ax25Packet[7..13] == header.source && ax25Packet[13] == header.sourceStation
      ensures ax25Packet[14] == header.control && ax25Packet[15] == header.protocol
      ensures ax25Packet[16..16 + |payload|] == payload
    {
      hide CrcOf;
      size := 18 + |payload|;
      var body := header.Bytes() + payload;
      crcCalc := calcCrc.CalcAll(body);
      ax25Packet := body + [crcCalc[..8], crcCalc[8..]];
    }

    /** unload: refuses short frames and, when asked to check, frames with a wrong FCS. */
    method Unload(checkCrc: bool) returns (r: int)
      requires Valid()
      modifies this`header, this`data, this`crc, this`crcCalc
      ensures Valid()
      ensures |ax25Packet| < 18 ==> r == -2014
      ensures |ax25Packet| >= 18 && checkCrc && !Accepted(ax25Packet) ==> r == -2007
      ensures r < 0 ==> header == old(header) && data == old(data)
      ensures |ax25Packet| >= 18 && (!checkCrc || Accepted(ax25Packet)) ==>
                && header.destination == ax25Packet[..6] && header.destinationStation == ax25Packet[6]
                && header.source == ax25Packet[7..13] && header.sourceStation == ax25Packet[13]
                && header.control == ax25Packet[14] && header.protocol == ax25Packet[15]
                && header.Bytes() == ax25Packet[..16] && data == ax25Packet[16..|ax25Packet| - 2]
                && r == |ax25Packet| - 18
    {
      hide CrcOf;
      var n := |ax25Packet| - 2;
      if |ax25Packet| < 18 {
        return GENERAL_ERROR_BAD_SIZE;
      }
      var pass := true;
      if checkCrc {
        crc := Join(ax25Packet[n], ax25Packet[n + 1]);
        crcCalc := calcCrc.CalcAll(ax25Packet[..n]);
        if crc != crcCalc {
          pass := false;
        }
      }
      if pass {
        header := HeaderFrom(ax25Packet[..16]);
        data := ax25Packet[16..n];
        return |data|;
      } else {
        return GENERAL_ERROR_CRC;
      }
    }

    /** stuff: an empty argument means the packet already held. */
    method Stuff(ax25Data: seq<Octet>, flagCount: nat, flag: Octet) returns (size: int)
      requires flagCount < 256
      modifies this`ax25Packet, this`hdlcPacket
      ensures ax25Packet == if ax25Data == [] then old(ax25Packet) else ax25Data
      ensures hdlcPacket == StuffedPacket(ax25Packet, flagCount, flag) && size == |hdlcPacket|
    {
      hide Sending, Flatten, Hdlc.StuffBits, Hdlc.RunOf, Hdlc.FlagBits, StuffedPacket, Zeros;
      if ax25Data != [] {
        ax25Packet := ax25Data;
      }
      var packet := ax25Packet;
      var bitCount := 7;
      var hdlcByte: Octet := Zeros(8);
      var runCount := 0;
      hdlcPacket := seq(flagCount, i => flag);
      ghost var lead := hdlcPacket;
      ghost var sent: Bits := [];
      SendNothing(lead);
      SendStart();
      for i := 0 to |packet|
        invariant ax25Packet == packet
        invariant sent == Flatten(packet[..i])
        invariant runCount == Hdlc.RunOf(sent)
        invariant Sending(lead, hdlcPacket, hdlcByte, bitCount, Hdlc.StuffBits(sent))
      {
        for bitNum := 0 to 8
          invariant ax25Packet == packet
          invariant sent == Flatten(packet[..i]) + packet[i][..bitNum]
          invariant runCount == Hdlc.RunOf(sent)
          invariant Sending(lead, hdlcPacket, hdlcByte, bitCount, Hdlc.StuffBits(sent))
        {
          var bit := packet[i][bitNum];
          HdlcProofs.StuffBitsRun(sent);
          HdlcProofs.StuffSnoc(sent, bit);
          SendBit(lead, hdlcPacket, hdlcByte, bitCount, Hdlc.StuffBits(sent), bit);
          if bit {
            hdlcByte := SetBit(hdlcByte, bitCount, true);
            runCount := runCount + 1;
            if runCount == 5 {
              bitCount := Dec8(bitCount);
              if bitCount > 7 {
                hdlcPacket := hdlcPacket + [hdlcByte];
                hdlcByte := Zeros(8);
                bitCount := 7;
              }
              runCount := 0;
              SendBit(lead, hdlcPacket, hdlcByte, bitCount, Hdlc.StuffBits(sent) + [true], false);
            }
          } else {
            runCount := 0;
          }
          bitCount := Dec8(bitCount);
          if bitCount > 7 {
            hdlcPacket := hdlcPacket + [hdlcByte];
            hdlcByte := Zeros(8);
            bitCount := 7;
          }
          NextBit(Flatten(packet[..i]), packet[i], bitNum);
          sent := sent + [bit];
        }
        NextOctet(packet, i);
      }
      ghost var body := Hdlc.StuffBits(sent);
      ghost var flags: Bits := [];
      assert packet[..|packet|] == packet;
      assert body + flags == body;
      NoFlagBits(flag);
      for i := 0 to flagCount
        invariant ax25Packet == packet
        invariant flags == Hdlc.FlagBits(i, flag)
        invariant Sending(lead, hdlcPacket, hdlcByte, bitCount, body + flags)
      {
        for bitNum := 0 to 8
          invariant ax25Packet == packet
          invariant flags == Hdlc.FlagBits(i, flag) + flag[..bitNum]
          invariant Sending(lead, hdlcPacket, hdlcByte, bitCount, body + flags)
        {
          var bit := flag[bitNum];
          SendBit(lead, hdlcPacket, hdlcByte, bitCount, body + flags, bit);
          if bit {
            hdlcByte := SetBit(hdlcByte, bitCount, true);
          }
          bitCount := Dec8(bitCount);
          if bitCount > 7 {
            hdlcPacket := hdlcPacket + [hdlcByte];
            hdlcByte := Zeros(8);
            bitCount := 7;
          }
          NextBit(Hdlc.FlagBits(i, flag), flag, bitNum);
          assert body + flags + [bit] == body + (flags + [bit]);
          flags := flags + [bit];
        }
      }
      SendDone(packet, flagCount, flag, hdlcPacket, hdlcByte, bitCount);
      size := |hdlcPacket|;
    }

    /** unstuff: an empty argument means the packet already held. */
    method Unstuff(hdlcData: seq<Octet>, flag: Octet) returns (size: int)
      modifies this`ax25Packet, this`hdlcPacket
      ensures hdlcPacket == if hdlcData == [] then old(hdlcPacket) else hdlcData
      ensures ax25Packet == UnstuffedPacket(hdlcPacket, flag) && size == |ax25Packet|
    {
      hide Receiving, Hdlc.RxOctets, Hdlc.RxBits, Hdlc.RxBit, Hdlc.Matches, Zeros;
      if hdlcData != [] {
        hdlcPacket := hdlcData;
      }
      ax25Packet := [];
      var bitCount := 0;
      var ax25Byte: Octet := Zeros(8);
      var runCount := 0;
      var packet := hdlcPacket;
      ReceiveStart(flag);
      ghost var octets, done, ended := ReverseAll(packet), |packet|, false;
      ghost var s := Hdlc.RX_START;
      for i := 0 to |packet|
        invariant hdlcPacket == packet && !ended && done == |packet|
        invariant s == Hdlc.RxOctets(octets[..i], flag)
        invariant Receiving(ax25Packet, ax25Byte, bitCount, runCount, s)
      {
        var hdlcByte := packet[i];
        RxOctetsSnoc(packet, i, flag);
        NotStopped(ax25Packet, ax25Byte, bitCount, runCount, s, flag);
        if hdlcByte == flag {
          continue;
        }
        ghost var o, t, k, flagSeen := Reverse(hdlcByte), s, 0, false;
        var bitNum := 7;
        while bitNum < 8
          invariant hdlcPacket == packet && !flagSeen && 0 <= k <= 8 && bitNum == (255 + 8 - k) % 256
          invariant t == Hdlc.RxBits(s, o[..k], flag)
          invariant Receiving(ax25Packet, ax25Byte, bitCount, runCount, t)
          decreases 8 - k
        {
          var bit := hdlcByte[bitNum];
          assert bit == o[k];
          RxBitsSnoc(s, o, k, flag);
          ReceiveBit(ax25Packet, ax25Byte, bitCount, runCount, t, bit, flag);
          t, k := Hdlc.RxBit(t, bit, flag), k + 1;
          if bit {
            runCount := Hdlc.Inc8(runCount);
            ax25Byte := SetBit(ax25Byte, bitCount, true);
          } else {
            if runCount == 5 {
              bitCount := Dec8(bitCount);
            }
            runCount := 0;
          }
          bitCount := Hdlc.Inc8(bitCount);
          if bitCount > 7 {
            if ax25Byte == flag {
              flagSeen := true;
              break;
            }
            ax25Packet := ax25Packet + [ax25Byte];
            ax25Byte := Zeros(8);
            bitCount := 0;
          }
          bitNum := Dec8(bitNum);
        }
        if !flagSeen {
          NotStopped(ax25Packet, ax25Byte, bitCount, runCount, t, flag);
        }
        OctetDone(ax25Packet, ax25Byte, bitCount, runCount, s, t, o, k, flag);
        s := Hdlc.RxOctetEnd(t, flag);
        if ax25Byte == flag {
          done, ended := i + 1, true;
          break;
        }
      }
      assert octets[..done] + octets[done..] == octets;
      if ended {
        HdlcProofs.RxOctetsStopped(octets[..done], octets[done..], flag);
      } else {
        NotStopped(ax25Packet, ax25Byte, bitCount, runCount, s, flag);
        assert octets[..done] == octets;
      }
      assert s == Hdlc.RxOctets(octets, flag) && s.out == ax25Packet;
      size := |ax25Packet|;
    }
  }
}
