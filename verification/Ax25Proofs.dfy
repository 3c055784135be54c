/** What AX.25 frames and HDLC packets guarantee end to end. */
module Ax25Proofs {
  import opened BitStrings
  import opened Crc
  import opened CrcDetection
  import opened Crc16Lib
  import opened Ax25
  import Hdlc
  import HdlcProofs

  // ---------- stuffing and unstuffing packets of bytes ----------

  const FLAG: Octet := Hdlc.FLAG

  /** For every payload and every number of flags, what comes back is the payload up to the first byte that
      ends reception. */
  lemma {:induction false} PacketRoundTrip(p: seq<Octet>, flagCount: nat)
    requires flagCount >= 1
    ensures Octets(StuffedPacket(p, flagCount, FLAG))
    ensures UnstuffedPacket(StuffedPacket(p, flagCount, FLAG), FLAG) == p[..Hdlc.Kept(p)]
  {
    var h := Hdlc.Frame(p, flagCount, FLAG);
    ReverseAllTwice(h);
    HdlcProofs.UnframeFrame(p, flagCount);
  }

  /** The payload comes back whole exactly when no byte of it ends reception. */
  lemma {:induction false} PacketExactness(p: seq<Octet>, flagCount: nat)
    requires flagCount >= 1
    ensures Octets(StuffedPacket(p, flagCount, FLAG))
    ensures UnstuffedPacket(StuffedPacket(p, flagCount, FLAG), FLAG) == p
       <==> forall i: nat | i < |p| :: !Hdlc.StopsAt(p, i)
  {
    hide Hdlc.StopsAt;
    PacketRoundTrip(p, flagCount);
    if Hdlc.Kept(p) < |p| {
      assert Hdlc.StopsAt(p, Hdlc.Kept(p));
    } else {
      assert p[..|p|] == p;
    }
  }

  /** Everything before the first 0x7E or 0xFE byte comes back. */
  lemma {:induction false} PlainBytesComeBack(p: seq<Octet>, n: nat, flagCount: nat)
    requires n <= |p| && forall i | 0 <= i < n :: p[i] != Hdlc.FLAG && p[i] != Hdlc.OCTET_FE
    requires flagCount >= 1
    ensures Octets(StuffedPacket(p, flagCount, FLAG))
    ensures var back := UnstuffedPacket(StuffedPacket(p, flagCount, FLAG), FLAG);
            n <= |back| <= |p| && back == p[..|back|]
  {
    PacketRoundTrip(p, flagCount);
  }

  /** A payload of which the byte 0xFE is lost. */
  lemma {:induction false} LoneByteIsLost(flagCount: nat)
    requires flagCount >= 1
    ensures Octets(StuffedPacket([Hdlc.OCTET_FE], flagCount, FLAG))
    ensures UnstuffedPacket(StuffedPacket([Hdlc.OCTET_FE], flagCount, FLAG), FLAG) == []
  {
    var p: seq<Octet> := [Hdlc.OCTET_FE];
    PacketRoundTrip(p, flagCount);
    assert p[..0] == [];
    assert Hdlc.StopsAt(p, 0);
  }

  /** 0x1F between single flags, as it leaves: the five 1s first, since a byte goes lowest bit first, then the 0 put in,
      and HDLC bytes filled from their highest bit down. The flag's last bit would begin a fourth byte, and is lost. */
  lemma {:induction false} ByteAsSent()
    ensures StuffedPacket([Nibble(15) + Nibble(1)], 1, FLAG) ==
            [Nibble(14) + Nibble(7), Nibble(8) + Nibble(15), Nibble(15) + Nibble(3)]
  {
    hide Hdlc.StuffBits, Hdlc.RunOf, Hdlc.Pack, Flatten, Nibble, Reverse;
    var t, f := true, false;
    var bits: Bits := [t, t, t, t, t, f, f, f];
    ReversedBytes();
    FlattenOne(bits);
    StuffedByte();
    var stream: Bits := [t, t, t, t, t, f, f, f, f] + FLAG;
    assert Hdlc.FlagBits(1, FLAG) == FLAG by { assert Hdlc.FlagBits(0, FLAG) == []; }
    var p1: Octet, p2: Octet := [t, t, t, t, t, f, f, f], [f, f, t, t, t, t, t, t];
    PackedTwo(stream, p1, p2);
    var wire := Hdlc.Frame([bits], 1, FLAG);
    assert wire == [Reverse(FLAG), p1, p2];
  }

  lemma {:induction false} ReversedBytes()
    ensures var t, f := true, false;
      && Reverse([t, t, t, t, t, f, f, f]) == Nibble(8) + Nibble(15)
      && Reverse([f, f, t, t, t, t, t, t]) == Nibble(15) + Nibble(3)
      && Reverse(Reverse(FLAG)) == Nibble(14) + Nibble(7)
      && Nibble(15) + Nibble(1) == [t, t, t, t, t, f, f, f]
  {
  }

  lemma {:induction false} FlattenOne(o: Octet)
    ensures Flatten([o]) == o
  {
    assert [o][..0] == [];
    assert [] + o == o;
  }

  lemma {:induction false} PackedTwo(stream: Bits, p1: Octet, p2: Octet)
    requires 16 <= |stream| < 24 && stream[..8] == p1 && stream[8..16] == p2
    ensures Hdlc.Pack(stream) == [p1, p2]
  {
  }

  lemma {:induction false} StuffedByte()
    ensures var t, f := true, false;
            Hdlc.StuffBits([t, t, t, t, t, f, f, f]) == [t, t, t, t, t, f, f, f, f]
  {
    hide Hdlc.StuffBits, Hdlc.RunOf;
    var t, f := true, false;
    var bits: Bits := [t, t, t, t, t, f, f, f];
    StuffedOne(bits, 0, [], 0);
    StuffedOne(bits, 1, [t], 1);
    StuffedOne(bits, 2, [t, t], 2);
    StuffedOne(bits, 3, [t, t, t], 3);
    StuffedOne(bits, 4, [t, t, t, t], 4);
    StuffedZeros(bits);
  }

  lemma {:induction false} StuffedZeros(bits: Bits)
    requires |bits| == 8 && !bits[5] && !bits[6] && !bits[7]
    requires Hdlc.StuffBits(bits[..5]) == [true, true, true, true] + [true, false] && Hdlc.RunOf(bits[..5]) == 0
    ensures Hdlc.StuffBits(bits) == [true, true, true, true, true, false, false, false, false]
  {
    hide Hdlc.StuffBits, Hdlc.RunOf;
    var sofar := Hdlc.StuffBits(bits[..5]);
    StuffedOne(bits, 5, sofar, 0);
    StuffedOne(bits, 6, sofar + [false], 0);
    StuffedOne(bits, 7, sofar + [false] + [false], 0);
    assert bits[..8] == bits;
  }

  /** One more bit of a stream whose first k bits are stuffed already. */
  lemma {:induction false} StuffedOne(bits: Bits, k: nat, sofar: Bits, run: nat)
    requires k < |bits|
    requires k == 0 ==> sofar == [] && run == 0
    requires k > 0 ==> Hdlc.StuffBits(bits[..k]) == sofar && Hdlc.RunOf(bits[..k]) == run
    ensures Hdlc.StuffBits(bits[..k + 1]) ==
            if !bits[k] then sofar + [false] else if run == 4 then sofar + [true, false] else sofar + [true]
    ensures Hdlc.RunOf(bits[..k + 1]) == if !bits[k] || run == 4 then 0 else run + 1
  {
    assert bits[..k + 1][..k] == bits[..k];
  }

  lemma {:induction false} PacketLength(p: seq<Octet>, flagCount: nat, flag: Octet)
    ensures |p| + 2 * flagCount <= |StuffedPacket(p, flagCount, flag)| <= |p| + |p| / 5 + 2 * flagCount
  {
    HdlcProofs.FrameLength(p, flagCount, flag);
  }

  lemma {:induction false} FlattenRepeat(o: Octet, n: nat)
    ensures Flatten(Hdlc.Repeat(o, n)) == Hdlc.FlagBits(n, o)
  {
    if n != 0 {
      FlattenRepeat(o, n - 1);
      assert Hdlc.Repeat(o, n)[..n - 1] == Hdlc.Repeat(o, n - 1);
    }
  }

  lemma {:induction false} FlattenPack(bits: Bits)
    ensures Flatten(Hdlc.Pack(bits)) == bits[..8 * (|bits| / 8)]
    decreases |bits|
  {
    var n := |bits| / 8;
    if n != 0 {
      FlattenPack(bits[..8 * (n - 1)]);
      HdlcProofs.PackPrefix(bits, n - 1);
      assert Hdlc.Pack(bits)[n - 1] == bits[8 * (n - 1)..8 * n];
      assert bits[..8 * (n - 1)] + bits[8 * (n - 1)..8 * n] == bits[..8 * n];
    }
  }

  lemma {:induction false} FlattenConcat(a: seq<Bits>, b: seq<Bits>)
    ensures Flatten(a + b) == Flatten(a) + Flatten(b)
  {
    hide Flatten;
    if b == [] {
      FlattenNothing();
      assert a + b == a;
    } else {
      var front, o := b[..|b| - 1], b[|b| - 1];
      assert b == front + [o] && a + b == (a + front) + [o];
      FlattenConcat(a, front);
      FlattenSnoc(front, o);
      FlattenSnoc(a + front, o);
    }
  }

  lemma {:induction false} FlattenNothing()
    ensures Flatten([]) == []
  {
  }

  /**
   On the wire a flag pattern starts at exactly the bit offsets of the flags put before and after the
   payload, whatever the payload and whatever the alignment.
  */
  lemma {:induction false} FlagsOnlyWherePut(p: seq<Octet>, flagCount: nat, k: nat)
    ensures |Flatten(Hdlc.Frame(p, flagCount, FLAG))| == 8 * |StuffedPacket(p, flagCount, FLAG)|
    ensures k + 8 <= |Flatten(Hdlc.Frame(p, flagCount, FLAG))| ==>
              (Flatten(Hdlc.Frame(p, flagCount, FLAG))[k..k + 8] == FLAG <==> HdlcProofs.FlagOffset(flagCount, p, flagCount, k))
  {
    hide Hdlc.Pack, Hdlc.FlagBits, Hdlc.StuffedPayload, Flatten, HdlcProofs.FlagOffset;
    var rest := Hdlc.StuffedPayload(p) + Hdlc.FlagBits(flagCount, FLAG);
    HdlcProofs.FlagReversed();
    FlattenConcat(Hdlc.Repeat(FLAG, flagCount), Hdlc.Pack(rest));
    FlattenRepeat(FLAG, flagCount);
    FlattenPack(rest);
    HdlcProofs.FlagBitsLength(flagCount, FLAG);
    var wire, w := Flatten(Hdlc.Frame(p, flagCount, FLAG)), HdlcProofs.Stream(flagCount, p, flagCount);
    assert w == Hdlc.FlagBits(flagCount, FLAG) + rest;
    assert wire == w[..|wire|];
    if k + 8 <= |wire| {
      assert wire[k..k + 8] == w[k..k + 8];
      HdlcProofs.FlagWindow(flagCount, p, flagCount, k);
    }
  }

  // ---------- frame check sequence ----------

  /** The polynomial as the register of the "hdlc" CRC holds it. */
  const TAPS: Word := Reverse(HDLC_POLYNOMIAL)

  /** The register that a frame with a correct FCS leaves, the "good FCS" of RFC 1662, appendix C.2. */
  const GOOD_FCS: Word := Hex(0xf, 0x0, 0xb, 0x8)

  function FrameRegister(frame: seq<Octet>): (w: Word)
  {
    BitRegister(TAPS, ONES, Flatten(frame))
  }

  lemma {:induction false} TapsAre()
    ensures TAPS == [false, false, false, true, false, false, false, false,
                     false, false, true, false, false, false, false, true]
    ensures ONES == [true, true, true, true, true, true, true, true, true, true, true, true, true, true, true, true]
  {
  }

  lemma {:induction false} TapAt(i: nat)
    requires i < 16
    ensures TAPS[i] == (i == 3 || i == 10 || i == 15)
  {
    TapsAre();
  }

  lemma {:induction false} ClockedBit(y: Word, i: nat)
    requires i < 16
    ensures ShiftDown(TAPS, y)[i] == if i == 15 then y[0] else y[i + 1] != (y[0] && (i == 3 || i == 10))
  {
    hide Reverse, Hex;
    TapAt(i);
    assert i < 15 ==> (y[1..] + [false])[i] == y[i + 1];
  }

  /** One clock spelled out: the outgoing bit enters at positions 3, 10 and 15. */
  lemma {:induction false} Clock(x: Word, n: nat, y: Word, z: Word)
    requires ShiftN(TAPS, true, x, n) == y
    requires z == [y[1], y[2], y[3], y[4] != y[0], y[5], y[6], y[7], y[8],
                   y[9], y[10], y[11] != y[0], y[12], y[13], y[14], y[15], y[0]]
    ensures ShiftN(TAPS, true, x, n + 1) == z
  {
    hide ShiftN, ShiftDown, Hex, Reverse;
    ShiftNStep(TAPS, true, x, n);
    forall i | 0 <= i < 16 ensures ShiftDown(TAPS, y)[i] == z[i] {
      ClockedBit(y, i);
    }
  }

  lemma {:induction false} NoClock()
    ensures ShiftN(TAPS, true, ONES, 0) == ONES
  {
  }

  const T := true
  const F := false

  lemma {:induction false} GoodFcsClocks4()
    ensures ShiftN(TAPS, true, ONES, 4) == [F, F, F, F, T, T, T, F, F, F, F, T, T, T, T, T]
  {
    hide ShiftN, Reverse, Hex;
    NoClock();
    TapsAre();
    Clock(ONES, 0, [T, T, T, T, T, T, T, T, T, T, T, T, T, T, T, T],
                [T, T, T, F, T, T, T, T, T, T, F, T, T, T, T, T]);
    Clock(ONES, 1, [T, T, T, F, T, T, T, T, T, T, F, T, T, T, T, T],
                [T, T, F, F, T, T, T, T, T, F, F, T, T, T, T, T]);
    Clock(ONES, 2, [T, T, F, F, T, T, T, T, T, F, F, T, T, T, T, T],
                [T, F, F, F, T, T, T, T, F, F, F, T, T, T, T, T]);
    Clock(ONES, 3, [T, F, F, F, T, T, T, T, F, F, F, T, T, T, T, T],
                [F, F, F, F, T, T, T, F, F, F, F, T, T, T, T, T]);
  }

  lemma {:induction false} GoodFcsClocks8()
    ensures ShiftN(TAPS, true, ONES, 8) == [T, T, T, F, F, F, F, T, T, T, T, T, F, F, F, F]
  {
    hide ShiftN, Reverse, Hex;
    GoodFcsClocks4();
    Clock(ONES, 4, [F, F, F, F, T, T, T, F, F, F, F, T, T, T, T, T],
                [F, F, F, T, T, T, F, F, F, F, T, T, T, T, T, F]);
    Clock(ONES, 5, [F, F, F, T, T, T, F, F, F, F, T, T, T, T, T, F],
                [F, F, T, T, T, F, F, F, F, T, T, T, T, T, F, F]);
    Clock(ONES, 6, [F, F, T, T, T, F, F, F, F, T, T, T, T, T, F, F],
                [F, T, T, T, F, F, F, F, T, T, T, T, T, F, F, F]);
    Clock(ONES, 7, [F, T, T, T, F, F, F, F, T, T, T, T, T, F, F, F],
                [T, T, T, F, F, F, F, T, T, T, T, T, F, F, F, F]);
  }

  lemma {:induction false} GoodFcsClocks12()
    ensures ShiftN(TAPS, true, ONES, 12) == [T, T, T, T, T, T, T, F, T, T, F, F, T, T, T, F]
  {
    hide ShiftN, Reverse, Hex;
    GoodFcsClocks8();
    Clock(ONES, 8, [T, T, T, F, F, F, F, T, T, T, T, T, F, F, F, F],
                [T, T, F, T, F, F, T, T, T, T, F, F, F, F, F, T]);
    Clock(ONES, 9, [T, T, F, T, F, F, T, T, T, T, F, F, F, F, F, T],
                [T, F, T, T, F, T, T, T, T, F, T, F, F, F, T, T]);
    Clock(ONES, 10, [T, F, T, T, F, T, T, T, T, F, T, F, F, F, T, T],
                [F, T, T, T, T, T, T, T, F, T, T, F, F, T, T, T]);
    Clock(ONES, 11, [F, T, T, T, T, T, T, T, F, T, T, F, F, T, T, T],
                [T, T, T, T, T, T, T, F, T, T, F, F, T, T, T, F]);
  }

  lemma {:induction false} GoodFcsClocks16()
    ensures ShiftN(TAPS, true, ONES, 16) == [F, F, F, T, T, T, F, T, F, F, F, F, T, T, T, T]
  {
    hide ShiftN, Reverse, Hex;
    GoodFcsClocks12();
    Clock(ONES, 12, [T, T, T, T, T, T, T, F, T, T, F, F, T, T, T, F],
                [T, T, T, F, T, T, F, T, T, F, T, T, T, T, F, T]);
    Clock(ONES, 13, [T, T, T, F, T, T, F, T, T, F, T, T, T, T, F, T],
                [T, T, F, F, T, F, T, T, F, T, F, T, T, F, T, T]);
    Clock(ONES, 14, [T, T, F, F, T, F, T, T, F, T, F, T, T, F, T, T],
                [T, F, F, F, F, T, T, F, T, F, F, T, F, T, T, T]);
    Clock(ONES, 15, [T, F, F, F, F, T, T, F, T, F, F, T, F, T, T, T],
                [F, F, F, T, T, T, F, T, F, F, F, F, T, T, T, T]);
  }

  lemma {:induction false} GoodFcsValue()
    ensures ShiftN(TAPS, true, ONES, 16) == GOOD_FCS
  {
    hide ShiftN, Reverse;
    GoodFcsClocks16();
  }

  lemma {:induction false} ParityNext(bits: Bits, k: nat)
    requires k < |bits|
    ensures Parity(bits[..k + 1]) == (Parity(bits[..k]) != bits[k])
  {
    assert bits[..k + 1][..k] == bits[..k];
  }

  /** The register polynomial keeps its top term and has three terms, an odd number. */
  lemma {:induction false} TopTapAndParity()
    ensures TAPS[15] && Parity(TAPS)
  {
    hide Reverse, Hex, Parity;
    TapsAre();
    var t: Bits := TAPS;
    ParityNext(t, 0); ParityNext(t, 1); ParityNext(t, 2); ParityNext(t, 3);
    ParityNext(t, 4); ParityNext(t, 5); ParityNext(t, 6); ParityNext(t, 7);
    ParityNext(t, 8); ParityNext(t, 9); ParityNext(t, 10); ParityNext(t, 11);
    ParityNext(t, 12); ParityNext(t, 13); ParityNext(t, 14); ParityNext(t, 15);
    NoParity(t);
    assert t[..16] == t;
  }

  lemma {:induction false} NoParity(bits: Bits)
    ensures !Parity(bits[..0])
  {
  }

  // ---------- which frames are accepted ----------

  lemma {:induction false} FcsAsRegister(covered: seq<Octet>)
    ensures Fcs(covered) == Xor(FrameRegister(covered), ONES)
  {
    hide Register, BitRegister, Hex, Reverse, Xor;
    RegisterIsBitRegister(TAPS, ONES, covered);
  }

  lemma {:induction false} FlattenTail(body: seq<Octet>, a: Octet, b: Octet)
    ensures Flatten(body + [a, b]) == Flatten(body) + Join(a, b)
  {
    hide Flatten;
    FlattenSnoc(body, a);
    FlattenSnoc(body + [a], b);
    assert body + [a, b] == body + [a] + [b];
    assert Flatten(body) + a + b == Flatten(body) + Join(a, b);
  }

  /** The register cancels exactly when the two FCS bytes are the complement of what it held. */
  lemma {:induction false} LastWord(r: Word, w: Word)
    ensures BitRegister(TAPS, r, w) == GOOD_FCS <==> w == Xor(r, ONES)
  {
    TopTapAndParity();
    GoodFcsValue();
    hide BitRegister, ShiftN, Hex, Reverse;
    BitsAtOnce(TAPS, r, w);
    var x := Xor(r, w);
    assert Xor(r, Entering(true, w, 16)) == x;
    if BitRegister(TAPS, r, w) == GOOD_FCS {
      ShiftNInjective(TAPS, x, ONES, 16);
      XorSolve(r, w, ONES);
    }
    if w == Xor(r, ONES) {
      XorSolve(r, w, ONES);
    }
  }

  lemma {:induction false} XorSolve(r: Word, w: Word, x: Word)
    ensures Xor(r, w) == x <==> w == Xor(r, x)
  {
    if Xor(r, w) == x {
      forall i | 0 <= i < 16 ensures w[i] == Xor(r, x)[i] {
        assert x[i] == (r[i] != w[i]);
      }
    }
  }

  /** unload's check is the textbook one: the register over data and FCS ends at the good FCS. */
  lemma {:induction false} AcceptedByResidue(frame: seq<Octet>)
    requires 2 <= |frame| <= 65537
    ensures Accepted(frame) <==> FrameRegister(frame) == GOOD_FCS
  {
    hide BitRegister, Hex, Reverse, Flatten, Fcs, Xor;
    var n := |frame| - 2;
    var body := frame[..n];
    assert body[..n] == body;
    assert frame == body + [frame[n], frame[n + 1]];
    FcsAsRegister(body);
    FlattenTail(body, frame[n], frame[n + 1]);
    BitRegisterConcat(TAPS, ONES, Flatten(body), Join(frame[n], frame[n + 1]));
    LastWord(FrameRegister(body), Join(frame[n], frame[n + 1]));
  }

  // ---------- load and unload ----------

  lemma {:induction false} HeaderBytesInjective(g: Header, h: Header)
    requires g.Bytes() == h.Bytes()
    ensures g == h
  {
    var a, b := g.Bytes(), h.Bytes();
    assert a[..6] == g.destination && b[..6] == h.destination;
    assert a[7..13] == g.source && b[7..13] == h.source;
    assert a[6] == b[6] && a[13] == b[13] && a[14] == b[14] && a[15] == b[15];
  }

  /** A frame as loaded passes the check, of any size, and holds exactly the header and data loaded. */
  lemma {:induction false} LoadedFrameIsAccepted(header: Header, data: seq<Octet>)
    ensures var frame := FrameOf(header, data);
            && |frame| == 18 + |data| && Accepted(frame)
            && frame[16..|frame| - 2] == data
            && (forall h: Header :: h.Bytes() == frame[..16] ==> h == header)
  {
    hide Fcs;
    var frame := FrameOf(header, data);
    var n := |frame| - 2;
    assert frame[..n] == header.Bytes() + data;
    assert frame[..16] == header.Bytes();
    forall h: Header | h.Bytes() == frame[..16] ensures h == header {
      HeaderBytesInjective(h, header);
    }
  }

  /**
   No burst gets through: if frame is accepted and other differs from it only within some 16 consecutive
   bits as sent, which includes any change to one byte or to two neighbouring bytes, other is rejected.
  */
  lemma {:induction false} BurstIsRejected(frame: seq<Octet>, other: seq<Octet>, i: nat)
    requires 2 <= |frame| <= 65537 && |other| == |frame| && other != frame
    requires Accepted(frame)
    requires DifferOnlyWithin(Flatten(frame), Flatten(other), i, 16)
    ensures !Accepted(other)
  {
    hide BitRegister, Hex, Reverse, Flatten, Fcs, Xor;
    TopTapAndParity();
    AcceptedByResidue(frame);
    AcceptedByResidue(other);
    if Accepted(other) {
      NoBurstIsMissed(TAPS, ONES, Flatten(frame), Flatten(other), i);
      FlattenInjective(frame, other);
    }
  }

  /** The bits that differ, in the order sent. */
  function Errors(a: seq<Octet>, b: seq<Octet>): Bits
    requires |a| == |b|
  {
    FlattenLength(a);
    FlattenLength(b);
    Xor(Flatten(a), Flatten(b))
  }

  /** An odd number of flipped bits, anywhere in the frame, is rejected. */
  lemma {:induction false} OddErrorIsRejected(frame: seq<Octet>, other: seq<Octet>)
    requires 2 <= |frame| <= 65537 && |other| == |frame|
    requires Accepted(frame) && Parity(Errors(frame, other))
    ensures !Accepted(other)
  {
    FlattenLength(frame);
    FlattenLength(other);
    hide BitRegister, Hex, Reverse, Flatten, Fcs, Xor;
    TopTapAndParity();
    AcceptedByResidue(frame);
    AcceptedByResidue(other);
    NoOddErrorIsMissed(TAPS, ONES, Flatten(frame), Flatten(other));
  }

  /**
   The size of the checked part is cut to 16 bits: in a longer frame only the first size % 65536 bytes
   and the FCS are looked at, so any other change is accepted.
  */
  lemma {:induction false} LongFramesAreCheckedInPart(frame: seq<Octet>, other: seq<Octet>)
    requires 2 <= |frame| == |other|
    requires Covered(frame[..|frame| - 2]) == Covered(other[..|other| - 2])
    requires frame[|frame| - 2..] == other[|other| - 2..]
    ensures Accepted(frame) == Accepted(other)
  {
    hide Fcs;
    var n := |frame| - 2;
    assert frame[n..][0] == other[n..][0] && frame[n..][1] == other[n..][1];
  }

  lemma {:induction false} FlattenInjective(a: seq<Octet>, b: seq<Octet>)
    requires |a| == |b| && Flatten(a) == Flatten(b)
    ensures a == b
  {
    if a != [] {
      var n := |a| - 1;
      FlattenLength(a[..n]);
      FlattenLength(b[..n]);
      assert Flatten(a)[..8 * n] == Flatten(a[..n]) && Flatten(b)[..8 * n] == Flatten(b[..n]);
      assert Flatten(a)[8 * n..] == a[n] && Flatten(b)[8 * n..] == b[n];
      FlattenInjective(a[..n], b[..n]);
      assert a == a[..n] + [a[n]] && b == b[..n] + [b[n]];
    }
  }

  /** Bytes i and i + 1 are 16 consecutive bits as sent. */
  lemma {:induction false} NeighbouringBytes(a: seq<Octet>, b: seq<Octet>, i: nat)
    requires |a| == |b| && forall k | 0 <= k < |a| && a[k] != b[k] :: k == i || k == i + 1
    ensures DifferOnlyWithin(Flatten(a), Flatten(b), 8 * i, 16)
  {
    FlattenLength(a);
    FlattenLength(b);
    forall j | 0 <= j < 8 * |a| && Flatten(a)[j] != Flatten(b)[j] ensures 8 * i <= j < 8 * i + 16 {
      FlattenAt(a, j / 8, j % 8);
      FlattenAt(b, j / 8, j % 8);
    }
  }

  /** A frame as loaded, changed in one byte or in two neighbouring ones, in the data, in the FCS or across
      their border, is rejected. */
  lemma {:induction false} ChangedBytesAreRejected(header: Header, data: seq<Octet>, other: seq<Octet>, i: nat)
    requires |data| + 18 <= 65537
    requires var frame := FrameOf(header, data);
      && |other| == |frame| && other != frame
      && forall k | 0 <= k < |frame| && frame[k] != other[k] :: k == i || k == i + 1
    ensures !Accepted(other)
  {
    hide FrameOf, Accepted, Flatten;
    var frame := FrameOf(header, data);
    LoadedFrameIsAccepted(header, data);
    NeighbouringBytes(frame, other, i);
    BurstIsRejected(frame, other, 8 * i);
  }

  // ---------- frames of every size ----------

  ghost predicate DiffersInByte(frame: seq<Octet>, other: seq<Octet>, i: nat)
  {
    |other| == |frame| && i < |frame| && forall k | 0 <= k < |frame| :: frame[k] != other[k] <==> k == i
  }

  /** The frame that unload's check amounts to: the covered bytes and the FCS. */
  function Checked(frame: seq<Octet>): (short: seq<Octet>)
    requires |frame| >= 2
  {
    Covered(frame[..|frame| - 2]) + frame[|frame| - 2..]
  }

  lemma {:induction false} CheckedDecides(frame: seq<Octet>)
    requires |frame| >= 2
    ensures 2 <= |Checked(frame)| <= SIZE_UINT16 + 1
    ensures Accepted(Checked(frame)) == Accepted(frame)
  {
    hide Fcs;
    var n, short := |frame| - 2, Checked(frame);
    var c := |Covered(frame[..n])|;
    assert short[..c] == Covered(frame[..n]) && Covered(short[..c]) == short[..c];
    assert short[c] == frame[n] && short[c + 1] == frame[n + 1];
  }

  /** The position of byte i among those that are checked. */
  function CheckedAt(frame: seq<Octet>, i: nat): (k: nat)
    requires i < |frame| && |frame| >= 2
  {
    if i < |frame| - 2 then i else i - (|frame| - 2) + (|frame| - 2) % SIZE_UINT16
  }

  lemma {:induction false} CheckedDiffers(frame: seq<Octet>, other: seq<Octet>, i: nat)
    requires |frame| >= 2 && DiffersInByte(frame, other, i)
    requires i < (|frame| - 2) % SIZE_UINT16 || |frame| - 2 <= i
    ensures DiffersInByte(Checked(frame), Checked(other), CheckedAt(frame, i))
  {
    var n, c := |frame| - 2, (|frame| - 2) % SIZE_UINT16;
    var a, b := Checked(frame), Checked(other);
    forall k | 0 <= k < c + 2 ensures a[k] != b[k] <==> k == CheckedAt(frame, i) {
      var j := if k < c then k else k - c + n;
      assert a[k] == frame[j] && b[k] == other[j];
    }
  }

  /** Exactly which changes of one byte an accepted frame survives: those behind the first size % 65536
      bytes under the FCS. */
  lemma {:induction false} ByteIsUnchecked(frame: seq<Octet>, other: seq<Octet>, i: nat)
    requires |frame| >= 2 && Accepted(frame) && DiffersInByte(frame, other, i)
    ensures Accepted(other) <==> (|frame| - 2) % 65536 <= i < |frame| - 2
  {
    hide Accepted, Flatten;
    if (|frame| - 2) % SIZE_UINT16 <= i < |frame| - 2 {
      LongFramesAreCheckedInPart(frame, other);
    } else {
      var a, b, k := Checked(frame), Checked(other), CheckedAt(frame, i);
      CheckedDecides(frame);
      CheckedDecides(other);
      CheckedDiffers(frame, other, i);
      hide Checked, CheckedAt;
      assert a[k] != b[k];
      NeighbouringBytes(a, b, k);
      BurstIsRejected(a, b, 8 * k);
    }
  }

  /** Every change of one byte of an accepted frame is noticed exactly when the frame has at most 65537 bytes. */
  lemma {:induction false} EveryByteIsChecked(frame: seq<Octet>)
    requires |frame| >= 2 && Accepted(frame)
    ensures (forall other: seq<Octet>, i: nat | DiffersInByte(frame, other, i) :: !Accepted(other))
       <==> |frame| <= 65537
  {
    hide Accepted;
    if |frame| <= SIZE_UINT16 + 1 {
      forall other: seq<Octet>, i: nat | DiffersInByte(frame, other, i) ensures !Accepted(other) {
        ByteIsUnchecked(frame, other, i);
      }
    } else {
      var i := (|frame| - 2) % SIZE_UINT16;
      var o := frame[i];
      var other := frame[i := o[0 := !o[0]]];
      assert other[i][0] != o[0];
      assert DiffersInByte(frame, other, i);
      ByteIsUnchecked(frame, other, i);
    }
  }

  lemma {:induction false} FlattenAt(a: seq<Octet>, i: nat, k: nat)
    requires i < |a| && k < 8
    ensures 8 * i + k < |Flatten(a)| && Flatten(a)[8 * i + k] == a[i][k]
  {
    FlattenLength(a[..|a| - 1]);
    if i < |a| - 1 { FlattenAt(a[..|a| - 1], i, k); }
  }

  // ---------- the whole way ----------

  /** Load, stuff, unstuff and unload: a frame none of whose bytes ends reception arrives as it was loaded. */
  lemma {:induction false} FrameArrives(header: Header, data: seq<Octet>, flagCount: nat)
    requires flagCount >= 1
    requires var frame := FrameOf(header, data); forall i: nat | i < |frame| :: !Hdlc.StopsAt(frame, i)
    ensures var sent := StuffedPacket(FrameOf(header, data), flagCount, FLAG);
            Octets(sent) &&
            var frame := UnstuffedPacket(sent, FLAG);
            && Octets(frame) && |frame| == 18 + |data| && Accepted(frame)
            && frame[16..|frame| - 2] == data && frame[..16] == header.Bytes()
  {
    hide FrameOf, Hdlc.StopsAt, StuffedPacket, UnstuffedPacket, Accepted;
    PacketExactness(FrameOf(header, data), flagCount);
    LoadedFrameIsAccepted(header, data);
    LoadedHeader(header, data);
  }

  lemma {:induction false} LoadedHeader(header: Header, data: seq<Octet>)
    ensures FrameOf(header, data)[..16] == header.Bytes()
  {
  }
}
