/**
 The cyclic redundancy check as a shift register over strings of bits, index 0 the least significant,
 for a register of any width, and the properties its users rest on.
*/
module Crc {
  import opened BitStrings

  function Tap(poly: Bits, out: bool): (r: Bits)
    ensures |r| == |poly|
  {
    if out then poly else Zeros(|poly|)
  }

  /** One clock towards bit 0, for bits that go least significant first. */
  function ShiftDown(poly: Bits, x: Bits): (r: Bits)
    requires |x| == |poly| >= 1
    ensures |r| == |x|
  {
    Xor(x[1..] + [false], Tap(poly, x[0]))
  }

  /** One clock towards the most significant bit. */
  function ShiftUp(poly: Bits, x: Bits): (r: Bits)
    requires |x| == |poly| >= 1
    ensures |r| == |x|
  {
    Xor([false] + x[..|x| - 1], Tap(poly, x[|x| - 1]))
  }

  function Shift(poly: Bits, lsbFirst: bool, x: Bits): (r: Bits)
    requires |x| == |poly| >= 1
    ensures |r| == |x|
  {
    if lsbFirst then ShiftDown(poly, x) else ShiftUp(poly, x)
  }

  function ShiftN(poly: Bits, lsbFirst: bool, x: Bits, n: nat): (r: Bits)
    requires |x| == |poly| >= 1
    ensures |r| == |x|
  {
    if n == 0 then x else Shift(poly, lsbFirst, ShiftN(poly, lsbFirst, x, n - 1))
  }

  lemma {:induction false} ShiftNStep(poly: Bits, lsbFirst: bool, x: Bits, n: nat)
    requires |x| == |poly| >= 1
    ensures ShiftN(poly, lsbFirst, x, n + 1) == Shift(poly, lsbFirst, ShiftN(poly, lsbFirst, x, n))
  {
  }

  /** A message octet, least significant bit at index 0, at the end of the register where it enters. */
  function Entering(lsbFirst: bool, o: Bits, width: nat): (r: Bits)
    requires |o| <= width
    ensures |r| == width
  {
    if lsbFirst then o + Zeros(width - |o|) else Zeros(width - |o|) + o
  }

  function OctetStep(poly: Bits, lsbFirst: bool, crc: Bits, o: Bits): (r: Bits)
    requires |crc| == |poly| >= 8 && |o| == 8
    ensures |r| == |crc|
  {
    ShiftN(poly, lsbFirst, Xor(crc, Entering(lsbFirst, o, |crc|)), 8)
  }

  function Register(poly: Bits, lsbFirst: bool, initial: Bits, message: seq<Bits>): (r: Bits)
    requires |initial| == |poly| >= 8 && Octets(message)
    ensures |r| == |initial|
  {
    if message == [] then initial
    else OctetStep(poly, lsbFirst, Register(poly, lsbFirst, initial, message[..|message| - 1]), message[|message| - 1])
  }

  /** The polynomial is given most significant first and reflected for the other direction. */
  function Effective(poly: Bits, lsbFirst: bool): (r: Bits)
    ensures |r| == |poly|
  {
    if lsbFirst then Reverse(poly) else poly
  }

  function CrcOf(poly: Bits, initial: Bits, xorout: Bits, lsbFirst: bool, message: seq<Bits>): (r: Bits)
    requires |initial| == |poly| == |xorout| >= 8 && Octets(message)
    ensures |r| == |poly|
  {
    Xor(Register(Effective(poly, lsbFirst), lsbFirst, initial, message), xorout)
  }

  // ---------- mirror image ----------

  lemma {:induction false} ReverseXor(a: Bits, b: Bits)
    requires |a| == |b|
    ensures Reverse(Xor(a, b)) == Xor(Reverse(a), Reverse(b))
  {
  }

  lemma {:induction false} ReverseShift(poly: Bits, x: Bits)
    requires |x| == |poly| >= 1
    ensures Reverse(Shift(poly, false, x)) == Shift(Reverse(poly), true, Reverse(x))
  {
    ReverseTap(poly, x[|x| - 1]);
    ReverseXor([false] + x[..|x| - 1], Tap(poly, x[|x| - 1]));
    ReverseMove(x);
  }

  lemma {:induction false} ReverseTap(poly: Bits, out: bool)
    ensures Reverse(Tap(poly, out)) == Tap(Reverse(poly), out)
  {
  }

  lemma {:induction false} ReverseMove(x: Bits)
    requires |x| >= 1
    ensures Reverse([false] + x[..|x| - 1]) == Reverse(x)[1..] + [false]
  {
  }

  lemma {:induction false} ReverseShiftN(poly: Bits, x: Bits, n: nat)
    requires |x| == |poly| >= 1
    ensures Reverse(ShiftN(poly, false, x, n)) == ShiftN(Reverse(poly), true, Reverse(x), n)
  {
    hide Shift, Reverse;
    if n != 0 {
      ReverseShiftN(poly, x, n - 1);
      ReverseShift(poly, ShiftN(poly, false, x, n - 1));
    }
  }

  lemma {:induction false} ReverseEntering(o: Bits, width: nat)
    requires |o| <= width
    ensures Reverse(Entering(false, o, width)) == Entering(true, Reverse(o), width)
  {
  }

  lemma {:induction false} ReverseRegister(poly: Bits, initial: Bits, message: seq<Bits>)
    requires |initial| == |poly| >= 8 && Octets(message)
    ensures Reverse(Register(poly, false, initial, message))
         == Register(Reverse(poly), true, Reverse(initial), ReverseAll(message))
  {
    hide Reverse, ShiftN, Xor, Entering;
    if message != [] {
      var front, o := message[..|message| - 1], message[|message| - 1];
      ReverseRegister(poly, initial, front);
      assert ReverseAll(message)[..|message| - 1] == ReverseAll(front);
      var r := Register(poly, false, initial, front);
      ReverseShiftN(poly, Xor(r, Entering(false, o, |r|)), 8);
      ReverseXor(r, Entering(false, o, |r|));
      ReverseEntering(o, |r|);
    }
  }

  /**
   The least-significant-first CRC and the most-significant-first CRC are each other's mirror image:
   on the message with every octet reversed, from the reversed initial value and xorout.
  */
  lemma {:induction false} Duality(poly: Bits, initial: Bits, xorout: Bits, message: seq<Bits>)
    requires |initial| == |poly| == |xorout| >= 8 && Octets(message)
    ensures CrcOf(poly, initial, xorout, true, message)
         == Reverse(CrcOf(poly, Reverse(initial), Reverse(xorout), false, ReverseAll(message)))
  {
    hide Reverse, Register, Xor;
    var mirrored := ReverseAll(message);
    ReverseRegister(poly, Reverse(initial), mirrored);
    ReverseTwice(initial);
    ReverseTwice(xorout);
    ReverseXor(Register(poly, false, Reverse(initial), mirrored), Reverse(xorout));
    ReverseAllTwice(message);
  }

  // ---------- linearity and the lookup table ----------

  lemma {:induction false} ShiftXor(poly: Bits, lsbFirst: bool, x: Bits, y: Bits)
    requires |x| == |y| == |poly| >= 1
    ensures Shift(poly, lsbFirst, Xor(x, y)) == Xor(Shift(poly, lsbFirst, x), Shift(poly, lsbFirst, y))
  {
  }

  lemma {:induction false} ShiftNXor(poly: Bits, lsbFirst: bool, x: Bits, y: Bits, n: nat)
    requires |x| == |y| == |poly| >= 1
    ensures ShiftN(poly, lsbFirst, Xor(x, y), n) == Xor(ShiftN(poly, lsbFirst, x, n), ShiftN(poly, lsbFirst, y, n))
  {
    hide Shift, Xor;
    if n != 0 {
      ShiftNXor(poly, lsbFirst, x, y, n - 1);
      ShiftXor(poly, lsbFirst, ShiftN(poly, lsbFirst, x, n - 1), ShiftN(poly, lsbFirst, y, n - 1));
    }
  }

  /** Clocks that find only 0s at the outgoing end just move the register along. */
  lemma {:induction false} ShiftFarDown(poly: Bits, x: Bits, n: nat)
    requires |x| == |poly| >= 1 && n <= |x|
    requires forall i | 0 <= i < n :: !x[i]
    ensures ShiftN(poly, true, x, n) == x[n..] + Zeros(n)
  {
    hide ShiftDown;
    if n == 0 {
      assert x[0..] + Zeros(0) == x;
    } else {
      ShiftFarDown(poly, x, n - 1);
      MoveDown(poly, x, n);
    }
  }

  lemma {:induction false} MoveDown(poly: Bits, x: Bits, n: nat)
    requires |x| == |poly| >= 1 && 1 <= n <= |x| && !x[n - 1]
    ensures ShiftDown(poly, x[n - 1..] + Zeros(n - 1)) == x[n..] + Zeros(n)
  {
    var y: Bits := x[n - 1..] + Zeros(n - 1);
    assert !y[0];
    assert y[1..] + [false] == x[n..] + Zeros(n);
  }

  lemma {:induction false} ShiftFarUp(poly: Bits, x: Bits, n: nat)
    requires |x| == |poly| >= 1 && n <= |x|
    requires forall i | |x| - n <= i < |x| :: !x[i]
    ensures ShiftN(poly, false, x, n) == Zeros(n) + x[..|x| - n]
  {
    hide ShiftN;
    ReverseShiftN(poly, x, n);
    ShiftFarDown(Reverse(poly), Reverse(x), n);
    ReverseTwice(ShiftN(poly, false, x, n));
    assert Reverse(Reverse(x)[n..] + Zeros(n)) == Zeros(n) + x[..|x| - n];
  }

  /** The octet that selects the entry of the lookup table. */
  function TableIndex(lsbFirst: bool, crc: Bits, o: Bits): (r: Bits)
    requires |o| == 8 <= |crc|
    ensures |r| == 8
  {
    if lsbFirst then Xor(o, crc[..8]) else Xor(o, crc[|crc| - 8..])
  }

  /** The rest of the register, one octet further on. */
  function Remaining(lsbFirst: bool, crc: Bits): (r: Bits)
    requires |crc| >= 8
    ensures |r| == |crc|
  {
    if lsbFirst then crc[8..] + Zeros(8) else Zeros(8) + crc[..|crc| - 8]
  }

  /** One octet by table: the entry is what the register makes of that octet alone. */
  lemma {:induction false} TableStep(poly: Bits, lsbFirst: bool, crc: Bits, o: Bits)
    requires |crc| == |poly| >= 8 && |o| == 8
    ensures OctetStep(poly, lsbFirst, crc, o) ==
            Xor(OctetStep(poly, lsbFirst, Zeros(|crc|), TableIndex(lsbFirst, crc, o)), Remaining(lsbFirst, crc))
  {
    hide ShiftN;
    var near := Entering(lsbFirst, TableIndex(lsbFirst, crc, o), |crc|);
    var far := if lsbFirst then Zeros(8) + crc[8..] else crc[..|crc| - 8] + Zeros(8);
    assert Xor(crc, Entering(lsbFirst, o, |crc|)) == Xor(near, far);
    assert Xor(Zeros(|crc|), near) == near;
    ShiftNXor(poly, lsbFirst, near, far, 8);
    if lsbFirst {
      ShiftFarDown(poly, far, 8);
    } else {
      ShiftFarUp(poly, far, 8);
    }
  }
}
