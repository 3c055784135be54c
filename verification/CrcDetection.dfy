/**
 Which alterations of a bit stream the least-significant-first register cannot miss: every one
 confined to as many consecutive bits as the register is wide, and, for a polynomial with an odd
 number of terms in the register, every one that flips an odd number of bits.
*/
module CrcDetection {
  import opened BitStrings
  import opened Crc

  // ---------- the register one bit at a time ----------

  function Enter(r: Bits, v: bool): (s: Bits)
    requires |r| >= 1
    ensures |s| == |r|
  {
    r[0 := r[0] != v]
  }

  function BitRegister(poly: Bits, r: Bits, bits: Bits): (s: Bits)
    requires |r| == |poly| >= 1
    ensures |s| == |r|
  {
    if bits == [] then r
    else ShiftDown(poly, Enter(BitRegister(poly, r, bits[..|bits| - 1]), bits[|bits| - 1]))
  }

  lemma {:induction false} BitRegisterSnoc(poly: Bits, r: Bits, bits: Bits, v: bool)
    requires |r| == |poly| >= 1
    ensures BitRegister(poly, r, bits + [v]) == ShiftDown(poly, Enter(BitRegister(poly, r, bits), v))
  {
    hide ShiftDown;
    assert (bits + [v])[..|bits|] == bits;
  }

  /** Bit v alone at position n of a register. */
  function Single(n: nat, v: bool, width: nat): (r: Bits)
    requires n < width
    ensures |r| == width && r[n] == v && forall i | 0 <= i < width && i != n :: !r[i]
  {
    Zeros(n) + [v] + Zeros(width - n - 1)
  }

  lemma {:induction false} EnteringSnoc(r: Bits, bits: Bits, v: bool)
    requires |bits| < |r|
    ensures Xor(r, Entering(true, bits + [v], |r|)) ==
            Xor(Xor(r, Entering(true, bits, |r|)), Single(|bits|, v, |r|))
  {
  }

  lemma {:induction false} EnterIsXor(r: Bits, v: bool)
    requires |r| >= 1
    ensures Enter(r, v) == Xor(r, Single(0, v, |r|))
  {
  }

  lemma {:induction false} SingleArrives(poly: Bits, n: nat, v: bool)
    requires n < |poly|
    ensures ShiftN(poly, true, Single(n, v, |poly|), n) == Single(0, v, |poly|)
  {
    hide ShiftN;
    ShiftFarDown(poly, Single(n, v, |poly|), n);
    assert Single(n, v, |poly|)[n..] + Zeros(n) == Single(0, v, |poly|);
  }

  /** Entering bits one at a time or all at once, as long as they fit the register. */
  lemma {:induction false} BitsAtOnce(poly: Bits, r: Bits, bits: Bits)
    requires |r| == |poly| >= 1 && |bits| <= |r|
    ensures BitRegister(poly, r, bits) == ShiftN(poly, true, Xor(r, Entering(true, bits, |r|)), |bits|)
  {
    if bits == [] {
      assert Xor(r, Entering(true, bits, |r|)) == r;
    } else {
      hide *;
      var n := |bits| - 1;
      var front, v := bits[..n], bits[n];
      assert bits == front + [v];
      BitsAtOnce(poly, r, front);
      BitRegisterSnoc(poly, r, front, v);
      EnterIsXor(BitRegister(poly, r, front), v);
      EnteringSnoc(r, front, v);
      var before := Xor(r, Entering(true, front, |r|));
      ShiftNXor(poly, true, before, Single(n, v, |r|), n);
      SingleArrives(poly, n, v);
      ShiftNStep(poly, true, Xor(before, Single(n, v, |r|)), n);
    }
  }

  lemma {:induction false} BitRegisterConcat(poly: Bits, r: Bits, a: Bits, b: Bits)
    requires |r| == |poly| >= 1
    ensures BitRegister(poly, r, a + b) == BitRegister(poly, BitRegister(poly, r, a), b)
  {
    if b == [] {
      assert a + b == a;
    } else {
      BitRegisterConcat(poly, r, a, b[..|b| - 1]);
      assert (a + b)[..|a + b| - 1] == a + b[..|b| - 1];
    }
  }

  lemma {:induction false} OctetAtOnce(poly: Bits, r: Bits, o: Bits)
    requires |r| == |poly| >= 8 && |o| == 8
    ensures OctetStep(poly, true, r, o) == BitRegister(poly, r, o)
  {
    hide BitRegister, ShiftN;
    BitsAtOnce(poly, r, o);
  }

  lemma {:induction false} RegisterIsBitRegister(poly: Bits, r: Bits, message: seq<Bits>)
    requires |r| == |poly| >= 8 && Octets(message)
    ensures Register(poly, true, r, message) == BitRegister(poly, r, Flatten(message))
  {
    hide OctetStep;
    if message != [] {
      var front, o := message[..|message| - 1], message[|message| - 1];
      RegisterIsBitRegister(poly, r, front);
      BitRegisterConcat(poly, r, Flatten(front), o);
      OctetAtOnce(poly, Register(poly, true, r, front), o);
    }
  }

  // ---------- the register forgets nothing ----------

  /** With the top term of the polynomial set, a clock can be undone. */
  lemma {:induction false} ShiftDownInjective(poly: Bits, x: Bits, y: Bits)
    requires |x| == |y| == |poly| >= 1 && poly[|poly| - 1]
    requires ShiftDown(poly, x) == ShiftDown(poly, y)
    ensures x == y
  {
    var s, t := ShiftDown(poly, x), ShiftDown(poly, y);
    assert s[|x| - 1] == x[0] && t[|x| - 1] == y[0];
    forall i | 1 <= i < |x| ensures x[i] == y[i] {
      assert s[i - 1] == (x[i] != Tap(poly, x[0])[i - 1]);
      assert t[i - 1] == (y[i] != Tap(poly, y[0])[i - 1]);
    }
  }

  lemma {:induction false} ShiftNInjective(poly: Bits, x: Bits, y: Bits, n: nat)
    requires |x| == |y| == |poly| >= 1 && poly[|poly| - 1]
    requires ShiftN(poly, true, x, n) == ShiftN(poly, true, y, n)
    ensures x == y
  {
    hide ShiftDown;
    if n != 0 {
      ShiftDownInjective(poly, ShiftN(poly, true, x, n - 1), ShiftN(poly, true, y, n - 1));
      ShiftNInjective(poly, x, y, n - 1);
    }
  }

  lemma {:induction false} BitRegisterInjective(poly: Bits, r: Bits, s: Bits, bits: Bits)
    requires |r| == |s| == |poly| >= 1 && poly[|poly| - 1]
    requires BitRegister(poly, r, bits) == BitRegister(poly, s, bits)
    ensures r == s
  {
    hide ShiftDown;
    if bits != [] {
      var front, v := bits[..|bits| - 1], bits[|bits| - 1];
      var x, y := BitRegister(poly, r, front), BitRegister(poly, s, front);
      ShiftDownInjective(poly, Enter(x, v), Enter(y, v));
      assert x == Enter(Enter(x, v), v) && y == Enter(Enter(y, v), v);
      BitRegisterInjective(poly, r, s, front);
    }
  }

  // ---------- bursts ----------

  /** All positions where a and b differ lie in the `width` bits from i on. */
  ghost predicate DifferOnlyWithin(a: Bits, b: Bits, i: nat, width: nat)
  {
    |a| == |b| && forall k | 0 <= k < |a| && a[k] != b[k] :: i <= k < i + width
  }

  /** A window of register width determines the register. */
  lemma {:induction false} WindowInjective(poly: Bits, r: Bits, v: Bits, w: Bits)
    requires |v| == |w| <= |r| == |poly| && |poly| >= 1 && poly[|poly| - 1]
    requires BitRegister(poly, r, v) == BitRegister(poly, r, w)
    ensures v == w
  {
    hide BitRegister, ShiftN;
    BitsAtOnce(poly, r, v);
    BitsAtOnce(poly, r, w);
    var x, y := Xor(r, Entering(true, v, |r|)), Xor(r, Entering(true, w, |r|));
    ShiftNInjective(poly, x, y, |v|);
    forall i | 0 <= i < |v| ensures v[i] == w[i] {
      assert x[i] == (r[i] != v[i]) && y[i] == (r[i] != w[i]);
    }
  }

  /** Streams that leave the register alike and differ only within a register width do not differ. */
  lemma {:induction false} NoBurstIsMissed(poly: Bits, r: Bits, a: Bits, b: Bits, i: nat)
    requires |r| == |poly| >= 1 && poly[|poly| - 1]
    requires DifferOnlyWithin(a, b, i, |poly|)
    requires BitRegister(poly, r, a) == BitRegister(poly, r, b)
    ensures a == b
  {
    hide BitRegister;
    var lo := if i <= |a| then i else |a|;
    var hi := if lo + |poly| <= |a| then lo + |poly| else |a|;
    assert a[..lo] == b[..lo] && a[hi..] == b[hi..];
    assert a == a[..lo] + a[lo..hi] + a[hi..] && b == b[..lo] + b[lo..hi] + b[hi..];
    BitRegisterConcat(poly, r, a[..lo] + a[lo..hi], a[hi..]);
    BitRegisterConcat(poly, r, b[..lo] + b[lo..hi], b[hi..]);
    BitRegisterConcat(poly, r, a[..lo], a[lo..hi]);
    BitRegisterConcat(poly, r, b[..lo], b[lo..hi]);
    var s := BitRegister(poly, r, a[..lo]);
    BitRegisterInjective(poly, BitRegister(poly, s, a[lo..hi]), BitRegister(poly, s, b[lo..hi]), a[hi..]);
    WindowInjective(poly, s, a[lo..hi], b[lo..hi]);
  }

  // ---------- two flipped bits ----------

  ghost predicate DifferExactlyAt(a: Bits, b: Bits, i: nat, j: nat)
  {
    |a| == |b| && forall k | 0 <= k < |a| :: a[k] != b[k] <==> k == i || k == j
  }

  /** Over equal bits the difference of two registers is clocked without input. */
  lemma {:induction false} DifferenceIsClocked(poly: Bits, x: Bits, y: Bits, bits: Bits)
    requires |x| == |y| == |poly| >= 1
    ensures Xor(BitRegister(poly, x, bits), BitRegister(poly, y, bits)) == ShiftN(poly, true, Xor(x, y), |bits|)
  {
    if bits != [] {
      hide ShiftDown, BitRegister, ShiftN;
      var front, v := bits[..|bits| - 1], bits[|bits| - 1];
      assert bits == front + [v];
      DifferenceIsClocked(poly, x, y, front);
      var s, t := BitRegister(poly, x, front), BitRegister(poly, y, front);
      BitRegisterSnoc(poly, x, front, v);
      BitRegisterSnoc(poly, y, front, v);
      ShiftXor(poly, true, Enter(s, v), Enter(t, v));
      assert Xor(Enter(s, v), Enter(t, v)) == Xor(s, t);
      ShiftNStep(poly, true, Xor(x, y), |front|);
    }
  }

  /** Streams that differ in two bits only leave the register alike exactly when the register with a single
      bit comes back after as many clocks as lie between the two. */
  lemma {:induction false} TwoFlipsReturn(poly: Bits, r: Bits, a: Bits, b: Bits, i: nat, j: nat)
    requires |r| == |poly| >= 1 && poly[|poly| - 1]
    requires i < j < |a| && DifferExactlyAt(a, b, i, j)
    ensures BitRegister(poly, r, a) == BitRegister(poly, r, b)
       <==> ShiftN(poly, true, Single(0, true, |poly|), j - i) == Single(0, true, |poly|)
  {
    hide BitRegister, ShiftDown, ShiftN;
    var mid := a[i + 1..j];
    assert a[..i] == b[..i] && mid == b[i + 1..j] && a[j + 1..] == b[j + 1..];
    var s := BitRegister(poly, r, a[..i]);
    var x, y := ShiftDown(poly, Enter(s, a[i])), ShiftDown(poly, Enter(s, b[i]));
    UpToSecond(poly, r, a, i, j);
    UpToSecond(poly, r, b, i, j);
    var u, v := BitRegister(poly, x, mid), BitRegister(poly, y, mid);
    DifferenceIsClocked(poly, x, y, mid);
    ShiftXor(poly, true, Enter(s, a[i]), Enter(s, b[i]));
    EntersApart(s, a[i], b[i]);
    ShiftFirst(poly, Single(0, true, |poly|), |mid|);
    MeetAgain(u, v, a[j], b[j]);
    if BitRegister(poly, r, a) == BitRegister(poly, r, b) {
      BitRegisterInjective(poly, ShiftDown(poly, Enter(u, a[j])), ShiftDown(poly, Enter(v, b[j])), a[j + 1..]);
      ShiftDownInjective(poly, Enter(u, a[j]), Enter(v, b[j]));
    }
  }

  lemma {:induction false} UpToSecond(poly: Bits, r: Bits, a: Bits, i: nat, j: nat)
    requires |r| == |poly| >= 1 && i < j < |a|
    ensures var x := ShiftDown(poly, Enter(BitRegister(poly, r, a[..i]), a[i]));
      BitRegister(poly, r, a)
        == BitRegister(poly, ShiftDown(poly, Enter(BitRegister(poly, x, a[i + 1..j]), a[j])), a[j + 1..])
  {
    hide BitRegister, ShiftDown;
    assert a == a[..j + 1] + a[j + 1..];
    BitRegisterConcat(poly, r, a[..j + 1], a[j + 1..]);
    assert a[..j + 1] == a[..j] + [a[j]];
    BitRegisterSnoc(poly, r, a[..j], a[j]);
    assert a[..j] == a[..i + 1] + a[i + 1..j];
    BitRegisterConcat(poly, r, a[..i + 1], a[i + 1..j]);
    assert a[..i + 1] == a[..i] + [a[i]];
    BitRegisterSnoc(poly, r, a[..i], a[i]);
  }

  lemma {:induction false} EntersApart(s: Bits, v: bool, w: bool)
    requires |s| >= 1 && v != w
    ensures Xor(Enter(s, v), Enter(s, w)) == Single(0, true, |s|)
  {
  }

  lemma {:induction false} MeetAgain(u: Bits, v: Bits, c: bool, d: bool)
    requires |u| == |v| >= 1 && c != d
    ensures Enter(u, c) == Enter(v, d) <==> Xor(u, v) == Single(0, true, |u|)
  {
    if Enter(u, c) == Enter(v, d) {
      forall i | 0 <= i < |u| ensures Xor(u, v)[i] == Single(0, true, |u|)[i] {
        assert Enter(u, c)[i] == Enter(v, d)[i];
      }
    }
    if Xor(u, v) == Single(0, true, |u|) {
      forall i | 0 <= i < |u| ensures Enter(u, c)[i] == Enter(v, d)[i] {
        assert Xor(u, v)[i] == (u[i] != v[i]);
      }
    }
  }

  /** Clocking once and then n times is clocking n + 1 times. */
  lemma {:induction false} ShiftFirst(poly: Bits, x: Bits, n: nat)
    requires |x| == |poly| >= 1
    ensures ShiftN(poly, true, ShiftDown(poly, x), n) == ShiftN(poly, true, x, n + 1)
  {
    if n == 0 {
      assert ShiftN(poly, true, x, 0) == x;
    } else {
      ShiftFirst(poly, x, n - 1);
    }
  }

  // ---------- parity ----------

  /** True when an odd number of bits are set. */
  function Parity(bits: Bits): bool
  {
    if bits == [] then false else Parity(bits[..|bits| - 1]) != bits[|bits| - 1]
  }

  lemma {:induction false} ParityXor(a: Bits, b: Bits)
    requires |a| == |b|
    ensures Parity(Xor(a, b)) == (Parity(a) != Parity(b))
  {
    if a != [] {
      ParityXor(a[..|a| - 1], b[..|b| - 1]);
      assert Xor(a, b)[..|a| - 1] == Xor(a[..|a| - 1], b[..|b| - 1]);
    }
  }

  lemma {:induction false} ParityHead(bits: Bits)
    requires bits != []
    ensures Parity(bits) == (bits[0] != Parity(bits[1..]))
  {
    if |bits| > 1 {
      ParityHead(bits[..|bits| - 1]);
      assert bits[1..][..|bits| - 2] == bits[..|bits| - 1][1..];
    }
  }

  lemma {:induction false} ParityZeros(n: nat)
    ensures !Parity(Zeros(n))
  {
    if n != 0 {
      ParityZeros(n - 1);
      assert Zeros(n)[..n - 1] == Zeros(n - 1);
    }
  }

  lemma {:induction false} ParityShift(poly: Bits, x: Bits)
    requires |x| == |poly| >= 1 && Parity(poly)
    ensures Parity(ShiftDown(poly, x)) == Parity(x)
  {
    ParityXor(x[1..] + [false], Tap(poly, x[0]));
    ParityHead(x);
    ParityZeros(|poly|);
    assert (x[1..] + [false])[..|x| - 1] == x[1..];
  }

  lemma {:induction false} ParityEnter(r: Bits, v: bool)
    requires |r| >= 1
    ensures Parity(Enter(r, v)) == (Parity(r) != v)
  {
    ParityHead(r);
    ParityHead(Enter(r, v));
    assert Enter(r, v)[1..] == r[1..];
  }

  /** The parity of everything that entered stays in the register. */
  lemma {:induction false} ParityRegister(poly: Bits, r: Bits, bits: Bits)
    requires |r| == |poly| >= 1 && Parity(poly)
    ensures Parity(BitRegister(poly, r, bits)) == (Parity(r) != Parity(bits))
  {
    if bits != [] {
      var front, v := bits[..|bits| - 1], bits[|bits| - 1];
      ParityRegister(poly, r, front);
      ParityEnter(BitRegister(poly, r, front), v);
      ParityShift(poly, Enter(BitRegister(poly, r, front), v));
    }
  }

  /** An odd number of flipped bits never leaves the register alike. */
  lemma {:induction false} NoOddErrorIsMissed(poly: Bits, r: Bits, a: Bits, b: Bits)
    requires |r| == |poly| >= 1 && Parity(poly)
    requires |a| == |b| && Parity(Xor(a, b))
    ensures BitRegister(poly, r, a) != BitRegister(poly, r, b)
  {
    ParityXor(a, b);
    ParityRegister(poly, r, a);
    ParityRegister(poly, r, b);
  }
}
