/** Two flipped bits in frames of every size, and with the odd numbers up to three. */
module FewErrors {
  import opened BitStrings
  import opened Crc
  import opened CrcDetection
  import opened Crc16Lib
  import opened Ax25
  import opened Ax25Proofs
  import Period = RegisterPeriod

  // ---------- the register and its cells ----------

  function CellAt(w: Period.Cells, i: nat): bool
    requires i < 16
  {
    if i < 8 then
      if i < 4 then
        if i == 0 then w.b0 else if i == 1 then w.b1 else if i == 2 then w.b2 else w.b3
      else if i == 4 then w.b4 else if i == 5 then w.b5 else if i == 6 then w.b6 else w.b7
    else
      if i < 12 then
        if i == 8 then w.b8 else if i == 9 then w.b9 else if i == 10 then w.b10 else w.b11
      else if i == 12 then w.b12 else if i == 13 then w.b13 else if i == 14 then w.b14 else w.b15
  }

  function BitsOf(w: Period.Cells): (r: Word)
    ensures forall i | 0 <= i < 16 :: r[i] == CellAt(w, i)
  {
    seq(16, i requires 0 <= i < 16 => CellAt(w, i))
  }

  lemma {:induction false} CellsAre(w: Period.Cells)
    ensures CellAt(w, 0) == w.b0 && CellAt(w, 1) == w.b1 && CellAt(w, 2) == w.b2 && CellAt(w, 3) == w.b3
    ensures CellAt(w, 4) == w.b4 && CellAt(w, 5) == w.b5 && CellAt(w, 6) == w.b6 && CellAt(w, 7) == w.b7
    ensures CellAt(w, 8) == w.b8 && CellAt(w, 9) == w.b9 && CellAt(w, 10) == w.b10 && CellAt(w, 11) == w.b11
    ensures CellAt(w, 12) == w.b12 && CellAt(w, 13) == w.b13 && CellAt(w, 14) == w.b14 && CellAt(w, 15) == w.b15
  {
  }

  lemma {:induction false} SameCells(u: Period.Cells, v: Period.Cells)
    requires forall i | 0 <= i < 16 :: CellAt(u, i) == CellAt(v, i)
    ensures u == v
  {
    hide CellAt;
    CellsAre(u);
    CellsAre(v);
  }

  lemma {:induction false} BitsOfInjective(u: Period.Cells, v: Period.Cells)
    requires BitsOf(u) == BitsOf(v)
    ensures u == v
  {
    hide BitsOf, CellAt;
    forall i | 0 <= i < 16 ensures CellAt(u, i) == CellAt(v, i) {
      assert BitsOf(u)[i] == BitsOf(v)[i];
    }
    SameCells(u, v);
  }

  /** Cell i after a clock. */
  function NextCell(w: Period.Cells, i: nat): bool
    requires i < 16
  {
    if i == 15 then CellAt(w, 0) else CellAt(w, i + 1) != (CellAt(w, 0) && (i == 3 || i == 10))
  }

  lemma {:induction false} CellClocked0(w: Period.Cells, i: nat)
    requires i < 4
    ensures CellAt(Period.Clocked(w), i) == NextCell(w, i)
  {
  }

  lemma {:induction false} CellClocked4(w: Period.Cells, i: nat)
    requires 4 <= i < 8
    ensures CellAt(Period.Clocked(w), i) == NextCell(w, i)
  {
  }

  lemma {:induction false} CellClocked8(w: Period.Cells, i: nat)
    requires 8 <= i < 12
    ensures CellAt(Period.Clocked(w), i) == NextCell(w, i)
  {
  }

  lemma {:induction false} CellClocked12(w: Period.Cells, i: nat)
    requires 12 <= i < 16
    ensures CellAt(Period.Clocked(w), i) == NextCell(w, i)
  {
  }

  lemma {:induction false} CellClocked(w: Period.Cells, i: nat)
    requires i < 16
    ensures CellAt(Period.Clocked(w), i) == NextCell(w, i)
  {
    hide CellAt, NextCell;
    if i < 4 {
      CellClocked0(w, i);
    } else if i < 8 {
      CellClocked4(w, i);
    } else if i < 12 {
      CellClocked8(w, i);
    } else {
      CellClocked12(w, i);
    }
  }

  lemma {:induction false} ShiftIsClock(w: Period.Cells, n: nat)
    ensures ShiftN(TAPS, true, BitsOf(w), n) == BitsOf(Period.ClockedN(w, n))
  {
    hide BitsOf, CellAt, Period.Clocked, Reverse, Hex;
    if n > 0 {
      ShiftIsClock(w, n - 1);
      OneClock(w, n - 1, Period.ClockedN(w, n - 1));
    }
  }

  lemma {:induction false} OneClock(w: Period.Cells, n: nat, v: Period.Cells)
    requires ShiftN(TAPS, true, BitsOf(w), n) == BitsOf(v)
    ensures ShiftN(TAPS, true, BitsOf(w), n + 1) == BitsOf(Period.Clocked(v))
  {
    hide ShiftN, ShiftDown, Reverse, Hex, BitsOf, CellAt, Period.Clocked;
    ShiftNStep(TAPS, true, BitsOf(w), n);
    forall i | 0 <= i < 16 ensures ShiftDown(TAPS, BitsOf(v))[i] == BitsOf(Period.Clocked(v))[i] {
      ClockedBit(BitsOf(v), i);
      CellClocked(v, i);
    }
  }

  /** A single bit at the end of the register comes back exactly after the multiples of the period. */
  lemma {:induction false} SingleReturns(d: nat)
    ensures ShiftN(TAPS, true, Single(0, true, 16), d) == Single(0, true, 16) <==> d % Period.PERIOD == 0
  {
    hide ShiftN, Reverse, Hex, Period.ClockedN;
    var last := Period.ClockedN(Period.ONE, 15);
    Period.LastCell();
    assert BitsOf(last) == Single(0, true, 16);
    ShiftIsClock(last, d);
    Period.LastCellReturns(d);
    if BitsOf(Period.ClockedN(last, d)) == BitsOf(last) {
      BitsOfInjective(Period.ClockedN(last, d), last);
    }
  }

  // ---------- two flipped bits ----------

  /** In a frame that is checked as a whole two flipped bits are missed exactly when their distance is a
      multiple of 32767 bits. */
  lemma {:induction false} TwoFlipsWithin(frame: seq<Octet>, other: seq<Octet>, i: nat, j: nat)
    requires 2 <= |frame| <= 65537 && |other| == |frame| && Accepted(frame)
    requires i < j < |Flatten(frame)| && DifferExactlyAt(Flatten(frame), Flatten(other), i, j)
    ensures Accepted(other) <==> (j - i) % 32767 == 0
  {
    hide BitRegister, Hex, Reverse, Flatten, Accepted, Xor, ShiftN;
    TopTapAndParity();
    AcceptedByResidue(frame);
    AcceptedByResidue(other);
    SingleReturns(j - i);
    TwoFlipsReturn(TAPS, ONES, Flatten(frame), Flatten(other), i, j);
  }

  /** The number of bits under the FCS that are looked at. */
  function LookedBits(frame: seq<Octet>): nat
    requires |frame| >= 2
  {
    8 * ((|frame| - 2) % 65536)
  }

  /** Bit k lies under the FCS but is not looked at. */
  predicate Overlooked(frame: seq<Octet>, k: nat)
    requires |frame| >= 2
  {
    LookedBits(frame) <= k < 8 * (|frame| - 2)
  }

  /** The position of bit k among those that are looked at. */
  function LookedAt(frame: seq<Octet>, k: nat): nat
    requires |frame| >= 2
  {
    if k < 8 * (|frame| - 2) then k else k - (8 * (|frame| - 2) - LookedBits(frame))
  }

  function BackFrom(frame: seq<Octet>, k: nat): nat
    requires |frame| >= 2
  {
    if k < LookedBits(frame) then k else k + (8 * (|frame| - 2) - LookedBits(frame))
  }

  lemma {:induction false} LookedOnce(frame: seq<Octet>, k: nat)
    requires |frame| >= 2
    ensures !Overlooked(frame, BackFrom(frame, k)) && LookedAt(frame, BackFrom(frame, k)) == k
    ensures !Overlooked(frame, k) ==> BackFrom(frame, LookedAt(frame, k)) == k
    ensures k < LookedBits(frame) + 16 <==> BackFrom(frame, k) < 8 * |frame|
    ensures forall i: nat | i < k && !Overlooked(frame, i) && !Overlooked(frame, k) ::
              LookedAt(frame, i) < LookedAt(frame, k)
  {
  }

  lemma {:induction false} CheckedBit(frame: seq<Octet>, k: nat)
    requires |frame| >= 2 && k < LookedBits(frame) + 16
    ensures |Flatten(Checked(frame))| == LookedBits(frame) + 16 && |Flatten(frame)| == 8 * |frame|
    ensures BackFrom(frame, k) < 8 * |frame|
    ensures Flatten(Checked(frame))[k] == Flatten(frame)[BackFrom(frame, k)]
  {
    hide Flatten;
    var n, c := |frame| - 2, (|frame| - 2) % SIZE_UINT16;
    var short := Checked(frame);
    var i, bit := k / 8, k % 8;
    var at := if i < c then i else i + (n - c);
    FlattenLength(short);
    FlattenLength(frame);
    FlattenAt(short, i, bit);
    FlattenAt(frame, at, bit);
    assert short[i] == frame[at];
    assert BackFrom(frame, k) == 8 * at + bit;
  }

  /** Which of the bits looked at differ. */
  lemma {:induction false} CheckedDiffer(frame: seq<Octet>, other: seq<Octet>, i: nat, j: nat, k: nat)
    requires 2 <= |frame| == |other| && i < j < |Flatten(frame)| && k < LookedBits(frame) + 16
    requires DifferExactlyAt(Flatten(frame), Flatten(other), i, j)
    ensures |Flatten(Checked(frame))| == |Flatten(Checked(other))| == LookedBits(frame) + 16
    ensures Flatten(Checked(frame))[k] != Flatten(Checked(other))[k] <==>
            (!Overlooked(frame, i) && k == LookedAt(frame, i)) || (!Overlooked(frame, j) && k == LookedAt(frame, j))
  {
    hide Flatten, Checked;
    CheckedBit(frame, k);
    CheckedBit(other, k);
    LookedOnce(frame, k);
    LookedOnce(frame, i);
    LookedOnce(frame, j);
  }

  /** Two flipped bits of a frame of any size are missed exactly when both are overlooked, or none is and their
      distance in what is looked at is a multiple of 32767 bits. */
  lemma {:induction false} TwoFlips(frame: seq<Octet>, other: seq<Octet>, i: nat, j: nat)
    requires 2 <= |frame| == |other| && Accepted(frame)
    requires i < j < |Flatten(frame)| && DifferExactlyAt(Flatten(frame), Flatten(other), i, j)
    ensures Accepted(other) <==>
            if Overlooked(frame, i) then Overlooked(frame, j)
            else !Overlooked(frame, j) && (LookedAt(frame, j) - LookedAt(frame, i)) % 32767 == 0
  {
    hide Flatten, Accepted, Checked, Overlooked, LookedAt, BackFrom;
    var a, b := Checked(frame), Checked(other);
    var fa, fb := Flatten(a), Flatten(b);
    FlattenLength(frame);
    CheckedDecides(frame);
    CheckedDecides(other);
    CheckedDiffer(frame, other, i, j, 0);
    SameSize(frame, other);
    forall k: nat | k < |fa| ensures fa[k] != fb[k] <==>
      (!Overlooked(frame, i) && k == LookedAt(frame, i)) || (!Overlooked(frame, j) && k == LookedAt(frame, j))
    {
      CheckedDiffer(frame, other, i, j, k);
    }
    LookedInRange(frame, i);
    LookedInRange(frame, j);
    if Overlooked(frame, i) && Overlooked(frame, j) {
      assert fa == fb;
      FlattenInjective(a, b);
    } else if Overlooked(frame, i) {
      assert fa[LookedAt(frame, j)] != fb[LookedAt(frame, j)];
      BurstIsRejected(a, b, LookedAt(frame, j));
    } else if Overlooked(frame, j) {
      assert fa[LookedAt(frame, i)] != fb[LookedAt(frame, i)];
      BurstIsRejected(a, b, LookedAt(frame, i));
    } else {
      LookedOnce(frame, j);
      TwoFlipsWithin(a, b, LookedAt(frame, i), LookedAt(frame, j));
    }
  }

  lemma {:induction false} SameSize(frame: seq<Octet>, other: seq<Octet>)
    requires 2 <= |frame| == |other|
    ensures |Checked(frame)| == |Checked(other)| == (|frame| - 2) % SIZE_UINT16 + 2
  {
  }

  lemma {:induction false} LookedInRange(frame: seq<Octet>, k: nat)
    requires |frame| >= 2 && k < 8 * |frame|
    ensures !Overlooked(frame, k) ==> LookedAt(frame, k) < LookedBits(frame) + 16
  {
  }

  // ---------- up to three flipped bits ----------

  function Ones(bits: Bits): nat
  {
    if bits == [] then 0 else Ones(bits[..|bits| - 1]) + if bits[|bits| - 1] then 1 else 0
  }

  lemma {:induction false} ParityIsOdd(bits: Bits)
    ensures Parity(bits) <==> Ones(bits) % 2 == 1
  {
    if bits != [] { ParityIsOdd(bits[..|bits| - 1]); }
  }

  lemma {:induction false} NoOnes(bits: Bits)
    requires Ones(bits) == 0
    ensures forall k | 0 <= k < |bits| :: !bits[k]
  {
    if bits != [] {
      NoOnes(bits[..|bits| - 1]);
      assert forall k | 0 <= k < |bits| - 1 :: bits[k] == bits[..|bits| - 1][k];
    }
  }

  lemma {:induction false} OneOne(bits: Bits) returns (i: nat)
    requires Ones(bits) == 1
    ensures i < |bits| && forall k | 0 <= k < |bits| :: bits[k] <==> k == i
  {
    var front := bits[..|bits| - 1];
    if bits[|bits| - 1] {
      i := |bits| - 1;
      NoOnes(front);
    } else {
      i := OneOne(front);
    }
    assert forall k | 0 <= k < |bits| - 1 :: bits[k] == front[k];
  }

  lemma {:induction false} TwoOnes(bits: Bits) returns (i: nat, j: nat)
    requires Ones(bits) == 2
    ensures i < j < |bits| && forall k | 0 <= k < |bits| :: bits[k] <==> k == i || k == j
  {
    var front := bits[..|bits| - 1];
    if bits[|bits| - 1] {
      j := |bits| - 1;
      i := OneOne(front);
    } else {
      i, j := TwoOnes(front);
    }
    assert forall k | 0 <= k < |bits| - 1 :: bits[k] == front[k];
  }

  lemma {:induction false} ErrorsAt(frame: seq<Octet>, other: seq<Octet>, i: nat, j: nat)
    requires |frame| == |other|
    requires forall k | 0 <= k < |Errors(frame, other)| :: Errors(frame, other)[k] <==> k == i || k == j
    ensures |Errors(frame, other)| == |Flatten(frame)| == 8 * |frame|
    ensures DifferExactlyAt(Flatten(frame), Flatten(other), i, j)
  {
    FlattenLength(frame);
    FlattenLength(other);
    hide Flatten;
    var a, b := Flatten(frame), Flatten(other);
    forall k | 0 <= k < |a| ensures a[k] != b[k] <==> k == i || k == j {
      assert Errors(frame, other)[k] == (a[k] != b[k]);
    }
  }

  lemma {:induction false} TwoErrorsAreRejected(frame: seq<Octet>, other: seq<Octet>)
    requires 2 <= |frame| <= 4095 && |other| == |frame| && Accepted(frame)
    requires Ones(Errors(frame, other)) == 2
    ensures !Accepted(other)
  {
    hide Accepted, Ones, Flatten, Errors, DifferExactlyAt;
    var i, j := TwoOnes(Errors(frame, other));
    ErrorsAt(frame, other, i, j);
    TwoFlipsWithin(frame, other, i, j);
  }

  /** In a frame of at most 4095 bytes up to three flipped bits, wherever they are, are noticed. */
  lemma {:induction false} FewErrorsAreRejected(frame: seq<Octet>, other: seq<Octet>)
    requires 2 <= |frame| <= 4095 && |other| == |frame| && Accepted(frame)
    requires 1 <= Ones(Errors(frame, other)) <= 3
    ensures !Accepted(other)
  {
    hide Accepted, Ones, Errors, Parity;
    ParityIsOdd(Errors(frame, other));
    if Ones(Errors(frame, other)) == 2 {
      TwoErrorsAreRejected(frame, other);
    } else {
      OddErrorIsRejected(frame, other);
    }
  }

  /** The frame with bit k of the stream flipped. */
  function Flipped(frame: seq<Octet>, k: nat): (other: seq<Octet>)
    requires k < 8 * |frame|
    ensures |other| == |frame|
  {
    var o := frame[k / 8];
    frame[k / 8 := o[k % 8 := !o[k % 8]]]
  }

  lemma {:induction false} FlippedBit(frame: seq<Octet>, k: nat, i: nat)
    requires k < 8 * |frame| && i < 8 * |frame|
    ensures |Flatten(frame)| == |Flatten(Flipped(frame, k))| == 8 * |frame|
    ensures Flatten(frame)[i] != Flatten(Flipped(frame, k))[i] <==> i == k
  {
    hide Flatten;
    FlattenLength(frame);
    FlattenLength(Flipped(frame, k));
    FlattenAt(frame, i / 8, i % 8);
    FlattenAt(Flipped(frame, k), i / 8, i % 8);
    assert i == 8 * (i / 8) + i % 8;
  }

  lemma {:induction false} FlippedTwice(frame: seq<Octet>, i: nat, j: nat)
    requires i < j < 8 * |frame|
    ensures var other := Flipped(Flipped(frame, i), j);
            |Flatten(frame)| == 8 * |frame| && DifferExactlyAt(Flatten(frame), Flatten(other), i, j)
  {
    hide Flatten, Flipped;
    var once := Flipped(frame, i);
    var other := Flipped(once, j);
    FlippedBit(frame, i, 0);
    FlippedBit(once, j, 0);
    forall k: nat | k < 8 * |frame| ensures Flatten(frame)[k] != Flatten(other)[k] <==> k == i || k == j {
      FlippedBit(frame, i, k);
      FlippedBit(once, j, k);
    }
  }

  lemma {:induction false} CountOnes(bits: Bits, i: nat, j: nat)
    requires i < j && forall k | 0 <= k < |bits| :: bits[k] <==> k == i || k == j
    ensures Ones(bits) == (if i < |bits| then 1 else 0) + (if j < |bits| then 1 else 0)
  {
    if bits != [] {
      CountOnes(bits[..|bits| - 1], i, j);
    }
  }

  lemma {:induction false} TwoErrors(frame: seq<Octet>, other: seq<Octet>, i: nat, j: nat)
    requires |frame| == |other| && i < j < |Flatten(frame)|
    requires DifferExactlyAt(Flatten(frame), Flatten(other), i, j)
    ensures Ones(Errors(frame, other)) == 2
  {
    hide Flatten, Ones;
    var errors := Errors(frame, other);
    FlattenLength(frame);
    FlattenLength(other);
    forall k | 0 <= k < |errors| ensures errors[k] <==> k == i || k == j {
      assert errors[k] == (Flatten(frame)[k] != Flatten(other)[k]);
    }
    CountOnes(errors, i, j);
  }

  /** A longer frame has two bits whose change is missed. */
  lemma {:induction false} TwoMissed(frame: seq<Octet>) returns (other: seq<Octet>)
    requires |frame| > 4095 && Accepted(frame)
    ensures |other| == |frame| && Ones(Errors(frame, other)) == 2 && Accepted(other)
  {
    hide Flatten, Accepted, Errors, Ones, Flipped;
    var i, j := 0, Period.PERIOD;
    if |frame| > SIZE_UINT16 + 1 {
      i, j := LookedBits(frame), LookedBits(frame) + 1;
    }
    other := Flipped(Flipped(frame, i), j);
    FlippedTwice(frame, i, j);
    TwoErrors(frame, other, i, j);
    TwoFlips(frame, other, i, j);
  }

  /** One to three flipped bits of an accepted frame are always noticed exactly up to 4095 bytes. */
  lemma {:induction false} FewErrorsExactly(frame: seq<Octet>)
    requires |frame| >= 2 && Accepted(frame)
    ensures (forall other: seq<Octet> | |other| == |frame| && 1 <= Ones(Errors(frame, other)) <= 3 :: !Accepted(other))
       <==> |frame| <= 4095
  {
    hide Accepted, Errors, Ones;
    if |frame| <= 4095 {
      forall other: seq<Octet> | |other| == |frame| && 1 <= Ones(Errors(frame, other)) <= 3 ensures !Accepted(other) {
        FewErrorsAreRejected(frame, other);
      }
    } else {
      var other := TwoMissed(frame);
    }
  }
}
