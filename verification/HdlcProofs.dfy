/** Theorems about HDLC bit stuffing: transparency, length bounds and the exact round trip. */
module HdlcProofs {
  import opened BitStrings
  import opened Hdlc

  // ---------- no six consecutive 1s ----------

  /** One of the six bits from i on is 0. */
  predicate ZeroWithinSix(s: Bits, i: nat)
    requires i + 6 <= |s|
  {
    !s[i] || !s[i + 1] || !s[i + 2] || !s[i + 3] || !s[i + 4] || !s[i + 5]
  }

  ghost predicate NoSixOnes(s: Bits)
  {
    forall i: nat | i + 6 <= |s| :: ZeroWithinSix(s, i)
  }

  lemma {:induction false} StuffBitsRun(bits: Bits)
    ensures RunOf(bits) <= 4
    ensures RunOf(bits) <= |StuffBits(bits)|
    ensures forall i | |StuffBits(bits)| - RunOf(bits) <= i < |StuffBits(bits)| :: StuffBits(bits)[i]
    ensures RunOf(bits) < |StuffBits(bits)| ==> !StuffBits(bits)[|StuffBits(bits)| - 1 - RunOf(bits)]
    ensures NoSixOnes(StuffBits(bits))
  {
    if bits != [] {
      var init, last := bits[..|bits| - 1], bits[|bits| - 1];
      StuffBitsRun(init);
      var before, after := StuffBits(init), StuffBits(bits);
      var r := RunOf(init);
      forall i: nat | i + 6 <= |after| ensures ZeroWithinSix(after, i) {
        if i + 6 <= |before| {
          assert ZeroWithinSix(before, i);
        } else if r < |before| {
          assert !after[|before| - 1 - r];
        }
      }
    }
  }

  /** Section 3.6 of AX.25 v2.2: the stuffed payload never holds six 1s in a row. */
  lemma {:induction false} StuffedPayloadHasNoSixOnes(p: seq<Bits>)
    ensures NoSixOnes(StuffedPayload(p))
  {
    StuffBitsRun(Flatten(p));
  }

  // ---------- lengths ----------

  lemma {:induction false} FlagBitsLength(count: nat, flag: Bits)
    requires |flag| == 8
    ensures |FlagBits(count, flag)| == 8 * count
    ensures forall i: nat {:trigger FlagBits(count, flag)[i]} | i < 8 * count :: FlagBits(count, flag)[i] == flag[i % 8]
  {
    if count != 0 { FlagBitsLength(count - 1, flag); }
  }

  /** Every inserted 0 uses up five payload bits. */
  lemma {:induction false} StuffBitsLength(bits: Bits)
    ensures |bits| <= |StuffBits(bits)|
    ensures 5 * (|StuffBits(bits)| - |bits|) + RunOf(bits) <= |bits|
  {
    if bits != [] { StuffBitsLength(bits[..|bits| - 1]); }
  }

  /** For L payload octets the frame has between L and L + L/5 octets besides two per flag. */
  lemma {:induction false} FrameLength(p: seq<Bits>, flagCount: nat, flag: Bits)
    requires Octets(p) && |flag| == 8
    ensures |p| + 2 * flagCount <= |Frame(p, flagCount, flag)| <= |p| + |p| / 5 + 2 * flagCount
  {
    FlattenLength(p);
    StuffBitsLength(Flatten(p));
    FlagBitsLength(flagCount, flag);
  }

  // ---------- the receiver as a fold over bits ----------

  /** The receiver over a bit stream none of whose aligned octets is the flag. */
  function RxStream(bits: Bits): Rx
  {
    if bits == [] then RX_START
    else
      var s := RxBit(RxStream(bits[..|bits| - 1]), bits[|bits| - 1], FLAG);
      if |bits| % 8 == 0 then RxOctetEnd(s, FLAG) else s
  }

  lemma {:induction false} RxStreamStopped(a: Bits, b: Bits)
    requires RxStream(a).stopped
    ensures RxStream(a + b) == RxStream(a)
  {
    if b == [] {
      assert a + b == a;
    } else {
      RxStreamStopped(a, b[..|b| - 1]);
      assert (a + b)[..|a + b| - 1] == a + b[..|b| - 1];
    }
  }

  lemma {:induction false} RxOctetsStopped(x: seq<Bits>, y: seq<Bits>, flag: Bits)
    requires |flag| == 8 && RxOctets(x, flag).stopped
    ensures RxOctets(x + y, flag) == RxOctets(x, flag)
  {
    if y == [] {
      assert x + y == x;
    } else {
      RxOctetsStopped(x, y[..|y| - 1], flag);
      assert (x + y)[..|x + y| - 1] == x + y[..|y| - 1];
    }
  }

  /** Flag octets change nothing, neither before the payload nor after it. */
  lemma {:induction false} RxFlagOctets(x: seq<Bits>, n: nat)
    ensures RxOctets(x + Repeat(FLAG, n), FLAG) == RxOctets(x, FLAG)
  {
    FlagReversed();
    hide RxBits, RxOctetEnd, Reverse;
    var all := x + Repeat(FLAG, n);
    if n == 0 {
      assert all == x;
    } else {
      RxFlagOctets(x, n - 1);
      assert all[..|all| - 1] == x + Repeat(FLAG, n - 1);
      assert all[|all| - 1] == FLAG;
    }
  }

  lemma {:induction false} RxLeadingFlags(n: nat, x: seq<Bits>)
    ensures RxOctets(Repeat(FLAG, n) + x, FLAG) == RxOctets(x, FLAG)
  {
    var all := Repeat(FLAG, n) + x;
    if x == [] {
      RxFlagOctets([], n);
      assert all == [] + Repeat(FLAG, n);
    } else {
      RxLeadingFlags(n, x[..|x| - 1]);
      assert all[..|all| - 1] == Repeat(FLAG, n) + x[..|x| - 1];
    }
  }

  lemma {:induction false} RxStreamSnoc(a: Bits, v: bool)
    ensures var s := RxBit(RxStream(a), v, FLAG);
            RxStream(a + [v]) == if |a| % 8 == 7 then RxOctetEnd(s, FLAG) else s
  {
    hide RxBit, RxOctetEnd, Matches;
    var b := a + [v];
    assert b[..|b| - 1] == a && b[|b| - 1] == v;
    assert |b| % 8 == 0 <==> |a| % 8 == 7;
    assert b != [];
  }

  lemma {:induction false} RxStreamOfOctet(a: Bits, w: Bits)
    requires |a| % 8 == 0 && |w| <= 8
    ensures var s := RxBits(RxStream(a), w, FLAG);
            RxStream(a + w) == if |w| == 8 then RxOctetEnd(s, FLAG) else s
  {
    hide RxBit, RxStream, RxOctetEnd, Matches;
    if w == [] {
      assert a + w == a;
    } else {
      var front, v := w[..|w| - 1], w[|w| - 1];
      RxStreamOfOctet(a, front);
      RxStreamSnoc(a + front, v);
      assert a + w == (a + front) + [v];
    }
  }

  lemma {:induction false} FlagReversed()
    ensures Reverse(FLAG) == FLAG
  {
  }

  ghost predicate NoFlagOctet(bits: Bits)
  {
    forall i: nat | i < |bits| / 8 :: Pack(bits)[i] != FLAG
  }

  /** An octet of the stream that is not the flag is received bit by bit. */
  lemma {:induction false} RxOctetOfStream(a: Bits, w: Bits)
    requires |a| % 8 == 0 && |w| == 8 && w != FLAG
    ensures RxOctet(RxStream(a), w, FLAG) == RxStream(a + w)
  {
    hide RxBit, RxBits, RxOctetEnd, RxStream, Matches, Reverse;
    FlagReversed();
    if RxStream(a).stopped {
      RxStreamStopped(a, w);
    } else {
      RxStreamOfOctet(a, w);
    }
  }

  lemma {:induction false} PackSnoc(bits: Bits, w: Bits)
    requires |bits| % 8 == 0 && |w| == 8
    ensures Pack(bits + w) == Pack(bits) + [w]
  {
    var all := bits + w;
    forall i: nat | i < |bits| / 8 ensures Pack(all)[i] == Pack(bits)[i] {
      assert all[8 * i..8 * i + 8] == bits[8 * i..8 * i + 8];
    }
    assert all[|bits|..|bits| + 8] == w;
  }

  /** Octet by octet and bit by bit the receiver does the same, as long as no octet is passed over. */
  lemma {:induction false} RxPack(bits: Bits)
    requires |bits| % 8 == 0 && NoFlagOctet(bits)
    ensures RxOctets(Pack(bits), FLAG) == RxStream(bits)
    decreases |bits|
  {
    if bits != [] {
      hide RxOctet, RxStream, Pack;
      var a, w := bits[..|bits| - 8], bits[|bits| - 8..];
      assert bits == a + w;
      PackSnoc(a, w);
      assert forall i: nat | i < |a| / 8 :: Pack(a)[i] == Pack(bits)[i];
      assert Pack(bits)[|a| / 8] == w;
      RxPack(a);
      RxOctetOfStream(a, w);
      assert Pack(bits)[..|Pack(bits)| - 1] == Pack(a);
    }
  }

  // ---------- sending one payload bit and receiving it ----------

  lemma {:induction false} EmptyIsNoFlag()
    ensures !Matches([], FLAG)
  {
    assert FLAG[1];
  }

  lemma {:induction false} StuffSnoc(sent: Bits, v: bool)
    ensures RunOf(sent + [v]) == if v && RunOf(sent) < 4 then RunOf(sent) + 1 else 0
    ensures StuffBits(sent + [v]) ==
            if v && RunOf(sent) == 4 then StuffBits(sent) + [true] + [false] else StuffBits(sent) + [v]
  {
    assert (sent + [v])[..|sent|] == sent;
    StuffBitsRun(sent);
  }

  /** What the receiver does with any bit, whoever sent it: a 0 is dropped after five 1s in a row and, since its count of
      1s has eight bits, after 256 more each; never else. */
  lemma {:induction false} DropsExactly(s: Rx, v: bool, flag: Bits)
    requires !s.stopped && |s.bits| < 7 && s.run < 256
    ensures var t := RxBit(s, v, flag);
      && t.bits == (if !v && s.run == 5 then s.bits else s.bits + [v]) && t.out == s.out && !t.stopped
      && t.run == (if !v then 0 else if s.run == 255 then 0 else s.run + 1)
  {
  }

  /** One payload bit sent, with the 0 inserted after it if any, is one payload bit received. */
  lemma {:induction false} RoundTripBit(sent: Bits, v: bool, out: seq<Bits>, part: Bits)
    requires RxStream(StuffBits(sent)) == Rx(out, part, RunOf(sent), false)
    requires |part| < 8 && !Matches(part + [v], FLAG)
    ensures RxStream(StuffBits(sent + [v])) ==
            if |part| < 7 then Rx(out, part + [v], RunOf(sent + [v]), false)
            else Rx(out + [part + [v]], [], RunOf(sent + [v]), false)
  {
    hide RxStream, StuffBits, RunOf, Matches;
    StuffBitsRun(sent);
    StuffSnoc(sent, v);
    EmptyIsNoFlag();
    var before := StuffBits(sent);
    RxStreamSnoc(before, v);
    if v && RunOf(sent) == 4 {
      RxStreamSnoc(before + [true], false);
    }
  }

  lemma {:induction false} RoundTripBits(p: seq<Bits>, o: Bits)
    requires RxStream(StuffedPayload(p)) == Rx(p, [], RunOf(Flatten(p)), false)
    requires |o| <= 8
    requires forall j: nat {:trigger o[..j]} | j <= |o| :: !Matches(o[..j], FLAG)
    ensures var sent := Flatten(p) + o;
            RxStream(StuffBits(sent)) ==
            if |o| < 8 then Rx(p, o, RunOf(sent), false) else Rx(p + [o], [], RunOf(sent), false)
  {
    hide RxStream, StuffBits, RunOf, Matches;
    if o == [] {
      assert Flatten(p) + o == Flatten(p);
    } else {
      var part, v := o[..|o| - 1], o[|o| - 1];
      forall j: nat {:trigger part[..j]} | j <= |part| ensures !Matches(part[..j], FLAG) {
        assert part[..j] == o[..j];
      }
      RoundTripBits(p, part);
      assert o == part + [v] && o[..|o|] == o;
      assert Flatten(p) + o == (Flatten(p) + part) + [v];
      RoundTripBit(Flatten(p) + part, v, p, part);
    }
  }

  /** Only 0x7E and 0xFE look like a flag, in whole or after seven bits. */
  lemma {:induction false} FlagPrefixes(o: Bits, j: nat)
    requires j <= |o| == 8
    ensures Matches(o[..j], FLAG) <==> (o == FLAG && j >= 7) || (o == OCTET_FE && j == 7)
  {
    var part := o[..j];
    if Matches(part, FLAG) {
      assert FLAG[1] && FLAG[2] && FLAG[3] && FLAG[4] && FLAG[5] && FLAG[6] && !FLAG[0] && !FLAG[7];
      assert j >= 7;
      assert o[0] == part[0] && o[1] == part[1] && o[2] == part[2] && o[3] == part[3] && o[4] == part[4]
          && o[5] == part[5] && o[6] == part[6];
      assert forall i | 0 <= i < 7 :: o[i] == FLAG[i];
      assert !o[7] ==> o == FLAG;
      assert o[7] ==> o == OCTET_FE;
    }
  }

  lemma {:induction false} StuffBitsExtends(a: Bits, b: Bits)
    ensures |StuffBits(a)| <= |StuffBits(a + b)| && StuffBits(a + b)[..|StuffBits(a)|] == StuffBits(a)
  {
    hide StuffBits;
    if b == [] {
      assert a + b == a;
    } else {
      StuffBitsExtends(a, b[..|b| - 1]);
      assert a + b == (a + b[..|b| - 1]) + [b[|b| - 1]];
      StuffSnoc(a + b[..|b| - 1], b[|b| - 1]);
    }
  }

  /** An octet other than 0x7E and 0xFE is received as it was sent. */
  lemma {:induction false} RoundTripPlainOctet(p: seq<Bits>, o: Bits)
    requires RxStream(StuffedPayload(p)) == Rx(p, [], RunOf(Flatten(p)), false)
    requires |o| == 8 && o != FLAG && o != OCTET_FE
    ensures RxStream(StuffedPayload(p + [o])) == Rx(p + [o], [], RunOf(Flatten(p + [o])), false)
  {
    forall j: nat {:trigger o[..j]} | j <= |o| ensures !Matches(o[..j], FLAG) {
      FlagPrefixes(o, j);
    }
    RoundTripBits(p, o);
    assert (p + [o])[..|p|] == p;
  }

  const SIX: Bits := [false, true, true, true, true, true]

  /** 0x7E and 0xFE start with 011111, which is sent as seven bits. */
  lemma {:induction false} SendSix(a: Bits)
    ensures RunOf(a + SIX) == 0 && |StuffBits(a + SIX)| == |StuffBits(a)| + 7
  {
    hide StuffBits, RunOf;
    StuffSnoc(a, false);
    StuffSnoc(a + [false], true);
    StuffSnoc(a + [false] + [true], true);
    StuffSnoc(a + [false] + [true] + [true], true);
    StuffSnoc(a + [false] + [true] + [true] + [true], true);
    StuffSnoc(a + [false] + [true] + [true] + [true] + [true], true);
    assert a + SIX == a + [false] + [true] + [true] + [true] + [true] + [true];
  }

  lemma {:induction false} ReceiveSix(p: seq<Bits>)
    requires RxStream(StuffedPayload(p)) == Rx(p, [], RunOf(Flatten(p)), false)
    ensures RxStream(StuffBits(Flatten(p) + SIX)) == Rx(p, SIX, 0, false)
  {
    hide RxStream, StuffBits, RunOf, Matches, Flatten;
    forall j: nat {:trigger SIX[..j]} | j <= |SIX| ensures !Matches(SIX[..j], FLAG) {
      FlagPrefixes(FLAG, j);
      assert SIX[..j] == FLAG[..j];
    }
    RoundTripBits(p, SIX);
    SendSix(Flatten(p));
  }

  /** The last two bits of 0x7E or 0xFE. */
  lemma {:induction false} ReceiveLastTwo(p: seq<Bits>, at6: Bits, v: bool)
    requires RxStream(at6) == Rx(p, SIX, 0, false)
    ensures var s := RxStream(at6 + [true] + [v]);
            if !v || |at6| % 8 == 7 then s.stopped && s.out == p
            else s == Rx(p + [SIX + [true] + [v]], [], 2, false)
  {
    hide RxStream, Matches;
    var seven, eight := SIX + [true], SIX + [true] + [v];
    var o := if v then OCTET_FE else FLAG;
    assert o[..7] == seven && o[..8] == eight;
    FlagPrefixes(o, 7);
    FlagPrefixes(o, 8);
    assert eight[7] == v && OCTET_FE[7];
    EmptyIsNoFlag();
    RxStreamSnoc(at6, true);
    RxStreamSnoc(at6 + [true], v);
  }

  lemma {:induction false} RoundTripFlagLike(p: seq<Bits>, o: Bits)
    requires RxStream(StuffedPayload(p)) == Rx(p, [], RunOf(Flatten(p)), false)
    requires o == FLAG || o == OCTET_FE
    ensures var s := RxStream(StuffedPayload(p + [o]));
            if o == FLAG || |StuffedPayload(p)| % 8 == 0 then s.stopped && s.out == p
            else s == Rx(p + [o], [], RunOf(Flatten(p + [o])), false)
  {
    hide RxStream, StuffBits, RunOf, Matches, Flatten;
    var a, v := Flatten(p), o[7];
    ReceiveSix(p);
    SendSix(a);
    FlattenSnoc(p, o);
    assert o == SIX + [true] + [v];
    assert a + o == a + SIX + [true] + [v];
    StuffSnoc(a + SIX, true);
    StuffSnoc(a + SIX + [true], v);
    ReceiveLastTwo(p, StuffBits(a + SIX), v);
  }

  lemma {:induction false} KeptSnoc(q: seq<Bits>, o: Bits)
    ensures Kept(q + [o]) ==
            if Kept(q) < |q| then Kept(q)
            else if o == FLAG || (o == OCTET_FE && |StuffedPayload(q)| % 8 == 0) then |q| else |q| + 1
  {
    hide StuffedPayload;
    var p := q + [o];
    assert p[..|p| - 1] == q && p[..|q|] == q && p[|q|] == o;
  }

  lemma {:induction false} StoppedStays(q: seq<Bits>, o: Bits)
    requires RxStream(StuffedPayload(q)).stopped
    ensures RxStream(StuffedPayload(q + [o])) == RxStream(StuffedPayload(q))
  {
    hide RxStream, StuffBits, Flatten;
    FlattenSnoc(q, o);
    StuffBitsExtends(Flatten(q), o);
    var sent, n := StuffedPayload(q + [o]), |StuffedPayload(q)|;
    assert sent == sent[..n] + sent[n..];
    RxStreamStopped(sent[..n], sent[n..]);
  }

  lemma {:induction false} RxOfNothing()
    ensures RxStream(StuffedPayload([])) == Rx([], [], RunOf(Flatten([])), false) && Kept([]) == 0
  {
  }

  /** The stuffed payload alone is received up to the first octet that ends reception. */
  lemma {:induction false} RxOfStuffedPayload(p: seq<Bits>)
    requires Octets(p)
    ensures var s := RxStream(StuffedPayload(p));
            if Kept(p) == |p| then s == Rx(p, [], RunOf(Flatten(p)), false)
            else s.stopped && s.out == p[..Kept(p)]
  {
    hide RxStream, StuffedPayload, Kept, RunOf, Flatten;
    if p == [] {
      RxOfNothing();
    } else {
      var q, o := p[..|p| - 1], p[|p| - 1];
      assert p == q + [o];
      RxOfStuffedPayload(q);
      KeptSnoc(q, o);
      if Kept(q) < |q| {
        StoppedStays(q, o);
        assert q[..Kept(q)] == p[..Kept(p)];
      } else if o == FLAG || o == OCTET_FE {
        RoundTripFlagLike(q, o);
        assert p[..|q|] == q;
      } else {
        RoundTripPlainOctet(q, o);
      }
    }
  }

  // ---------- the flags that follow the payload ----------

  /** After a complete payload the bits of a flag output nothing, and its eighth bit ends reception. */
  lemma {:induction false} RxTrailingFlag(p: seq<Bits>, a: Bits, run: nat, k: nat)
    requires RxStream(a) == Rx(p, [], run, false) && run <= 4
    requires 1 <= k <= 8
    ensures var s := RxStream(a + FLAG[..k]);
            s.out == p && (s.stopped || (k < 8 && s == Rx(p, FLAG[..k], k - 1, false)))
  {
    hide RxStream, Matches;
    EmptyIsNoFlag();
    if k == 1 {
      assert FLAG[..1] == [false];
      RxStreamSnoc(a, false);
    } else {
      RxTrailingFlag(p, a, run, k - 1);
      var v := FLAG[k - 1];
      assert FLAG[..k] == FLAG[..k - 1] + [v];
      assert a + FLAG[..k] == (a + FLAG[..k - 1]) + [v];
      RxStreamSnoc(a + FLAG[..k - 1], v);
      FlagPrefixes(FLAG, k);
    }
  }

  // ---------- where flags stand in the stream ----------

  /** Leading flags, stuffed payload and trailing flags as one bit stream. */
  function Stream(lead: nat, p: seq<Bits>, trail: nat): Bits
  {
    FlagBits(lead, FLAG) + StuffedPayload(p) + FlagBits(trail, FLAG)
  }

  /** Bit offset k is the start of one of the flags put before or after the payload. */
  predicate FlagOffset(lead: nat, p: seq<Bits>, trail: nat, k: nat)
  {
    var end := 8 * lead + |StuffedPayload(p)|;
    (k % 8 == 0 && k < 8 * lead) || (end <= k < end + 8 * trail && (k - end) % 8 == 0)
  }

  lemma {:induction false} StreamBits(lead: nat, p: seq<Bits>, trail: nat)
    ensures var w, end := Stream(lead, p, trail), 8 * lead + |StuffedPayload(p)|;
            && |w| == end + 8 * trail
            && (forall j | 0 <= j < 8 * lead :: w[j] == (1 <= j % 8 <= 6))
            && (forall j | 8 * lead <= j < end :: w[j] == StuffedPayload(p)[j - 8 * lead])
            && (forall j | end <= j < |w| :: w[j] == (1 <= (j - end) % 8 <= 6))
  {
    hide StuffedPayload, FlagBits;
    FlagBitsLength(lead, FLAG);
    FlagBitsLength(trail, FLAG);
  }

  lemma {:induction false} WindowIsFlag(w: Bits, k: nat)
    requires k + 8 <= |w|
    ensures w[k..k + 8] == FLAG <==>
            !w[k] && w[k + 1] && w[k + 2] && w[k + 3] && w[k + 4] && w[k + 5] && w[k + 6] && !w[k + 7]
  {
    var win := w[k..k + 8];
    assert win == [w[k], w[k + 1], w[k + 2], w[k + 3], w[k + 4], w[k + 5], w[k + 6], w[k + 7]];
  }

  ghost predicate SixOnes(w: Bits, k: nat)
    requires k + 8 <= |w|
  {
    w[k + 1] && w[k + 2] && w[k + 3] && w[k + 4] && w[k + 5] && w[k + 6]
  }

  /** From an offset inside a flag that is not its start, a bit of value 0 follows within six. */
  lemma {:induction false} ZeroAhead(k: nat) returns (zero: nat)
    requires k % 8 != 0
    ensures k + 1 <= zero <= k + 6
    ensures zero % 8 == 7 || (zero % 8 == 0 && zero == k + 1)
  {
    var q, r := k / 8, k % 8;
    zero := if r == 7 then 8 * q + 8 else 8 * q + 7;
  }

  /** Up to an offset inside a flag that is not its seventh bit, a bit of value 0 precedes within six. */
  lemma {:induction false} ZeroBehind(d: nat) returns (zero: nat)
    requires d % 8 != 6
    ensures d <= zero + 5 && zero <= d
    ensures zero % 8 == 7 || zero % 8 == 0
  {
    var q, r := d / 8, d % 8;
    zero := if r == 7 then d else 8 * q;
  }

  lemma {:induction false} SixOnesInLead(w: Bits, start: nat, k: nat)
    requires k + 1 < start && start % 8 == 0 && k + 8 <= |w| && start <= |w|
    requires forall j | 0 <= j < start :: w[j] == (1 <= j % 8 <= 6)
    requires SixOnes(w, k)
    ensures k % 8 == 0
  {
    if k % 8 != 0 {
      var zero := ZeroAhead(k);
    }
  }

  lemma {:induction false} SixOnesInTrail(w: Bits, end: nat, k: nat)
    requires k + 6 >= end && k + 8 <= |w|
    requires forall j | end <= j < |w| :: w[j] == (1 <= (j - end) % 8 <= 6)
    requires SixOnes(w, k)
    ensures k >= end && (k - end) % 8 == 0
  {
    var d := k + 6 - end;
    if d % 8 != 6 {
      var zero := ZeroBehind(d);
    } else {
      assert d == 8 * (d / 8) + 6;
    }
  }

  lemma {:induction false} SixOnesInBody(w: Bits, start: nat, body: Bits, k: nat)
    requires start <= k + 1 && k + 6 < start + |body| && k + 8 <= |w|
    requires forall j {:trigger w[j]} | start <= j < start + |body| && j < |w| :: w[j] == body[j - start]
    requires NoSixOnes(body)
    ensures !SixOnes(w, k)
  {
    assert ZeroWithinSix(body, k + 1 - start);
  }

  lemma {:induction false} SixOnesAtOffset(lead: nat, p: seq<Bits>, trail: nat, k: nat)
    requires k + 8 <= |Stream(lead, p, trail)|
    requires SixOnes(Stream(lead, p, trail), k)
    ensures FlagOffset(lead, p, trail, k)
  {
    hide Stream, StuffedPayload, SixOnes, NoSixOnes;
    StreamBits(lead, p, trail);
    var w, body := Stream(lead, p, trail), StuffedPayload(p);
    var start, end := 8 * lead, 8 * lead + |body|;
    if k + 1 < start {
      SixOnesInLead(w, start, k);
    } else if k + 6 >= end {
      SixOnesInTrail(w, end, k);
    } else {
      StuffedPayloadHasNoSixOnes(p);
      SixOnesInBody(w, start, body, k);
    }
  }

  lemma {:induction false} FlagAtOffset(lead: nat, p: seq<Bits>, trail: nat, k: nat)
    requires k + 8 <= |Stream(lead, p, trail)| && FlagOffset(lead, p, trail, k)
    ensures forall i | k <= i < k + 8 :: Stream(lead, p, trail)[i] == (1 <= i - k <= 6)
  {
    hide Stream, StuffedPayload;
    StreamBits(lead, p, trail);
    var end := 8 * lead + |StuffedPayload(p)|;
    var base := if k % 8 == 0 && k < 8 * lead then 0 else end;
    forall i | k <= i < k + 8 ensures Stream(lead, p, trail)[i] == (1 <= i - k <= 6) {
      InsideFlag(base, k, i, 8 * lead);
    }
  }

  lemma {:induction false} InsideFlag(base: nat, k: nat, i: nat, start: nat)
    requires base <= k <= i < k + 8 && (k - base) % 8 == 0
    ensures (i - base) % 8 == i - k
    ensures k < start && start % 8 == 0 && base == 0 ==> i < start
  {
  }

  /** A flag is found at exactly the offsets where one was put, whatever the payload. */
  lemma {:induction false} FlagWindow(lead: nat, p: seq<Bits>, trail: nat, k: nat)
    requires k + 8 <= |Stream(lead, p, trail)|
    ensures Stream(lead, p, trail)[k..k + 8] == FLAG <==> FlagOffset(lead, p, trail, k)
  {
    hide Stream, StuffedPayload, FlagOffset;
    var w := Stream(lead, p, trail);
    WindowIsFlag(w, k);
    if w[k..k + 8] == FLAG {
      SixOnesAtOffset(lead, p, trail, k);
    }
    if FlagOffset(lead, p, trail, k) {
      FlagAtOffset(lead, p, trail, k);
    }
  }

  // ---------- the round trip ----------

  lemma {:induction false} PackPrefix(bits: Bits, n: nat)
    requires 8 * n <= |bits|
    ensures Pack(bits[..8 * n]) == Pack(bits)[..n]
  {
    forall i: nat | i < n ensures Pack(bits[..8 * n])[i] == Pack(bits)[i] {
      assert bits[..8 * n][8 * i..8 * i + 8] == bits[8 * i..8 * i + 8];
    }
  }

  /** A prefix of payload and trailing flags of which no aligned octet is a flag is received bit by bit. */
  lemma {:induction false} RxPrefix(p: seq<Bits>, flagCount: nat, n: nat)
    requires 8 * n <= |Stream(0, p, flagCount)|
    requires forall i: nat | i < n :: !FlagOffset(0, p, flagCount, 8 * i)
    ensures var t := Stream(0, p, flagCount);
            RxOctets(Pack(t)[..n], FLAG) == RxStream(t[..8 * n])
  {
    var t := Stream(0, p, flagCount);
    var a := t[..8 * n];
    PackPrefix(t, n);
    forall i: nat | i < |a| / 8 ensures Pack(a)[i] != FLAG {
      FlagWindow(0, p, flagCount, 8 * i);
      assert Pack(t)[i] == t[8 * i..8 * i + 8];
    }
    RxPack(a);
  }

  /** What follows the leading flags is received as the payload up to the first octet that ends reception. */
  lemma {:induction false} RxAfterLead(p: seq<Bits>, flagCount: nat)
    requires Octets(p) && flagCount >= 1
    ensures RxOctets(Pack(Stream(0, p, flagCount)), FLAG).out == p[..Kept(p)]
  {
    hide StuffedPayload, FlagBits, RxStream, RxOctets, Matches, StopsAt;
    var t, body := Stream(0, p, flagCount), StuffedPayload(p);
    StreamBits(0, p, flagCount);
    var n := |body| / 8;
    if |body| % 8 == 0 {
      // The trailing flags are whole octets and are passed over.
      RxPrefix(p, flagCount, n);
      assert t[..8 * n] == body;
      RxOfStuffedPayload(p);
      PackedFlags(p, flagCount);
      RxFlagOctets(Pack(t)[..n], flagCount);
    } else {
      // The first trailing flag straddles an octet boundary and ends reception.
      var last := if flagCount == 1 then n + 1 else n + 2;
      RxPrefix(p, flagCount, last);
      RxStraddlingFlag(p, flagCount, last);
      assert Pack(t) == Pack(t)[..last] + Pack(t)[last..];
      if flagCount == 1 {
        assert Pack(t)[..last] == Pack(t);
      } else {
        RxOctetsStopped(Pack(t)[..last], Pack(t)[last..], FLAG);
      }
    }
  }

  lemma {:induction false} PackedFlagAt(p: seq<Bits>, flagCount: nat, i: nat)
    requires |StuffedPayload(p)| == 8 * (|StuffedPayload(p)| / 8)
    requires |StuffedPayload(p)| / 8 <= i < |StuffedPayload(p)| / 8 + flagCount
    ensures i < |Pack(Stream(0, p, flagCount))| && Pack(Stream(0, p, flagCount))[i] == FLAG
  {
    hide StuffedPayload, FlagBits, Stream;
    StreamBits(0, p, flagCount);
    FlagWindow(0, p, flagCount, 8 * i);
  }

  lemma {:induction false} PackedFlags(p: seq<Bits>, flagCount: nat)
    requires |StuffedPayload(p)| % 8 == 0
    ensures var t, n := Stream(0, p, flagCount), |StuffedPayload(p)| / 8;
            |t| == 8 * (n + flagCount) && Pack(t) == Pack(t)[..n] + Repeat(FLAG, flagCount)
  {
    hide StuffedPayload, FlagBits, Stream, FlagOffset;
    StreamBits(0, p, flagCount);
    var t, n := Stream(0, p, flagCount), |StuffedPayload(p)| / 8;
    forall i | n <= i < n + flagCount ensures Pack(t)[i] == FLAG {
      PackedFlagAt(p, flagCount, i);
    }
  }

  lemma {:induction false} FlagBit(i: nat)
    requires i < 8
    ensures FLAG[i] == (1 <= i <= 6)
  {
  }

  lemma {:induction false} FlagAfterBody(p: seq<Bits>, flagCount: nat, k: nat)
    requires flagCount >= 1 && k <= 8
    ensures var n := |StuffedPayload(p)|;
            n + k <= |Stream(0, p, flagCount)| && Stream(0, p, flagCount)[n..n + k] == FLAG[..k]
  {
    hide StuffedPayload, FlagBits, Stream;
    StreamBits(0, p, flagCount);
    var t, n := Stream(0, p, flagCount), |StuffedPayload(p)|;
    forall i | 0 <= i < k ensures t[n..n + k][i] == FLAG[..k][i] {
      assert t[n + i] == (1 <= i <= 6);
      FlagBit(i);
    }
  }

  lemma {:induction false} RxStraddlingFlag(p: seq<Bits>, flagCount: nat, last: nat)
    requires Octets(p) && flagCount >= 1 && |StuffedPayload(p)| % 8 != 0
    requires last == |StuffedPayload(p)| / 8 + if flagCount == 1 then 1 else 2
    requires 8 * last <= |Stream(0, p, flagCount)|
    ensures var s := RxStream(Stream(0, p, flagCount)[..8 * last]);
            s.out == p[..Kept(p)] && (flagCount == 1 || s.stopped)
  {
    hide StuffedPayload, FlagBits, RxStream, Matches, StopsAt;
    StreamBits(0, p, flagCount);
    var t, body := Stream(0, p, flagCount), StuffedPayload(p);
    RxOfStuffedPayload(p);
    StuffBitsRun(Flatten(p));
    var rest := t[|body|..8 * last];
    assert t[..8 * last] == body + rest;
    assert t[..|body|] == body;
    if Kept(p) < |p| {
      RxStreamStopped(body, rest);
    } else {
      var k := if |rest| < 8 then |rest| else 8;
      FlagAfterBody(p, flagCount, k);
      assert rest[..k] == FLAG[..k];
      RxTrailingFlag(p, body, RunOf(Flatten(p)), k);
      if k == 8 {
        assert body + rest == (body + rest[..8]) + rest[8..];
        RxStreamStopped(body + rest[..8], rest[8..]);
      } else {
        assert rest == rest[..k];
      }
      assert p == p[..|p|];
    }
  }

  /**
   The exact round trip: receiving a framed payload gives the payload up to the first octet that
   ends reception, for every payload and every number of flags from one on.
  */
  lemma {:induction false} UnframeFrame(p: seq<Bits>, flagCount: nat)
    requires Octets(p) && flagCount >= 1
    ensures Unframe(Frame(p, flagCount, FLAG), FLAG) == p[..Kept(p)]
  {
    hide StuffedPayload, FlagBits, RxOctets, Kept;
    FlagReversed();
    assert Stream(0, p, flagCount) == StuffedPayload(p) + FlagBits(flagCount, FLAG) by {
      assert FlagBits(0, FLAG) == [] by { FlagBitsLength(0, FLAG); }
    }
    RxLeadingFlags(flagCount, Pack(Stream(0, p, flagCount)));
    RxAfterLead(p, flagCount);
  }
}
