/** Finite strings of bits, index 0 first. */
module BitStrings {

  type Bits = seq<bool>

  /** A byte of the source: bit k is at index k. */
  type Octet = o: Bits | |o| == 8 witness Zeros(8)

  /** A 16-bit word of the source: bit k is at index k. */
  type Word = w: Bits | |w| == 16 witness Zeros(16)

  /** 256 * high + low, as the source puts words together. */
  function Join(low: Octet, high: Octet): (w: Word)
    ensures w[..8] == low && w[8..] == high
  {
    var bits: Bits := low;
    bits + high
  }

  ghost predicate Octets(p: seq<Bits>)
  {
    forall i | 0 <= i < |p| :: |p[i]| == 8
  }

  function Zeros(n: nat): (r: Bits)
    ensures |r| == n && forall i | 0 <= i < n :: !r[i]
  {
    seq(n, i => false)
  }

  function Xor(a: Bits, b: Bits): (r: Bits)
    requires |a| == |b|
    ensures |r| == |a| && forall i | 0 <= i < |a| :: r[i] == (a[i] != b[i])
  {
    seq(|a|, i requires 0 <= i < |a| => a[i] != b[i])
  }

  function Reverse(a: Bits): (r: Bits)
    ensures |r| == |a| && forall i | 0 <= i < |a| :: r[i] == a[|a| - 1 - i]
  {
    seq(|a|, i requires 0 <= i < |a| => a[|a| - 1 - i])
  }

  function ReverseAll(message: seq<Bits>): (r: seq<Bits>)
    ensures |r| == |message| && forall i | 0 <= i < |r| :: r[i] == Reverse(message[i])
  {
    seq(|message|, i requires 0 <= i < |message| => Reverse(message[i]))
  }

  lemma {:induction false} ReverseTwice(a: Bits)
    ensures Reverse(Reverse(a)) == a
  {
  }

  lemma {:induction false} ReverseAllTwice(message: seq<Bits>)
    ensures ReverseAll(ReverseAll(message)) == message
  {
    forall i | 0 <= i < |message| ensures ReverseAll(ReverseAll(message))[i] == message[i] {
      ReverseTwice(message[i]);
    }
  }

  /** All octets one after the other. */
  function Flatten(p: seq<Bits>): Bits
  {
    if p == [] then [] else Flatten(p[..|p| - 1]) + p[|p| - 1]
  }

  lemma {:induction false} FlattenLength(p: seq<Bits>)
    requires Octets(p)
    ensures |Flatten(p)| == 8 * |p|
  {
    if p != [] { FlattenLength(p[..|p| - 1]); }
  }

  lemma {:induction false} FlattenSnoc(p: seq<Bits>, o: Bits)
    ensures Flatten(p + [o]) == Flatten(p) + o
  {
    assert (p + [o])[..|p|] == p;
  }

  // ---------- numbers ----------

  /** The lowest bits of n. */
  function FromNat(n: nat, width: nat): (r: Bits)
    ensures |r| == width
  {
    if width == 0 then [] else [n % 2 == 1] + FromNat(n / 2, width - 1)
  }

  function Value(bits: Bits): nat
  {
    if bits == [] then 0 else (if bits[0] then 1 else 0) + 2 * Value(bits[1..])
  }

  function Nibble(d: nat): (r: Bits)
    requires d < 16
    ensures |r| == 4
  {
    [d % 2 == 1, d / 2 % 2 == 1, d / 4 % 2 == 1, d / 8 % 2 == 1]
  }

  /** A 16-bit word by its hexadecimal digits. */
  function Hex(d3: nat, d2: nat, d1: nat, d0: nat): (w: Word)
    requires d3 < 16 && d2 < 16 && d1 < 16 && d0 < 16
  {
    Nibble(d0) + Nibble(d1) + Nibble(d2) + Nibble(d3)
  }

  function Power2(n: nat): nat
  {
    if n == 0 then 1 else 2 * Power2(n - 1)
  }

  lemma {:induction false} ValueOfFromNat(n: nat, width: nat)
    requires n < Power2(width)
    ensures Value(FromNat(n, width)) == n
  {
    if width != 0 { ValueOfFromNat(n / 2, width - 1); }
  }

  lemma {:induction false} ValueSnoc(bits: Bits, b: bool)
    ensures Value(bits + [b]) == Value(bits) + if b then Power2(|bits|) else 0
  {
    if bits == [] {
      assert ([] + [b])[1..] == [];
    } else {
      ValueSnoc(bits[1..], b);
      assert (bits + [b])[1..] == bits[1..] + [b];
    }
  }

  lemma {:induction false} FromNatOfValue(bits: Bits)
    ensures Value(bits) < Power2(|bits|) && FromNat(Value(bits), |bits|) == bits
  {
    if bits != [] {
      FromNatOfValue(bits[1..]);
      FromNatCons(bits[0], Value(bits[1..]), |bits| - 1);
    }
  }

  lemma {:induction false} FromNatCons(v: bool, n: nat, width: nat)
    ensures FromNat((if v then 1 else 0) + 2 * n, width + 1) == [v] + FromNat(n, width)
  {
  }
}
