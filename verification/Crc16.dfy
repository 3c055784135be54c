/** crclib.cpp: the bitwise CRC, the lookup table built from it, and the table-driven CRC. */
module Crc16Lib {
  import opened BitStrings
  import opened BufferedRead
  import opened Crc

  const SIZE_UINT16 := 65536

  /** uint8to with a byte order other than the machine's: the shift loop that reverses a byte. */
  method ReverseByte(b: Octet) returns (rev: Octet)
    ensures rev == Reverse(b)
  {
    var rb := b;
    rev := Zeros(8);
    for ic := 0 to 8
      invariant rb == b[ic..] + Zeros(ic)
      invariant rev == Reverse(b[..ic]) + Zeros(8 - ic)
    {
      rev := [false] + rev[..7];
      if rb[0] {
        rev := rev[0 := !rev[0]];
      }
      rb := rb[1..] + [false];
    }
  }

  /** Bits of one octet that a bitwise CRC has still to take in after j rounds. */
  function Pending(lsbFirst: bool, o: Octet, j: nat): (ch: Word)
    requires j <= 8
  {
    if lsbFirst then o[j..] + Zeros(8 + j) else Zeros(j) + o + Zeros(8 - j)
  }

  /** calc_crc16: one bit at a time. Its counter is a uint16, so longer buffers never finish. */
  method CalcBitwise(buf: seq<Octet>, polynomial: Word, initial: Word, xorout: Word, lsbFirst: bool)
    returns (crc: Word)
    requires |buf| < SIZE_UINT16
    ensures crc == CrcOf(polynomial, initial, xorout, lsbFirst, buf)
  {
    hide Register, ShiftN, Shift, Pending, StillToEnter, Reverse, Xor, OctetStep, Entering;
    var poly := polynomial;
    if lsbFirst {
      var lowByte := ReverseByte(poly[..8]);
      var highByte := ReverseByte(poly[8..]);
      poly := Join(highByte, lowByte);
      ReverseHalves(polynomial);
    }
    crc := initial;
    RegisterStart(poly, lsbFirst, initial, buf);
    for i := 0 to |buf|
      invariant crc == Register(poly, lsbFirst, initial, buf[..i])
    {
      var ch: Word := buf[i] + Zeros(8);
      ghost var joined := Xor(crc, Entering(lsbFirst, buf[i], 16));
      PendingAll(poly, lsbFirst, crc, buf[i]);
      for j := 0 to 8
        invariant ch == Pending(lsbFirst, buf[i], j)
        invariant ShiftN(poly, lsbFirst, joined, j) == Xor(crc, StillToEnter(lsbFirst, ch))
      {
        BitRound(poly, lsbFirst, crc, buf[i], j);
        ShiftNStep(poly, lsbFirst, joined, j);
        if lsbFirst {
          crc := Xor(crc[1..] + [false], if ch[0] != crc[0] then poly else Zeros(16));
          ch := ch[1..] + [false];
        } else {
          crc := Xor([false] + crc[..15], if ch[7] != crc[15] then poly else Zeros(16));
          ch := [false] + ch[..15];
        }
      }
      PendingNone(lsbFirst, buf[i], crc);
      RegisterStep(poly, lsbFirst, initial, buf, i);
    }
    assert buf[..|buf|] == buf;
    crc := Xor(crc, xorout);
  }

  /** The pending bits where they meet the register. */
  function StillToEnter(lsbFirst: bool, ch: Word): (w: Word)
  {
    if lsbFirst then ch else Zeros(8) + ch[..8]
  }

  lemma {:induction false} ReverseHalves(w: Word)
    ensures Reverse(w) == Join(Reverse(w[8..]), Reverse(w[..8]))
  {
  }

  lemma {:induction false} RegisterStart(poly: Word, lsbFirst: bool, initial: Word, buf: seq<Octet>)
    ensures Register(poly, lsbFirst, initial, buf[..0]) == initial
  {
  }

  lemma {:induction false} PendingAll(poly: Word, lsbFirst: bool, crc: Word, o: Octet)
    ensures Pending(lsbFirst, o, 0) == o + Zeros(8)
    ensures StillToEnter(lsbFirst, o + Zeros(8)) == Entering(lsbFirst, o, 16)
    ensures var joined := Xor(crc, Entering(lsbFirst, o, 16));
            ShiftN(poly, lsbFirst, joined, 0) == joined && ShiftN(poly, lsbFirst, joined, 8) == OctetStep(poly, lsbFirst, crc, o)
  {
  }

  lemma {:induction false} PendingNone(lsbFirst: bool, o: Octet, crc: Word)
    ensures Xor(crc, StillToEnter(lsbFirst, Pending(lsbFirst, o, 8))) == crc
  {
  }

  lemma {:induction false} PendingStep(lsbFirst: bool, o: Octet, j: nat)
    requires j < 8
    ensures var ch, next := Pending(lsbFirst, o, j), Pending(lsbFirst, o, j + 1);
            next == if lsbFirst then ch[1..] + [false] else [false] + ch[..15]
  {
  }

  lemma {:induction false} RegisterStep(poly: Word, lsbFirst: bool, initial: Word, buf: seq<Octet>, i: nat)
    requires i < |buf|
    ensures Register(poly, lsbFirst, initial, buf[..i + 1]) ==
            OctetStep(poly, lsbFirst, Register(poly, lsbFirst, initial, buf[..i]), buf[i])
  {
    assert buf[..i + 1][..i] == buf[..i];
  }

  /** One round of the bit loop clocks the register joined with the bits still to enter. */
  lemma {:induction false} BitRound(poly: Word, lsbFirst: bool, crc: Word, o: Octet, j: nat)
    requires j < 8
    ensures var ch, next := Pending(lsbFirst, o, j), Pending(lsbFirst, o, j + 1);
            && next == (if lsbFirst then ch[1..] + [false] else [false] + ch[..15])
            && Shift(poly, lsbFirst, Xor(crc, StillToEnter(lsbFirst, ch))) ==
               if lsbFirst then Xor(Xor(crc[1..] + [false], if ch[0] != crc[0] then poly else Zeros(16)), StillToEnter(true, next))
               else Xor(Xor([false] + crc[..15], if ch[7] != crc[15] then poly else Zeros(16)), StillToEnter(false, next))
  {
    PendingStep(lsbFirst, o, j);
    if lsbFirst {
      RoundDown(poly, crc, Pending(true, o, j));
    } else {
      assert Pending(false, o, j)[..8][7] == Pending(false, o, j)[7];
      RoundUp(poly, crc, Pending(false, o, j));
    }
  }

  lemma {:induction false} RoundDown(poly: Word, crc: Word, ch: Word)
    ensures ShiftDown(poly, Xor(crc, ch)) ==
            Xor(Xor(crc[1..] + [false], if ch[0] != crc[0] then poly else Zeros(16)), ch[1..] + [false])
  {
  }

  lemma {:induction false} RoundUp(poly: Word, crc: Word, ch: Word)
    ensures ShiftUp(poly, Xor(crc, Zeros(8) + ch[..8])) ==
            Xor(Xor([false] + crc[..15], if ch[7] != crc[15] then poly else Zeros(16)), Zeros(8) + ([false] + ch[..15])[..8])
  {
    var joined := Xor(crc, Zeros(8) + ch[..8]);
    var next := [false] + ch[..15];
    assert joined[15] == (crc[15] != ch[7]);
    forall i | 0 <= i < 16
      ensures ShiftUp(poly, joined)[i] ==
              Xor(Xor([false] + crc[..15], if ch[7] != crc[15] then poly else Zeros(16)), Zeros(8) + next[..8])[i]
    {
      if i > 8 {
        assert joined[i - 1] == (crc[i - 1] != ch[i - 9]) && next[i - 8] == ch[i - 9];
      } else if i > 0 {
        assert joined[i - 1] == crc[i - 1];
      }
    }
  }

  // ---------- class CRC16 ----------

  /** What the lookup table holds for a byte value: the register after that byte alone. */
  function Entry(polynomial: Word, lsbFirst: bool, value: nat): (w: Word)
    requires value < 256
  {
    OctetStep(Effective(polynomial, lsbFirst), lsbFirst, Zeros(16), FromNat(value, 8))
  }

  lemma {:induction false} EntryIsCrc(polynomial: Word, lsbFirst: bool, value: nat)
    requires value < 256
    ensures CrcOf(polynomial, Zeros(16), Zeros(16), lsbFirst, [FromNat(value, 8)]) == Entry(polynomial, lsbFirst, value)
  {
    var message := [FromNat(value, 8)];
    assert message[..0] == [];
    assert Register(Effective(polynomial, lsbFirst), lsbFirst, Zeros(16), message) == Entry(polynomial, lsbFirst, value);
    assert Xor(Entry(polynomial, lsbFirst, value), Zeros(16)) == Entry(polynomial, lsbFirst, value);
  }

  lemma {:induction false} CrcIsRegister(polynomial: Word, initial: Word, xorout: Word, lsbFirst: bool,
      message: seq<Octet>)
    ensures CrcOf(polynomial, initial, xorout, lsbFirst, message)
         == Xor(Register(Effective(polynomial, lsbFirst), lsbFirst, initial, message), xorout)
  {
  }

  lemma {:induction false} RegisterOfNothing(poly: Word, lsbFirst: bool, initial: Word, message: seq<Octet>)
    ensures Register(poly, lsbFirst, initial, message[..0]) == initial
  {
  }

  /** What fopen gives. */
  datatype FileOrNone = NotOpened | Opened(file: File)

  datatype FileCrc = NoFile | Computed(crc: Word)

  class Crc16 {
    const lookup: array<Word>
    var initial: Word
    var polynomial: Word
    var xorout: Word
    var lsbFirst: bool

    ghost predicate Valid()
      reads this, lookup
    {
      lookup.Length == 256 && forall n | 0 <= n < 256 :: lookup[n] == Entry(polynomial, lsbFirst, n)
    }

    /** The CRC this object is set for. */
    ghost function Spec(message: seq<Octet>): (w: Word)
      reads this
    {
      CrcOf(polynomial, initial, xorout, lsbFirst, message)
    }

    constructor (polynomial: Word, initial: Word, xorout: Word, lsbFirst: bool)
      ensures Valid() && fresh(lookup)
      ensures this.polynomial == polynomial && this.initial == initial
      ensures this.xorout == xorout && this.lsbFirst == lsbFirst
    {
      lookup := new Word[256];
      new;
      Set(polynomial, initial, xorout, lsbFirst);
    }

    /** set: keeps the parameters and computes the remainder of each possible dividend. */
    method Set(polynomial: Word, initial: Word, xorout: Word, lsbFirst: bool)
      requires lookup.Length == 256
      modifies this, lookup
      ensures Valid()
      ensures this.polynomial == polynomial && this.initial == initial
      ensures this.xorout == xorout && this.lsbFirst == lsbFirst
    {
      hide Entry, CrcOf, FromNat;
      this.lsbFirst := lsbFirst;
      this.initial := initial;
      this.xorout := xorout;
      this.polynomial := polynomial;
      for dividend := 0 to 256
        invariant this.polynomial == polynomial && this.initial == initial
        invariant this.xorout == xorout && this.lsbFirst == lsbFirst
        invariant forall n | 0 <= n < dividend :: lookup[n] == Entry(polynomial, lsbFirst, n)
      {
        var remainder := CalcBitwise([FromNat(dividend, 8)], polynomial, Zeros(16), Zeros(16), lsbFirst);
        EntryIsCrc(polynomial, lsbFirst, dividend);
        lookup[dividend] := remainder;
      }
    }

    /** One step of the byte loop. */
    method Advance(remainder: Word, byte: Octet) returns (next: Word)
      requires Valid()
      ensures next == OctetStep(Effective(polynomial, lsbFirst), lsbFirst, remainder, byte)
    {
      hide OctetStep, Xor, Value, FromNat;
      TableStep(Effective(polynomial, lsbFirst), lsbFirst, remainder, byte);
      var data: Octet := if lsbFirst then Xor(byte, remainder[..8]) else Xor(byte, remainder[8..]);
      FromNatOfValue(data);
      assert Value(data) < 256 by { assert Power2(8) == 256; }
      next := if lsbFirst then Xor(lookup[Value(data)], remainder[8..] + Zeros(8))
              else Xor(lookup[Value(data)], Zeros(8) + remainder[..8]);
    }

    /** calc(buffer, size): by table; the size is a uint16. */
    method Calc(message: seq<Octet>, size: nat) returns (crc: Word)
      requires Valid()
      requires size <= |message| && size < SIZE_UINT16
      ensures crc == Spec(message[..size])
    {
      var remainder := initial;
      for byte := 0 to size
        invariant remainder == Register(Effective(polynomial, lsbFirst), lsbFirst, initial, message[..byte])
      {
        remainder := Advance(remainder, message[byte]);
        RegisterStep(Effective(polynomial, lsbFirst), lsbFirst, initial, message, byte);
      }
      crc := Xor(remainder, xorout);
    }

    /** calc(vector): the size is cut to 16 bits on its way into the parameter. */
    method CalcAll(message: seq<Octet>) returns (crc: Word)
      requires Valid()
      ensures crc == Spec(message[..|message| % 65536])
    {
      crc := Calc(message, |message| % SIZE_UINT16);
    }

    /** calc_file: the same by way of the read buffer, for files of any size. Each scan leaves the buffer
        empty, so that the next one, even of a file with the same handle, reads nothing left over. */
    method CalcFile(found: FileOrNone, buffer: ReadBuffer) returns (r: FileCrc)
      requires Valid() && buffer.Empty() && buffer.bytes as object != lookup as object
      requires found.Opened? ==> found.file.handle != NO_HANDLE
      modifies buffer, buffer.bytes
      ensures Valid() && buffer.Empty()
      ensures r == match found case NotOpened => NoFile case Opened(file) => FileCrc.Computed(Spec(file.content))
    {
      hide Register, CrcOf, Effective, OctetStep, Entry, Xor, ReadBuffer.IsFreshFor, Crc16.Valid, ReadBuffer.Valid;
      if found.NotOpened? {
        return NoFile;
      }
      var file, remainder, offset := found.file, initial, 0;
      RegisterOfNothing(Effective(polynomial, lsbFirst), lsbFirst, initial, file.content);
      var count, byte := buffer.ReadByte(file, offset);
      while count > 0
        invariant Valid() && buffer.IsFreshFor(file) && (count == 0 ==> buffer.Empty())
        invariant offset <= |file.content| && count == if offset < |file.content| then 1 else 0
        invariant count > 0 ==> byte == file.content[offset]
        invariant remainder == Register(Effective(polynomial, lsbFirst), lsbFirst, initial, file.content[..offset])
        decreases |file.content| - offset
      {
        remainder := Advance(remainder, byte);
        RegisterStep(Effective(polynomial, lsbFirst), lsbFirst, initial, file.content, offset);
        offset := offset + 1;
        count, byte := buffer.ReadByte(file, offset);
      }
      assert file.content[..offset] == file.content;
      CrcIsRegister(polynomial, initial, xorout, lsbFirst, file.content);
      r := FileCrc.Computed(Xor(remainder, xorout));
    }
  }
}
