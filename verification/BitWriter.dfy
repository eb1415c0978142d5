/** The bit writer object (bit_write.rs). */
module BitWriters {
  import opened Arithmetic
  import opened ByteStrings
  import opened Bits

  /** `b |= 1 << k` */
  function SetBit(b: nat, k: nat): nat
  {
    if BitAt(b, k) then b else b + Pow2(k)
  }

  /** `b &= !(1 << k)` */
  function ClearBit(b: nat, k: nat): int
  {
    if BitAt(b, k) then b - Pow2(k) else b
  }

  /** The number of bits that complete the current byte. */
  function Padding(bits: nat): (n: nat)
    ensures n < 8 && (bits + n) % 8 == 0
  {
    (8 - bits % 8) % 8
  }

  /** Below `v` shifted left by `k + 1` bits there is room for one more bit at `k`. */
  lemma RoomForBit(v: nat, k: nat)
    ensures v * Pow2(k + 1) == (2 * v) * Pow2(k)
    ensures !BitAt(v * Pow2(k + 1), k)
    ensures v * Pow2(k + 1) + Pow2(k) == (2 * v + 1) * Pow2(k)
  {
    var p := Pow2(k);
    MulDouble(v, p);
    MulNext(2 * v, p);
    DivisionIsUnique((2 * v) * p, p, 2 * v);
  }

  /** An unfinished byte: its bits at the top, zeros below. */
  function Partial(bits: seq<bool>): nat
    requires |bits| <= 8
  {
    Value(bits) * Pow2(8 - |bits|)
  }

  lemma SetNextBit(prefix: seq<bool>, bit: bool)
    requires |prefix| < 8
    ensures (if bit then SetBit(Partial(prefix), 7 - |prefix|) else ClearBit(Partial(prefix), 7 - |prefix|))
      == Partial(prefix + [bit])
  {
    RoomForBit(Value(prefix), 7 - |prefix|);
    assert (prefix + [bit])[..|prefix|] == prefix;
    assert Value(prefix + [bit]) == 2 * Value(prefix) + if bit then 1 else 0;
    hide Pow2, Value, BitAt;
  }

  lemma ToBitsSmall(v: nat, count: nat, i: nat)
    requires i < count
    ensures ToBits(v, count)[..i + 1] == ToBits(v, count)[..i] + [BitAt(v, count - i - 1)]
  {
    ToBitsAt(v, count, i);
  }

  lemma ByteIsFull(bits: seq<bool>)
    requires |bits| == 8
    ensures Partial(bits) < 256 && ToBits(Partial(bits), 8) == bits
    ensures Partial([]) == 0
  {
    assert Pow2(0) == 1;
    assert Pow2(8) == 256 && Value(bits) < Pow2(8) by {
      Pow2Values();
      ValueBound(bits);
    }
    ValueToBits(bits);
  }

  /** Handing a full byte over to the sink keeps the bits. */
  lemma FullByte(writer: Bytes, bits: seq<bool>)
    requires |bits| == 8
    ensures Partial(bits) < 256 && BitsOf(writer + [Partial(bits)]) == BitsOf(writer) + bits
    ensures Partial([]) == 0
  {
    ByteIsFull(bits);
    BitsOfConcat(writer, [Partial(bits)]);
    BitsOfByte(Partial(bits));
  }

  lemma BitsOfPrefix(buf: Bytes, i: nat)
    requires i < |buf|
    ensures BitsOf(buf[..i + 1]) == BitsOf(buf[..i]) + ToBits(buf[i], 8)
  {
    assert buf[..i + 1][..i] == buf[..i];
  }

  class BitWriter {
    var bitPos: nat
    var currentByte: nat
    var writer: Bytes
    /** The bits of the unfinished byte. */
    ghost var pending: seq<bool>

    ghost predicate Valid()
      reads this
    {
      bitPos == |pending| < 8 && currentByte == Partial(pending)
    }

    /** Everything written so far. */
    ghost function Written(): seq<bool>
      reads this
    {
      BitsOf(writer) + pending
    }

    constructor (writer: Bytes)
      ensures Valid() && Written() == BitsOf(writer)
    {
      this.writer := writer;
      bitPos, currentByte, pending := 0, 0, [];
      new;
      assert Partial([]) == 0;
      assert BitsOf(writer) + [] == BitsOf(writer);
    }

    method WriteBit(bit: bool)
      requires Valid()
      modifies this
      ensures Valid() && Written() == old(Written()) + [bit]
    {
      SetNextBit(pending, bit);
      hide SetBit, ClearBit, Partial, BitsOf, ToBits, BitAt, Pow2, Value, Padding;
      ghost var before := BitsOf(writer) + pending;
      Regroup(BitsOf(writer), pending, [bit]);
      if bit {
        currentByte := SetBit(currentByte, 7 - bitPos);
      } else {
        currentByte := ClearBit(currentByte, 7 - bitPos);
      }
      bitPos := bitPos + 1;
      pending := pending + [bit];
      if bitPos == 8 {
        FullByte(writer, pending);
        writer := writer + [currentByte];
        currentByte := 0;
        bitPos := 0;
        pending := [];
        assert Written() == before + [bit] + [];
      }
    }

    /** Refuses a value that does not fit, and then changes nothing. */
    method WriteBits(bits: U64, count: U8) returns (ok: bool)
      requires Valid()
      modifies this
      ensures Valid()
      ensures ok <==> bits < Pow2(if count < 64 then count else 64)
      ensures ok ==> Written() == old(Written()) + ToBits(bits, if count < 64 then count else 64)
      ensures !ok ==> bitPos == old(bitPos) && currentByte == old(currentByte) && writer == old(writer)
      ensures !ok ==> Written() == old(Written())
    {
      Pow2Values();
      var n := if count < 64 then count else 64;
      if n != 64 && bits > Pow2(n) - 1 {
        return false;
      }
      hide Pow2, ToBits, BitsOf, BitAt, Partial;
      ghost var start := Written();
      var i := 0;
      while i < n
        invariant 0 <= i <= n && Valid()
        invariant Written() == start + ToBits(bits, n)[..i]
      {
        ToBitsSmall(bits, n, i);
        Regroup(start, ToBits(bits, n)[..i], [BitAt(bits, n - i - 1)]);
        WriteBit(BitAt(bits, n - i - 1));
        i := i + 1;
      }
      assert ToBits(bits, n)[..i] == ToBits(bits, n);
      ok := true;
    }

    /** Fills the current byte with zeros. */
    method Align()
      requires Valid()
      modifies this
      ensures Valid() && bitPos == 0
      ensures Written() == old(Written()) + Zeros(Padding(|old(Written())|))
    {
      hide Pow2, BitsOf, ToBits, Partial;
      ghost var start := Written();
      if bitPos % 8 != 0 {
        ghost var n := 8 - bitPos;
        Pow2Monotone(0, n);
        var ok := WriteBits(0, 8 - bitPos % 8);
        ZeroBits(n);
        assert |start| == 8 * |old(writer)| + |old(pending)|;
        assert |Written()| == 8 * |writer| + |pending|;
        assert bitPos == 0;
      } else {
        assert start + Zeros(0) == start;
      }
    }

    /** The bytes of the underlying writer after a final alignment. */
    method Finish() returns (out: Bytes)
      requires Valid()
      modifies this
      ensures BitsOf(out) == old(Written()) + Zeros(Padding(|old(Written())|))
    {
      Align();
      out := writer;
      assert BitsOf(writer) + [] == BitsOf(writer);
    }

    /** `io::Write::write`: whole bytes, aligned or not. */
    method WriteBytes(buf: Bytes)
      requires Valid()
      modifies this
      ensures Valid() && Written() == old(Written()) + BitsOf(buf)
    {
      ghost var start := Written();
      if bitPos % 8 == 0 {
        BitsOfConcat(writer, buf);
        writer := writer + buf;
        assert BitsOf(writer) + [] == BitsOf(writer);
        assert start == BitsOf(old(writer));
        return;
      }
      var i := 0;
      while i < |buf|
        invariant 0 <= i <= |buf| && Valid()
        invariant Written() == start + BitsOf(buf[..i])
      {
        BitsOfPrefix(buf, i);
        Regroup(start, BitsOf(buf[..i]), ToBits(buf[i], 8));
        Pow2Values();
        hide Pow2, BitsOf, ToBits, Partial;
        var ok := WriteBits(buf[i], 8);
        i := i + 1;
      }
      assert buf[..i] == buf;
    }
  }

  lemma {:induction false} ZeroBits(n: nat)
    ensures ToBits(0, n) == Zeros(n)
  {
    if n > 0 {
      ZeroBits(n - 1);
    }
  }
}
