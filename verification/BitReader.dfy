/** The bit reader object over an in-memory cursor (bit_read.rs). */
module BitReaders {
  import opened ByteStrings
  import opened Bits

  /** Division and remainder by 8 as Rust has them: towards zero. */
  function Quotient8(n: int): int
  {
    if n >= 0 then n / 8 else -(-n / 8)
  }

  function Remainder8(n: int): int
  {
    n - 8 * Quotient8(n)
  }

  /** The whole bytes that a seek moves the cursor by. */
  function ByteMove(bitPos: nat, count: int): int
  {
    Quotient8(bitPos + count) - (if bitPos != 0 then 1 else 0) - if Remainder8(bitPos + count) < 0 then 1 else 0
  }

  function NewBitPos(bitPos: nat, count: int): int
  {
    (8 + Remainder8(bitPos + count)) % 8
  }

  lemma Truncated(n: int)
    ensures n == 8 * Quotient8(n) + Remainder8(n) && -8 < Remainder8(n) < 8
  {
  }

  /** Bit `bit` of byte `at`, against a stream of `n` bytes. */
  lemma TargetByte(at: int, bit: nat, n: nat)
    requires bit < 8
    ensures var target := 8 * at + bit;
      target / 8 == at && target % 8 == bit && (target >= 0 <==> at >= 0) && (target < 8 * n <==> at < n)
  {
  }

  /** The truncated quotients and remainders add up, for either sign, to an exact move by `count` bits. */
  lemma SeekArithmetic(pos: nat, bitPos: nat, count: int)
    requires bitPos < 8
    ensures 0 <= NewBitPos(bitPos, count) < 8
    ensures var target := 8 * pos + (if bitPos == 0 then 8 else bitPos) - 8 + count;
      && 8 * (pos + ByteMove(bitPos, count)) + NewBitPos(bitPos, count) == target
      && target % 8 == NewBitPos(bitPos, count)
  {
    var c := bitPos + count;
    Truncated(c);
    hide Quotient8, Remainder8;
    assert NewBitPos(bitPos, count) == Remainder8(c) + if Remainder8(c) < 0 then 8 else 0;
    TargetByte(pos + ByteMove(bitPos, count), NewBitPos(bitPos, count), 0);
  }

  datatype IoError = UnexpectedEof | InvalidInput

  datatype IoResult<+T> = Good(value: T) | Bad(error: IoError)
  {
    predicate IsFailure() { Bad? }

    function PropagateFailure<U>(): IoResult<U>
      requires Bad?
    {
      Bad(error)
    }

    function Extract(): T
      requires Good?
    {
      value
    }
  }

  function Min(a: nat, b: nat): (m: nat)
    ensures m <= a && m <= b
  {
    if a < b then a else b
  }

  lemma ValueGrows(bits: seq<bool>, bit: bool)
    ensures Value(bits + [bit]) == 2 * Value(bits) + if bit then 1 else 0
  {
    assert (bits + [bit])[..|bits|] == bits;
  }

  lemma NoValue()
    ensures Value([]) == 0
  {
  }

  /** The bits of a loaded byte that are still to come, then the bytes behind it. */
  function Coming(currentByte: U8, bitPos: nat, rest: Bytes): seq<bool>
    requires bitPos < 8
  {
    (if bitPos == 0 then [] else ToBits(currentByte, 8)[bitPos..]) + BitsOf(rest)
  }

  function From(data: Bytes, pos: nat): (rest: Bytes)
    ensures |rest| == if pos <= |data| then |data| - pos else 0
  {
    if pos <= |data| then data[pos..] else []
  }

  /** Reading a bit of the loaded byte takes the first of the coming bits. */
  lemma NextOfLoaded(currentByte: U8, bitPos: nat, rest: Bytes)
    requires bitPos < 8
    ensures ToBits(currentByte, 8)[bitPos..] + BitsOf(rest)
      == [BitAt(currentByte, 7 - bitPos)] + Coming(currentByte, (bitPos + 1) % 8, rest)
  {
    ToBitsAt(currentByte, 8, bitPos);
    hide ToBits, BitsOf, BitAt;
    TakeFirst(ToBits(currentByte, 8), bitPos, BitsOf(rest));
  }

  lemma TakeFirst(bits: seq<bool>, k: nat, rest: seq<bool>)
    requires k < |bits|
    ensures bits[k..] + rest == [bits[k]] + ((if k + 1 == |bits| then [] else bits[k + 1..]) + rest)
  {
    assert bits[k..] == [bits[k]] + bits[k + 1..];
  }

  /** Loading the next byte changes nothing about the bits to come. */
  lemma LoadNext(data: Bytes, pos: nat)
    requires pos < |data|
    ensures BitsOf(From(data, pos)) == ToBits(data[pos], 8)[0..] + BitsOf(From(data, pos + 1))
  {
    assert data[pos..] == [data[pos]] + data[pos + 1..];
    BitsOfConcat([data[pos]], data[pos + 1..]);
    BitsOfByte(data[pos]);
  }

  lemma RestOfStream(data: Bytes, pos: nat)
    requires pos <= |data|
    ensures BitsOf(data)[8 * pos..] == BitsOf(From(data, pos))
  {
    hide BitsOf;
    assert data == data[..pos] + data[pos..];
    BitsOfConcat(data[..pos], data[pos..]);
    DropFirst(BitsOf(data[..pos]), BitsOf(data[pos..]));
  }

  lemma DropFirst(a: seq<bool>, b: seq<bool>)
    ensures (a + b)[|a|..] == b
  {
  }

  /** The stream from the middle of byte `pos` on. */
  lemma RestOfByte(data: Bytes, pos: nat, bitPos: nat)
    requires pos < |data| && bitPos < 8
    ensures BitsOf(data)[8 * pos + bitPos..] == ToBits(data[pos], 8)[bitPos..] + BitsOf(From(data, pos + 1))
  {
    RestOfStream(data, pos);
    LoadNext(data, pos);
    hide *;
    DropTwice(BitsOf(data), 8 * pos, ToBits(data[pos], 8), BitsOf(From(data, pos + 1)), bitPos);
  }

  lemma DropTwice(s: seq<bool>, m: nat, a: seq<bool>, b: seq<bool>, k: nat)
    requires m <= |s| && s[m..] == a[0..] + b && k <= |a|
    ensures m + k <= |s| && s[m + k..] == a[k..] + b
  {
    assert |s[m..]| == |a| + |b|;
    assert s[m + k..] == s[m..][k..];
  }

  lemma SplitFrom(data: Bytes, pos: nat, n: nat)
    requires n <= |From(data, pos)|
    ensures From(data, pos) == From(data, pos)[..n] + From(data, pos + n)
  {
  }

  lemma ComingAligned(currentByte: U8, rest: Bytes)
    ensures Coming(currentByte, 0, rest) == BitsOf(rest)
    ensures |Coming(currentByte, 0, rest)| / 8 == |rest|
  {
    hide BitsOf, ToBits;
  }

  /** The next `n` bytes, if they are there, are what is ahead at a byte boundary. */
  lemma TakeAligned(data: Bytes, pos: nat, n: nat, currentByte: U8)
    requires n <= |From(data, pos)|
    ensures Coming(currentByte, 0, From(data, pos))
      == BitsOf(From(data, pos)[..n]) + Coming(currentByte, 0, From(data, pos + n))
  {
    SplitFrom(data, pos, n);
    hide *;
    BitsOfConcat(From(data, pos)[..n], From(data, pos + n));
    ComingAligned(currentByte, From(data, pos));
    ComingAligned(currentByte, From(data, pos + n));
  }

  class BitReader {
    const data: Bytes
    /** The cursor of the underlying stream, in bytes; it may lie beyond the end. */
    var pos: nat
    var bitPos: nat
    var currentByte: U8

    /** What every reachable state keeps. */
    ghost predicate Valid()
      reads this
    {
      bitPos < 8
    }

    /** In the middle of a byte, that byte is the one before the cursor. A refused seek can break this. */
    ghost predicate InStep()
      reads this
    {
      bitPos < 8 && (bitPos > 0 ==> 1 <= pos <= |data| && currentByte == data[pos - 1])
    }

    /** The number of the next bit as the reader computes it; negative only after a refused seek. */
    function Position(): int
      reads this
    {
      8 * pos + (if bitPos == 0 then 8 else bitPos) - 8
    }

    ghost function Stream(): seq<bool>
    {
      BitsOf(data)
    }

    /** What reading from here on yields, in whatever state the reader is. */
    ghost function Ahead(): seq<bool>
      requires Valid()
      reads this
    {
      Coming(currentByte, bitPos, From(data, pos))
    }

    constructor (data: Bytes)
      ensures Valid() && InStep() && this.data == data && Position() == 0 && Ahead() == BitsOf(data)
    {
      this.data := data;
      pos, bitPos, currentByte := 0, 0, 0;
    }

    /** A reader in step has the rest of the stream from its position ahead. */
    lemma AheadIsRestOfStream()
      requires InStep()
      ensures Position() >= 0
      ensures Ahead() == if Position() <= |Stream()| then Stream()[Position()..] else []
    {
      hide BitsOf, ToBits;
      if bitPos != 0 {
        RestOfByte(data, pos - 1, bitPos);
      } else if pos <= |data| {
        RestOfStream(data, pos);
      }
    }

    method UpdateByte() returns (r: IoResult<()>)
      modifies this`pos, this`currentByte
      ensures r.Good? <==> old(pos) < |data|
      ensures r.Good? ==> pos == old(pos) + 1 && currentByte == data[old(pos)]
      ensures r.Bad? ==> r.error == UnexpectedEof && pos == old(pos) && currentByte == old(currentByte)
    {
      if pos >= |data| {
        return Bad(UnexpectedEof);
      }
      currentByte := data[pos];
      pos := pos + 1;
      r := Good(());
    }

    /** In every state, takes the first bit ahead; fails exactly when there is none, and then changes nothing. */
    method ReadBit() returns (r: IoResult<bool>)
      requires Valid()
      modifies this
      ensures Valid() && (old(InStep()) ==> InStep())
      ensures r.Good? <==> old(Ahead()) != []
      ensures r.Good? ==> old(Ahead()) == [r.value] + Ahead() && Position() == old(Position()) + 1
      ensures r.Good? && old(bitPos) != 0 ==> pos == old(pos) && currentByte == old(currentByte)
      ensures r.Bad? ==> r.error == UnexpectedEof && unchanged(this)
    {
      hide ToBits, BitsOf, BitAt;
      ghost var start := pos;
      if bitPos == 0 {
        if pos < |data| {
          LoadNext(data, pos);
        } else {
          NothingLeft(data, pos);
        }
        var _ :- UpdateByte();
      }
      NextOfLoaded(currentByte, bitPos, From(data, pos));
      r := Good(BitAt(currentByte, 7 - bitPos));
      bitPos := (bitPos + 1) % 8;
    }

    /** Reads up to 64 bits as a number; when they run out, everything that was ahead has been consumed. */
    method ReadBits(count: U8) returns (r: IoResult<nat>)
      requires Valid()
      modifies this
      ensures Valid() && (old(InStep()) ==> InStep())
      ensures var n, ahead := Min(count, 64), old(Ahead());
        && (r.Good? <==> n <= |ahead|)
        && (r.Good? ==> r.value == Value(ahead[..n]) < Pow2(n))
        && (r.Good? ==> Ahead() == ahead[n..] && Position() == old(Position()) + n)
        && (r.Bad? ==> r.error == UnexpectedEof && Ahead() == [] && Position() == old(Position()) + |ahead|)
    {
      hide Pow2, BitsOf, Coming, Value, InStep, Ahead;
      ghost var ahead, p, taken := Ahead(), Position(), [];
      NoValue();
      var n := Min(count, 64);
      var bits := 0;
      var i := 0;
      while i < n
        invariant 0 <= i <= n && |taken| == i && Valid() && (old(InStep()) ==> InStep())
        invariant ahead == taken + Ahead() && Position() == p + i
        invariant bits == Value(taken)
      {
        var bit :- ReadBit();
        ValueGrows(taken, bit);
        Regroup(taken, [bit], Ahead());
        taken := taken + [bit];
        bits := 2 * bits + if bit then 1 else 0;
        i := i + 1;
      }
      ValueBound(taken);
      assert ahead[..n] == taken && ahead[n..] == Ahead();
      r := Good(bits);
    }

    /** Drops what is left of the loaded byte. */
    method Align()
      requires Valid()
      modifies this`bitPos
      ensures Valid() && InStep() && bitPos == 0
      ensures Position() == old(Position()) + (8 - old(bitPos)) % 8
      ensures Ahead() == old(Ahead())[(8 - old(bitPos)) % 8..]
    {
      bitPos := 0;
    }

    /**
     * `io::Read::read` into a buffer of `len` bytes: at a byte boundary as many bytes as there are, elsewhere all
     * of them or an error that has used up what was ahead.
     */
    method ReadBytes(len: nat) returns (r: IoResult<Bytes>)
      requires Valid()
      modifies this
      ensures Valid() && (old(InStep()) ==> InStep())
      ensures var ahead := old(Ahead());
        && (old(bitPos) == 0 ==> r.Good? && |r.value| == Min(len, |ahead| / 8))
        && (old(bitPos) != 0 ==> (r.Good? <==> 8 * len <= |ahead|) && (r.Good? ==> |r.value| == len))
        && (r.Good? ==> ahead == BitsOf(r.value) + Ahead() && Position() == old(Position()) + 8 * |r.value|)
        && (r.Bad? ==> r.error == UnexpectedEof && Ahead() == [])
    {
      hide BitsOf, ToBits;
      ghost var ahead := Ahead();
      if bitPos == 0 {
        var bytes := ReadAligned(len);
        return Good(bytes);
      }
      ghost var p := Position();
      var buf: Bytes := [];
      NoBits(buf);
      while |buf| < len
        invariant |buf| <= len && Valid() && (old(InStep()) ==> InStep()) && bitPos != 0
        invariant ahead == BitsOf(buf) + Ahead() && Position() == p + 8 * |buf|
      {
        ghost var before := BitsOf(buf);
        var byte := ReadOneByte();
        if byte.Bad? {
          return Bad(UnexpectedEof);
        }
        BitsOfConcat(buf, [byte.value]);
        BitsOfByte(byte.value);
        Regroup(before, ToBits(byte.value, 8), Ahead());
        buf := buf + [byte.value];
      }
      r := Good(buf);
    }

    /** At a byte boundary the read is the underlying stream's own. */
    method ReadAligned(len: nat) returns (bytes: Bytes)
      requires Valid() && bitPos == 0
      modifies this`pos
      ensures |bytes| == Min(len, |old(Ahead())| / 8)
      ensures old(Ahead()) == BitsOf(bytes) + Ahead() && Position() == old(Position()) + 8 * |bytes|
    {
      hide BitsOf, Coming, From, Min;
      ComingAligned(currentByte, From(data, pos));
      var n := Min(len, |From(data, pos)|);
      TakeAligned(data, pos, n, currentByte);
      bytes := From(data, pos)[..n];
      pos := pos + n;
    }

    /** The inner loop of the unaligned read. */
    method ReadOneByte() returns (r: IoResult<U8>)
      requires Valid() && bitPos != 0
      modifies this
      ensures Valid() && (old(InStep()) ==> InStep())
      ensures r.Good? <==> 8 <= |old(Ahead())|
      ensures r.Good? ==> old(Ahead()) == ToBits(r.value, 8) + Ahead()
      ensures r.Good? ==> bitPos == old(bitPos) && Position() == old(Position()) + 8
      ensures r.Bad? ==> Ahead() == []
    {
      Pow2Values();
      hide BitsOf, ToBits, Value, Pow2, Coming;
      ghost var ahead := Ahead();
      var bits := ReadBits(8);
      if bits.Bad? {
        return Bad(UnexpectedEof);
      }
      ValueToBits(ahead[..8]);
      assert ahead == ahead[..8] + ahead[8..];
      r := Good(bits.value);
    }

    /** `seek(Current(n))` of a cursor: refuses to go before the start, but not beyond the end. */
    method SeekData(n: int) returns (r: IoResult<nat>)
      modifies this`pos
      ensures r.Good? <==> old(pos) + n >= 0
      ensures r.Good? ==> r.value == pos == old(pos) + n
      ensures r.Bad? ==> r.error == InvalidInput && pos == old(pos)
    {
      if pos + n < 0 {
        return Bad(InvalidInput);
      }
      pos := pos + n;
      r := Good(pos);
    }

    /** `bit_stream_position`: the position, which wraps around when it is negative. */
    function BitStreamPosition(): (p: nat)
      reads this
      requires Valid()
      ensures Position() >= 0 ==> p == Position()
    {
      if Position() >= 0 then Position() else Position() + 0x1_0000_0000_0000_0000
    }

    /** A bit the reader can be put before: it starts a byte, or its byte is there to be loaded. */
    ghost predicate Lands(target: int)
    {
      target >= 0 && (target % 8 == 0 || target < |Stream()|)
    }

    /**
     * Main result: in every state and for every signed offset, a seek succeeds exactly when its target is not
     * before the start and either starts a byte or lies inside the stream; it then lands on the target, in step,
     * and says so. A seek before the start changes nothing. A refused seek past the end has moved all the same and
     * leaves the byte loaded before it behind, out of step.
     */
    method SeekBits(count: I64) returns (r: IoResult<nat>)
      requires Valid()
      requires bitPos + count < 0x8000_0000_0000_0000
      modifies this
      ensures Valid()
      ensures count == 0 ==> r == Good(old(BitStreamPosition())) && unchanged(this)
      ensures var target := old(Position()) + count;
        count != 0 ==>
        && (r.Good? <==> Lands(target))
        && (r.Good? ==> InStep() && r.value == target == Position())
        && (target < 0 ==> r == Bad(InvalidInput) && unchanged(this))
        && (r.Bad? && target >= 0 ==>
          r.error == UnexpectedEof && pos == target / 8 >= |data| && bitPos == target % 8 != 0
          && currentByte == old(currentByte))
    {
      hide Quotient8, Remainder8, BitsOf;
      if count == 0 {
        return Good(BitStreamPosition());
      }
      SeekArithmetic(pos, bitPos, count);
      var c := bitPos + count;
      var bitMove := Remainder8(c);
      var byteMove := Quotient8(c);
      if bitPos != 0 {
        byteMove := byteMove - 1;
      }
      if bitMove < 0 {
        byteMove := byteMove - 1;
      }
      var newBitPos := (8 + bitMove) % 8;
      assert byteMove == ByteMove(bitPos, count) && newBitPos == NewBitPos(bitPos, count);
      TargetByte(pos + byteMove, newBitPos, |data|);
      hide ByteMove, NewBitPos;
      var bytes :- SeekData(byteMove);
      var position := bytes * 8;
      bitPos := newBitPos;
      if bitPos != 0 {
        var _ :- UpdateByte();
        position := position + bitPos;
      }
      r := Good(position);
    }
  }

  lemma NoBits(b: Bytes)
    ensures b == [] ==> BitsOf(b) == []
  {
  }

  lemma NothingLeft(data: Bytes, pos: nat)
    requires pos >= |data|
    ensures BitsOf(From(data, pos)) == []
  {
  }

  /**
   * Main result: in every state, a seek that moves and the read after it both succeed exactly when the target is a
   * bit of the stream, and then the read returns that bit. Behind the end the seek succeeds at a byte boundary and
   * the read fails; elsewhere the seek is refused and the read still answers, with a bit of the byte loaded before.
   * Before the start, and without a move, the read is as if there had been no seek.
   */
  method SeekThenRead(reader: BitReader, count: I64) returns (at: IoResult<nat>, bit: IoResult<bool>)
    requires reader.Valid() && reader.bitPos + count < 0x8000_0000_0000_0000
    modifies reader
    ensures var target := old(reader.Position()) + count;
      && (count != 0 || old(reader.InStep()) ==>
        (at.Good? && bit.Good? <==> 0 <= target < |reader.Stream()|)
        && (at.Good? && bit.Good? ==>
          bit.value == reader.Stream()[target] && reader.InStep() && reader.Position() == target + 1))
      && (count != 0 && target >= |reader.Stream()| ==>
        (target % 8 == 0 ==> at.Good? && bit == Bad(UnexpectedEof))
        && (target % 8 != 0 ==>
          at == Bad(UnexpectedEof) && bit == Good(BitAt(old(reader.currentByte), 7 - target % 8))))
      && (count == 0 || target < 0 ==>
        (at.Good? <==> count == 0)
        && (bit.Good? <==> old(reader.Ahead()) != []) && (bit.Good? ==> bit.value == old(reader.Ahead())[0]))
  {
    hide BitAt, BitsOf, ToBits, Coming;
    if count == 0 && reader.InStep() {
      reader.AheadIsRestOfStream();
    }
    at := reader.SeekBits(count);
    if at.Good? && count != 0 {
      reader.AheadIsRestOfStream();
    } else if reader.bitPos != 0 {
      StaleBits(reader);
    }
    bit := reader.ReadBit();
  }

  /** A reader inside a byte has that byte's bits ahead, whether or not the stream has them there. */
  lemma StaleBits(reader: BitReader)
    requires reader.Valid() && reader.bitPos != 0
    ensures reader.Ahead() != [] && reader.Ahead()[0] == BitAt(reader.currentByte, 7 - reader.bitPos)
  {
    NextOfLoaded(reader.currentByte, reader.bitPos, From(reader.data, reader.pos));
  }

  lemma OneFullByte()
    ensures BitsOf([0xFF])[0] && BitAt(0xFF, 2)
  {
    BitsOfAt([0xFF], 0, 0);
    assert Pow2(2) == 4 && Pow2(4) == 16 && Pow2(7) == 8 * Pow2(4);
  }

  /** A stream of one byte: after a refused seek 13 bits past its end the next read answers with a bit of it. */
  method RefusedSeekThenRead() returns (first: IoResult<bool>, at: IoResult<nat>, bit: IoResult<bool>)
    ensures first == Good(true) && at == Bad(UnexpectedEof) && bit == Good(true)
  {
    OneFullByte();
    hide BitAt, BitsOf, ToBits, Coming;
    var reader := new BitReader([0xFF]);
    first := reader.ReadBit();
    assert reader.pos == 1 && reader.bitPos == 1;
    at, bit := SeekThenRead(reader, 20);
  }

  /** Seeking forth and back again returns to the same bit, if both are bits the reader can be put before. */
  method SeekAndBack(reader: BitReader, count: I64) returns (back: IoResult<nat>)
    requires reader.Valid() && reader.bitPos + count < 0x8000_0000_0000_0000
    requires -0x7FFF_FFFF_FFFF_FFF0 <= count
    modifies reader
    ensures reader.Lands(old(reader.Position()) + count) && reader.Lands(old(reader.Position())) ==>
      back == Good(old(reader.Position())) && reader.Position() == old(reader.Position())
  {
    var there := reader.SeekBits(count);
    back := reader.SeekBits(-count);
  }
}
