/** The table-driven CRC32 and the shift register that defines it (writer.rs). */
module Crc32 {
  import opened ByteStrings

  /** The generator polynomial of section 8 of RFC 1952, lowest power in the top bit. */
  const POLYNOMIAL: bv32 := 0xEDB88320

  // The word operations are named so that proofs about their algebra need not look at single bits.

  predicate Odd(x: bv32) { x & 1 != 0 }

  function Half(x: bv32): bv32 { x >> 1 }

  function Xor(x: bv32, y: bv32): bv32 { x ^ y }

  function WithoutLowByte(x: bv32): bv32 { x >> 8 }

  function LowByte(x: bv32): (index: nat)
    ensures index < 256
  {
    (x & 0xFF) as nat
  }

  /** One step of the register: an odd word loses its low bit and is reduced by the polynomial. */
  function Shift(x: bv32): bv32
  {
    if Odd(x) then Xor(Half(x), POLYNOMIAL) else Half(x)
  }

  function Shifts(x: bv32, k: nat): bv32
    decreases k
  {
    if k == 0 then x else Shifts(Shift(x), k - 1)
  }

  /** The reference: the register takes in one message bit at its low end and shifts. */
  function FeedBit(register: bv32, bit: bool): bv32
  {
    if Odd(register) != bit then Xor(Half(register), POLYNOMIAL) else Half(register)
  }

  function FeedBits(register: bv32, bits: seq<bool>): bv32
    decreases bits
  {
    if bits == [] then register else FeedBits(FeedBit(register, bits[0]), bits[1..])
  }

  /** The lowest `k` bits of a word, lowest first. */
  function LowBits(w: bv32, k: nat): (bits: seq<bool>)
    ensures |bits| == k
    decreases k
  {
    if k == 0 then [] else [Odd(w)] + LowBits(Half(w), k - 1)
  }

  function ByteBits(b: bv8): seq<bool>
  {
    LowBits(b as bv32, 8)
  }

  /** Every byte enters the register lowest bit first. */
  function MessageBits(s: seq<bv8>): seq<bool>
  {
    if s == [] then [] else ByteBits(s[0]) + MessageBits(s[1..])
  }

  function Crc(s: seq<bv8>): bv32
  {
    !FeedBits(0xFFFF_FFFF, MessageBits(s))
  }

  lemma XorParity(x: bv32, y: bv32)
    ensures Odd(Xor(x, y)) <==> Odd(x) != Odd(y)
  {
  }

  lemma XorHalf(x: bv32, y: bv32)
    ensures Half(Xor(x, y)) == Xor(Half(x), Half(y))
  {
  }

  lemma XorCommutes(x: bv32, y: bv32)
    ensures Xor(x, y) == Xor(y, x)
  {
  }

  lemma XorAssociates(x: bv32, y: bv32, z: bv32)
    ensures Xor(Xor(x, y), z) == Xor(x, Xor(y, z))
  {
  }

  lemma XorCancels(x: bv32, y: bv32)
    ensures Xor(x, x) == 0 && Xor(x, 0) == x && Xor(Xor(x, y), y) == x
  {
  }

  lemma ShiftIsLinear(x: bv32, y: bv32)
    ensures Shift(Xor(x, y)) == Xor(Shift(x), Shift(y))
  {
    XorParity(x, y);
    XorHalf(x, y);
    hide Odd, Half, Xor;
    var a, b, p := Half(x), Half(y), POLYNOMIAL;
    if Odd(x) && Odd(y) {
      XorCommutes(p, Xor(b, p));
      XorAssociates(a, p, Xor(b, p));
      XorCancels(b, p);
    } else if Odd(x) {
      XorAssociates(a, p, b);
      XorCommutes(p, b);
      XorAssociates(a, b, p);
    } else if Odd(y) {
      XorAssociates(a, b, p);
    }
  }

  lemma {:induction false} ShiftsAreLinear(x: bv32, y: bv32, k: nat)
    ensures Shifts(Xor(x, y), k) == Xor(Shifts(x, k), Shifts(y, k))
    decreases k
  {
    if k > 0 {
      ShiftIsLinear(x, y);
      hide Shift, Xor;
      ShiftsAreLinear(Shift(x), Shift(y), k - 1);
    }
  }

  lemma FeedBitIsShift(register: bv32, w: bv32)
    ensures Xor(FeedBit(register, Odd(w)), Half(w)) == Shift(Xor(register, w))
  {
    XorParity(register, w);
    XorHalf(register, w);
    hide Odd, Half, Xor;
    var a, b, p := Half(register), Half(w), POLYNOMIAL;
    XorAssociates(a, p, b);
    XorCommutes(p, b);
    XorAssociates(a, b, p);
  }

  /** Halved `k` times. */
  function Halves(x: bv32, k: nat): bv32
    decreases k
  {
    if k == 0 then x else Halves(Half(x), k - 1)
  }

  /** Feeding the low bits of a word is adding the word to the register first and then shifting. */
  lemma {:induction false} FeedIsXorThenShift(register: bv32, w: bv32, k: nat)
    ensures Xor(FeedBits(register, LowBits(w, k)), Halves(w, k)) == Shifts(Xor(register, w), k)
    decreases k
  {
    if k > 0 {
      FeedBitIsShift(register, w);
      hide Odd, Half, Xor, Shift, FeedBit;
      assert LowBits(w, k)[1..] == LowBits(Half(w), k - 1);
      FeedIsXorThenShift(FeedBit(register, Odd(w)), Half(w), k - 1);
    }
  }

  /** A word whose lower `k` bits are clear is only moved down. */
  lemma {:induction false} ClearLowBits(x: bv32, k: nat)
    requires forall i | 0 <= i < k :: !Odd(Halves(x, i))
    ensures Shifts(x, k) == Halves(x, k)
    decreases k
  {
    if k > 0 {
      assert !Odd(Halves(x, 0));
      forall i | 0 <= i < k - 1 ensures !Odd(Halves(Half(x), i)) {
        assert !Odd(Halves(x, i + 1));
      }
      ClearLowBits(Half(x), k - 1);
    }
  }

  lemma {:induction false} HalveOnceMore(x: bv32, k: nat)
    ensures Halves(x, k + 1) == Half(Halves(x, k))
    decreases k
  {
    hide Half;
    if k == 0 {
      assert Halves(Half(x), 0) == Half(x);
    } else {
      HalveOnceMore(Half(x), k - 1);
    }
  }

  /** The eight halvings of a word, spelled out. */
  predicate EightHalves(x: bv32)
  {
    && Halves(x, 0) == x && Halves(x, 1) == x >> 1 && Halves(x, 2) == x >> 2 && Halves(x, 3) == x >> 3
    && Halves(x, 4) == x >> 4 && Halves(x, 5) == x >> 5 && Halves(x, 6) == x >> 6 && Halves(x, 7) == x >> 7
    && Halves(x, 8) == x >> 8
  }

  lemma HalfOfShifted(x: bv32)
    ensures Half(x) == x >> 1 && Half(x >> 1) == x >> 2 && Half(x >> 2) == x >> 3 && Half(x >> 3) == x >> 4
    ensures Half(x >> 4) == x >> 5 && Half(x >> 5) == x >> 6 && Half(x >> 6) == x >> 7 && Half(x >> 7) == x >> 8
  {
  }

  lemma AllHalves(x: bv32)
    ensures EightHalves(x)
  {
    assert Halves(x, 0) == x;
    hide Halves;
    HalveOnceMore(x, 0);
    HalveOnceMore(x, 1);
    HalveOnceMore(x, 2);
    HalveOnceMore(x, 3);
    HalveOnceMore(x, 4);
    HalveOnceMore(x, 5);
    HalveOnceMore(x, 6);
    HalveOnceMore(x, 7);
    HalfOfShifted(x);
    hide Half;
  }

  lemma {:induction false} FeedInTwoParts(register: bv32, a: seq<bool>, b: seq<bool>)
    ensures FeedBits(register, a + b) == FeedBits(FeedBits(register, a), b)
    decreases a
  {
    hide FeedBit;
    if a == [] {
      assert a + b == b;
    } else {
      assert (a + b)[1..] == a[1..] + b;
      FeedInTwoParts(FeedBit(register, a[0]), a[1..], b);
    }
  }

  /** What the generator stores for one byte. */
  function TableEntry(index: bv32): bv32
  {
    Shifts(index, 8)
  }

  lemma ByteHasEightBits(w: bv32)
    requires w < 256
    ensures w >> 8 == 0
  {
  }

  lemma SplitWord(x: bv32)
    ensures x == Xor(x & 0xFF, x & 0xFFFF_FF00) && (x & 0xFFFF_FF00) >> 8 == x >> 8
  {
  }

  lemma UpperWordIsEven(x: bv32)
    ensures var h := x & 0xFFFF_FF00;
      !Odd(h) && !Odd(h >> 1) && !Odd(h >> 2) && !Odd(h >> 3) &&
      !Odd(h >> 4) && !Odd(h >> 5) && !Odd(h >> 6) && !Odd(h >> 7)
  {
  }

  /** Eight shifts at once: the low byte chooses the table entry, the rest moves down. */
  lemma EightShifts(x: bv32)
    ensures Shifts(x, 8) == Xor(x >> 8, TableEntry(x & 0xFF))
  {
    var h := x & 0xFFFF_FF00;
    SplitWord(x);
    UpperWordIsEven(x);
    AllHalves(h);
    hide Odd, Xor, Halves, Shifts;
    ClearLowBits(h, 8);
    ShiftsAreLinear(x & 0xFF, h, 8);
    XorCommutes(TableEntry(x & 0xFF), x >> 8);
  }

  lemma FeedByteIsEightShifts(register: bv32, w: bv32)
    requires w < 256
    ensures FeedBits(register, LowBits(w, 8)) == Shifts(Xor(register, w), 8)
  {
    hide FeedBits, LowBits, Shifts;
    FeedIsXorThenShift(register, w, 8);
    AllHalves(w);
    ByteHasEightBits(w);
    XorCancels(FeedBits(register, LowBits(w, 8)), 0);
  }

  function LowByteWord(x: bv32): bv32 { x & 0xFF }

  lemma EightShiftsByName(x: bv32)
    ensures Shifts(x, 8) == Xor(WithoutLowByte(x), TableEntry(LowByteWord(x)))
  {
    hide Shifts, TableEntry, Xor;
    EightShifts(x);
  }

  lemma FeedByte(register: bv32, w: bv32)
    requires w < 256
    ensures FeedBits(register, LowBits(w, 8))
      == Xor(WithoutLowByte(register), TableEntry(LowByteWord(Xor(register, w))))
  {
    FeedByteIsEightShifts(register, w);
    ByteKeepsUpperWord(register, w);
    hide FeedBits, LowBits, Shifts, TableEntry, Xor, WithoutLowByte, LowByteWord;
    EightShiftsByName(Xor(register, w));
  }

  lemma ByteKeepsUpperWord(x: bv32, w: bv32)
    requires w < 256
    ensures WithoutLowByte(Xor(x, w)) == WithoutLowByte(x)
  {
  }

  lemma {:induction false} MessageOfTwoParts(a: seq<bv8>, b: seq<bv8>)
    ensures MessageBits(a + b) == MessageBits(a) + MessageBits(b)
  {
    hide ByteBits;
    if a == [] {
      assert a + b == b;
    } else {
      assert (a + b)[1..] == a[1..] + b;
      MessageOfTwoParts(a[1..], b);
      Regroup(ByteBits(a[0]), MessageBits(a[1..]), MessageBits(b));
    }
  }

  lemma MessageOfOneByte(b: bv8)
    ensures MessageBits([b]) == ByteBits(b)
  {
    hide ByteBits;
    assert [b][1..] == [];
    assert MessageBits([b]) == ByteBits(b) + [];
  }

  function AsWord(k: nat): bv32
    requires k < 256
  {
    k as bv32
  }

  function EntryAt(k: nat): bv32
    requires k < 256
  {
    TableEntry(AsWord(k))
  }

  ghost predicate HoldsEntries(table: seq<bv32>)
  {
    |table| == 256 && forall k | 0 <= k < 256 :: table[k] == EntryAt(k)
  }

  lemma EntryIsEightShifts(k: nat)
    requires k < 256
    ensures EntryAt(k) == Shifts(AsWord(k), 8)
  {
  }

  lemma NoShift(x: bv32)
    ensures Shifts(x, 0) == x
  {
  }

  lemma OneShift(x: bv32, k: nat)
    requires k > 0
    ensures Shifts(x, k) == Shifts(if Odd(x) then Xor(Half(x), POLYNOMIAL) else Half(x), k - 1)
  {
  }

  /** The inner loop of the table generator. */
  method GenerateEntry(i: nat) returns (crc: bv32)
    requires i < 256
    ensures crc == EntryAt(i)
  {
    EntryIsEightShifts(i);
    crc := AsWord(i);
    hide *;
    var j := 0;
    while j < 8
      invariant 0 <= j <= 8 && Shifts(crc, 8 - j) == EntryAt(i)
    {
      OneShift(crc, 8 - j);
      if Odd(crc) {
        crc := Xor(Half(crc), POLYNOMIAL);
      } else {
        crc := Half(crc);
      }
      j := j + 1;
    }
    NoShift(crc);
  }

  method GenerateCrc32Table() returns (table: array<bv32>)
    ensures fresh(table) && table.Length == 256 && HoldsEntries(table[..])
  {
    hide EntryAt;
    table := new bv32[256];
    var i := 0;
    while i < 256
      invariant 0 <= i <= 256
      invariant forall k | 0 <= k < i :: table[k] == EntryAt(k)
    {
      var crc := GenerateEntry(i);
      table[i] := crc;
      i := i + 1;
    }
  }

  lemma WordIsNumber(x: bv32)
    ensures (x as nat) as bv32 == x
  {
  }

  lemma {:induction false} HashStep(s: seq<bv8>, i: nat, crc: bv32)
    requires i < |s| && crc == FeedBits(0xFFFF_FFFF, MessageBits(s[..i]))
    ensures FeedBits(0xFFFF_FFFF, MessageBits(s[..i + 1]))
      == Xor(WithoutLowByte(crc), EntryAt(LowByte(Xor(crc, s[i] as bv32))))
  {
    var word := s[i] as bv32;
    ByteIsSmall(s[i]);
    assert ByteBits(s[i]) == LowBits(word, 8);
    hide TableEntry, EntryAt, LowByte, LowByteWord, WithoutLowByte, Xor, FeedBits, MessageBits, LowBits, ByteBits;
    assert s[..i + 1] == s[..i] + [s[i]];
    MessageOfTwoParts(s[..i], [s[i]]);
    MessageOfOneByte(s[i]);
    FeedInTwoParts(0xFFFF_FFFF, MessageBits(s[..i]), LowBits(word, 8));
    FeedByte(crc, word);
    EntryOfLowByte(Xor(crc, word));
  }

  lemma EntryOfLowByte(x: bv32)
    ensures EntryAt(LowByte(x)) == TableEntry(LowByteWord(x))
  {
    WordIsNumber(x & 0xFF);
    hide TableEntry;
  }

  lemma ByteIsSmall(b: bv8)
    ensures b as bv32 < 256
  {
  }

  /** Main result: the table-driven loop computes the shift register's checksum of every byte string. */
  method Crc32Hash(s: seq<bv8>) returns (hash: bv32)
    ensures hash == Crc(s)
  {
    var table := GenerateCrc32Table();
    var crc: bv32 := 0xFFFF_FFFF;
    var i := 0;
    assert FeedBits(0xFFFF_FFFF, MessageBits(s[..0])) == 0xFFFF_FFFF;
    hide EntryAt, Xor, WithoutLowByte, LowByte, FeedBits, MessageBits;
    ghost var entries := table[..];
    while i < |s|
      invariant 0 <= i <= |s| && crc == FeedBits(0xFFFF_FFFF, MessageBits(s[..i]))
      invariant table[..] == entries
    {
      var word := s[i] as bv32;
      HashStep(s, i, crc);
      crc := Xor(WithoutLowByte(crc), table[LowByte(Xor(crc, word))]);
      i := i + 1;
    }
    assert s[..i] == s;
    hash := !crc;
  }

  lemma EightKnownShifts()
    ensures Shifts(0x9E, 8) == 0x17B7BE43
  {
    assert Shift(0x9E) == 0x4F;
    assert Shift(0x4F) == 0xEDB88307;
    assert Shift(0xEDB88307) == 0x9B64C2A3;
    assert Shift(0x9B64C2A3) == 0xA00AE271;
    assert Shift(0xA00AE271) == 0xBDBDF218;
    assert Shift(0xBDBDF218) == 0x5EDEF90C;
    assert Shift(0x5EDEF90C) == 0x2F6F7C86;
    assert Shift(0x2F6F7C86) == 0x17B7BE43;
    hide Shift;
    ShiftsUnroll(0x9E);
  }

  lemma ShiftsUnroll(x: bv32)
    ensures Shifts(x, 8) == Shift(Shift(Shift(Shift(Shift(Shift(Shift(Shift(x))))))))
  {
    hide Shift;
    var y := Shift(Shift(Shift(Shift(x))));
    assert Shifts(x, 8) == Shifts(Shift(Shift(x)), 6) == Shifts(y, 4);
    assert Shifts(y, 4) == Shifts(Shift(Shift(y)), 2) == Shift(Shift(Shift(Shift(y))));
  }

  /** A published value of the standard checksum, that of the text "a". */
  lemma KnownChecksum()
    ensures Crc([0x61]) == 0xE8B7_BE43
  {
    EightKnownShifts();
    MessageOfOneByte(0x61);
    assert ByteBits(0x61) == LowBits(0x61, 8);
    assert WithoutLowByte(0xFFFF_FFFF) == 0xFF_FFFF && LowByteWord(Xor(0xFFFF_FFFF, 0x61)) == 0x9E;
    assert !Xor(0xFF_FFFF, 0x17B7BE43) == 0xE8B7_BE43;
    hide FeedBits, LowBits, MessageBits, Xor, WithoutLowByte, LowByteWord, Shifts, ByteBits;
    FeedByte(0xFFFF_FFFF, 0x61);
  }

  // What the checksum is worth: the register never forgets a difference of at most 32 bits.

  predicate AtLeast(x: bv32, bound: bv32)
  {
    x >= bound
  }

  lemma HalfKeepsOrder(x: bv32, y: bv32)
    requires AtLeast(x, y)
    ensures AtLeast(Half(x), Half(y))
  {
  }

  lemma PolynomialReachesTheTop(x: bv32, y: bv32)
    ensures AtLeast(Xor(Half(x), POLYNOMIAL), Half(y)) && AtLeast(Xor(Half(x), POLYNOMIAL), 0x8000_0000)
    ensures Xor(Half(x), POLYNOMIAL) != 0
  {
  }

  lemma EvenNonzero(x: bv32)
    requires x != 0 && !Odd(x)
    ensures Half(x) != 0
  {
  }

  lemma FeedBitIsLinear(x: bv32, y: bv32, a: bool, b: bool)
    ensures Xor(FeedBit(x, a), FeedBit(y, b)) == FeedBit(Xor(x, y), a != b)
  {
    XorParity(x, y);
    XorHalf(x, y);
    hide Odd, Half, Xor;
    var h, l, p := Half(x), Half(y), POLYNOMIAL;
    XorAssociates(h, p, l);
    XorCommutes(p, l);
    XorAssociates(h, l, p);
    XorCommutes(p, Xor(l, p));
    XorAssociates(h, p, Xor(l, p));
    XorCancels(l, p);
  }

  /** The lower bound on the difference moves down by one bit per step. */
  lemma DifferenceDecays(x: bv32, y: bv32, a: bool, b: bool, j: nat)
    requires AtLeast(Xor(x, y), Halves(0x8000_0000, j))
    ensures AtLeast(Xor(FeedBit(x, a), FeedBit(y, b)), Halves(0x8000_0000, j + 1))
  {
    var d := Xor(x, y);
    FeedBitIsLinear(x, y, a, b);
    HalveOnceMore(0x8000_0000, j);
    HalfKeepsOrder(d, Halves(0x8000_0000, j));
    PolynomialReachesTheTop(d, Halves(0x8000_0000, j));
    hide Odd, Half, Xor, Halves, AtLeast;
  }

  /** A nonzero difference stays nonzero while both registers take in the same bits. */
  lemma {:induction false} DifferenceStays(x: bv32, y: bv32, bits: seq<bool>)
    requires x != y
    ensures FeedBits(x, bits) != FeedBits(y, bits)
    decreases bits
  {
    if bits != [] {
      FeedBitIsInjective(x, y, bits[0]);
      hide FeedBit;
      DifferenceStays(FeedBit(x, bits[0]), FeedBit(y, bits[0]), bits[1..]);
    }
  }

  lemma XorOfDistinct(x: bv32, y: bv32)
    ensures Xor(x, y) == 0 <==> x == y
  {
    XorCancels(x, y);
    XorCancels(y, 0);
    XorCommutes(0, y);
    hide Xor;
  }

  lemma FeedBitIsInjective(x: bv32, y: bv32, bit: bool)
    requires x != y
    ensures FeedBit(x, bit) != FeedBit(y, bit)
  {
    var d := Xor(x, y);
    XorOfDistinct(x, y);
    XorOfDistinct(FeedBit(x, bit), FeedBit(y, bit));
    FeedBitIsLinear(x, y, bit, bit);
    if Odd(d) { PolynomialReachesTheTop(d, d); } else { EvenNonzero(d); }
    hide Odd, Half, Xor, AtLeast;
  }

  lemma {:induction false} HalveInTwoParts(x: bv32, a: nat, b: nat)
    ensures Halves(Halves(x, a), b) == Halves(x, a + b)
    decreases a
  {
    if a > 0 {
      hide Half;
      HalveInTwoParts(Half(x), a - 1, b);
    }
  }

  /** The top bit is still in the word after 31 halvings. */
  lemma TopBitLasts(j: nat)
    requires j <= 31
    ensures Halves(0x8000_0000, j) != 0
  {
    hide Halves;
    AllHalves(0x8000_0000);
    AllHalves(0x80_0000);
    AllHalves(0x8000);
    AllHalves(0x80);
    var last := 31 - 24;
    HalveInTwoParts(0x8000_0000, 8, 8);
    HalveInTwoParts(0x8000_0000, 16, 8);
    HalveInTwoParts(0x8000_0000, 24, last);
    HalveInTwoParts(0x8000_0000, j, 31 - j);
    if Halves(0x8000_0000, j) == 0 {
      NothingStaysNothing(31 - j);
    }
  }

  lemma {:induction false} NothingStaysNothing(k: nat)
    ensures Halves(0, k) == 0
  {
    if k > 0 {
      assert Half(0) == 0;
      NothingStaysNothing(k - 1);
    }
  }

  lemma DifferenceIsThere(x: bv32, y: bv32, j: nat)
    requires j <= 31 && AtLeast(Xor(x, y), Halves(0x8000_0000, j))
    ensures x != y
  {
    TopBitLasts(j);
    hide Xor, AtLeast, Halves;
    NonzeroBound(x, y, Halves(0x8000_0000, j));
  }

  lemma NonzeroBound(x: bv32, y: bv32, bound: bv32)
    requires AtLeast(Xor(x, y), bound) && bound != 0
    ensures x != y
  {
  }

  lemma {:induction false} DifferenceLasts(x: bv32, y: bv32, u: seq<bool>, v: seq<bool>, j: nat)
    requires |u| == |v| && j + |u| <= 31
    requires AtLeast(Xor(x, y), Halves(0x8000_0000, j))
    ensures FeedBits(x, u) != FeedBits(y, v)
    decreases u
  {
    if u == [] {
      DifferenceIsThere(x, y, j);
    } else {
      hide Xor, AtLeast, Halves, FeedBit;
      DifferenceDecays(x, y, u[0], v[0], j);
      DifferenceLasts(FeedBit(x, u[0]), FeedBit(y, v[0]), u[1..], v[1..], j + 1);
    }
  }

  lemma FirstDifference(x: bv32)
    ensures AtLeast(Xor(FeedBit(x, true), FeedBit(x, false)), Halves(0x8000_0000, 0))
    ensures AtLeast(Xor(FeedBit(x, false), FeedBit(x, true)), Halves(0x8000_0000, 0))
  {
    FeedBitIsLinear(x, x, true, false);
    FeedBitIsLinear(x, x, false, true);
    XorCancels(x, 0);
    PolynomialReachesTheTop(0, 0);
    assert Halves(0x8000_0000, 0) == 0x8000_0000 && !Odd(0);
    hide Xor, AtLeast, Half, Odd, Halves;
  }

  /** Two different runs of at most 32 bits always leave different registers behind. */
  lemma {:induction false} DistinctBitsDiffer(x: bv32, u: seq<bool>, v: seq<bool>)
    requires |u| == |v| <= 32 && u != v
    ensures FeedBits(x, u) != FeedBits(x, v)
    decreases u
  {
    hide FeedBit, AtLeast, Xor, Halves;
    if u[0] == v[0] {
      assert u[1..] != v[1..] by { assert u == [u[0]] + u[1..] && v == [v[0]] + v[1..]; }
      DistinctBitsDiffer(FeedBit(x, u[0]), u[1..], v[1..]);
    } else {
      FirstDifference(x);
      DifferenceLasts(FeedBit(x, u[0]), FeedBit(x, v[0]), u[1..], v[1..], 0);
    }
  }

  lemma EqualHalvesAndParity(a: bv32, b: bv32)
    requires Half(a) == Half(b) && Odd(a) == Odd(b)
    ensures a == b
  {
  }

  lemma {:induction false} LowBitsAreInjective(a: bv32, b: bv32, k: nat)
    requires LowBits(a, k) == LowBits(b, k) && Halves(a, k) == Halves(b, k)
    ensures a == b
    decreases k
  {
    if k > 0 {
      hide Odd, Half;
      assert LowBits(a, k)[0] == LowBits(b, k)[0];
      assert LowBits(a, k)[1..] == LowBits(Half(a), k - 1) && LowBits(b, k)[1..] == LowBits(Half(b), k - 1);
      LowBitsAreInjective(Half(a), Half(b), k - 1);
      EqualHalvesAndParity(a, b);
    }
  }

  lemma WidenedByte(a: bv8, b: bv8)
    requires a as bv32 == b as bv32
    ensures a == b
  {
  }

  lemma ByteBitsAreInjective(a: bv8, b: bv8)
    requires ByteBits(a) == ByteBits(b)
    ensures a == b
  {
    ByteIsSmall(a);
    ByteIsSmall(b);
    hide LowBits, Halves;
    AllHalves(a as bv32);
    AllHalves(b as bv32);
    ByteHasEightBits(a as bv32);
    ByteHasEightBits(b as bv32);
    LowBitsAreInjective(a as bv32, b as bv32, 8);
    WidenedByte(a, b);
  }

  lemma {:induction false} MessageBitsAreInjective(u: seq<bv8>, v: seq<bv8>)
    requires |u| == |v| && MessageBits(u) == MessageBits(v)
    ensures |MessageBits(u)| == 8 * |u| && u == v
  {
    if u != [] {
      var m := MessageBits(u);
      assert m[..8] == ByteBits(u[0]) && m[..8] == ByteBits(v[0]);
      assert m[8..] == MessageBits(u[1..]) && m[8..] == MessageBits(v[1..]);
      ByteBitsAreInjective(u[0], v[0]);
      MessageBitsAreInjective(u[1..], v[1..]);
      assert u == [u[0]] + u[1..] && v == [v[0]] + v[1..];
    }
  }

  lemma {:induction false} MessageLength(s: seq<bv8>)
    ensures |MessageBits(s)| == 8 * |s|
  {
    if s != [] {
      MessageLength(s[1..]);
    }
  }

  /** Main result: replacing up to four neighbouring bytes by others always changes the checksum. */
  lemma BurstIsDetected(before: seq<bv8>, u: seq<bv8>, v: seq<bv8>, after: seq<bv8>)
    requires |u| == |v| <= 4 && u != v
    ensures Crc(before + u + after) != Crc(before + v + after)
  {
    MessageLength(u);
    MessageLength(v);
    if MessageBits(u) == MessageBits(v) {
      MessageBitsAreInjective(u, v);
    }
    hide FeedBits, MessageBits;
    var start := FeedBits(0xFFFF_FFFF, MessageBits(before));
    DistinctBitsDiffer(start, MessageBits(u), MessageBits(v));
    FeedInThreeParts(before, u, after);
    FeedInThreeParts(before, v, after);
    DifferenceStays(FeedBits(start, MessageBits(u)), FeedBits(start, MessageBits(v)), MessageBits(after));
    ComplementIsInjective(FeedBits(0xFFFF_FFFF, MessageBits(before + u + after)),
      FeedBits(0xFFFF_FFFF, MessageBits(before + v + after)));
  }

  lemma FeedInThreeParts(a: seq<bv8>, b: seq<bv8>, c: seq<bv8>)
    ensures FeedBits(0xFFFF_FFFF, MessageBits(a + b + c))
      == FeedBits(FeedBits(FeedBits(0xFFFF_FFFF, MessageBits(a)), MessageBits(b)), MessageBits(c))
  {
    hide FeedBits, MessageBits;
    MessageOfTwoParts(a + b, c);
    MessageOfTwoParts(a, b);
    FeedInTwoParts(0xFFFF_FFFF, MessageBits(a + b), MessageBits(c));
    FeedInTwoParts(0xFFFF_FFFF, MessageBits(a), MessageBits(b));
  }

  lemma ComplementIsInjective(x: bv32, y: bv32)
    requires x != y
    ensures !x != !y
  {
  }
}
