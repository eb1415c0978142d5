/** Bit strings, most significant bit first, and their numbers (bit_read.rs, bit_write.rs). */
module Bits {
  import opened Arithmetic
  import opened ByteStrings

  function Pow2(k: nat): (p: nat)
    ensures p >= 1
  {
    if k == 0 then 1 else 2 * Pow2(k - 1)
  }

  lemma Pow2Values()
    ensures Pow2(8) == 256 && Pow2(64) == 0x1_0000_0000_0000_0000
  {
    assert Pow2(4) == 16 && Pow2(8) == 16 * Pow2(4) by { Pow2Adds(4, 4); }
    assert Pow2(16) == 0x1_0000 by { Pow2Adds(8, 8); }
    assert Pow2(32) == 0x1_0000_0000 by { Pow2Adds(16, 16); }
    Pow2Adds(32, 32);
  }

  lemma {:induction false} Pow2Adds(a: nat, b: nat)
    ensures Pow2(a + b) == Pow2(a) * Pow2(b)
    decreases b
  {
    if b > 0 {
      Pow2Adds(a, b - 1);
      assert Pow2(a) * (2 * Pow2(b - 1)) == 2 * (Pow2(a) * Pow2(b - 1));
    }
  }

  lemma {:induction false} Pow2Monotone(a: nat, b: nat)
    requires a <= b
    ensures Pow2(a) <= Pow2(b)
    decreases b
  {
    if a < b {
      Pow2Monotone(a, b - 1);
    }
  }

  /** Bit `k` of `n`, counted from the least significant: `(n >> k) & 1 == 1`. */
  function BitAt(n: nat, k: nat): bool
  {
    n / Pow2(k) % 2 == 1
  }

  /** The low `n` bits of `v`. */
  function ToBits(v: nat, n: nat): (bits: seq<bool>)
    ensures |bits| == n
  {
    if n == 0 then [] else ToBits(v / 2, n - 1) + [v % 2 == 1]
  }

  function Value(bits: seq<bool>): nat
  {
    if bits == [] then 0 else 2 * Value(bits[..|bits| - 1]) + if bits[|bits| - 1] then 1 else 0
  }

  function BitsOf(data: Bytes): (bits: seq<bool>)
    ensures |bits| == 8 * |data|
  {
    if data == [] then [] else BitsOf(data[..|data| - 1]) + ToBits(data[|data| - 1], 8)
  }

  function Zeros(n: nat): (bits: seq<bool>)
    ensures |bits| == n && forall i | 0 <= i < n :: !bits[i]
  {
    seq(n, i => false)
  }

  lemma {:induction false} ValueBound(bits: seq<bool>)
    ensures Value(bits) < Pow2(|bits|)
  {
    if bits != [] {
      ValueBound(bits[..|bits| - 1]);
    }
  }

  lemma {:induction false} ValueToBits(bits: seq<bool>)
    ensures ToBits(Value(bits), |bits|) == bits
  {
    if bits != [] {
      ValueToBits(bits[..|bits| - 1]);
    }
  }

  lemma {:induction false} ToBitsValue(v: nat, n: nat)
    requires v < Pow2(n)
    ensures Value(ToBits(v, n)) == v
  {
    if n > 0 {
      ToBitsValue(v / 2, n - 1);
      assert ToBits(v, n)[..n - 1] == ToBits(v / 2, n - 1);
    }
  }

  lemma HalveThenDivide(v: nat, k: nat)
    ensures v / 2 / Pow2(k) == v / Pow2(k + 1)
  {
    var p, q := Pow2(k), v / 2 / Pow2(k);
    assert q * p <= v / 2 < q * p + p;
    assert q * (2 * p) == 2 * (q * p);
    DivisionIsUnique(v, 2 * p, q);
  }

  lemma {:induction false} ToBitsAt(v: nat, n: nat, i: nat)
    requires i < n
    ensures ToBits(v, n)[i] == BitAt(v, n - 1 - i)
  {
    if i < n - 1 {
      ToBitsAt(v / 2, n - 1, i);
      HalveThenDivide(v, n - 2 - i);
    }
  }

  lemma {:induction false} BitsOfAt(data: Bytes, j: nat, i: nat)
    requires j < |data| && i < 8
    ensures BitsOf(data)[8 * j + i] == BitAt(data[j], 7 - i)
  {
    var n := |data| - 1;
    if j == n {
      ToBitsAt(data[n], 8, i);
    } else {
      BitsOfAt(data[..n], j, i);
    }
  }

  lemma {:induction false} BitsOfConcat(a: Bytes, b: Bytes)
    ensures BitsOf(a + b) == BitsOf(a) + BitsOf(b)
  {
    if b == [] {
      assert a + b == a;
    } else {
      var n := |b| - 1;
      BitsOfConcat(a, b[..n]);
      assert (a + b)[..|a + b| - 1] == a + b[..n];
    }
  }

  lemma BitsOfByte(x: U8)
    ensures BitsOf([x]) == ToBits(x, 8)
  {
    assert [x][..0] == [];
  }

  lemma LastByteBits(a: Bytes)
    requires a != []
    ensures var n := |a| - 1; BitsOf(a[..n]) == BitsOf(a)[..8 * n] && ToBits(a[n], 8) == BitsOf(a)[8 * n..]
  {
  }

  lemma ToBitsInjective(x: U8, y: U8)
    requires ToBits(x, 8) == ToBits(y, 8)
    ensures x == y
  {
    Pow2Values();
    ToBitsValue(x, 8);
    ToBitsValue(y, 8);
    hide *;
  }

  /** Bytes are determined by their bits. */
  lemma {:induction false} BitsOfInjective(a: Bytes, b: Bytes)
    requires BitsOf(a) == BitsOf(b)
    ensures a == b
  {
    assert |a| == |b|;
    if a != [] {
      var n := |a| - 1;
      LastByteBits(a);
      LastByteBits(b);
      hide *;
      BitsOfInjective(a[..n], b[..n]);
      ToBitsInjective(a[n], b[n]);
      assert a == a[..n] + [a[n]] && b == b[..n] + [b[n]];
    }
  }

  /** The most significant bit of a byte comes first, the least significant one last. */
  lemma HighBitFirst(x: U8)
    ensures BitsOf([x])[0] <==> x >= 128
    ensures BitsOf([x])[7] <==> x % 2 == 1
  {
    assert Pow2(0) == 1 && Pow2(4) == 16 && Pow2(7) == 8 * Pow2(4);
    BitsOfAt([x], 0, 0);
    BitsOfAt([x], 0, 7);
    hide BitsOf, Pow2;
  }

  lemma KnownNumber()
    ensures Value([true, true, false]) == 6
  {
    assert [true, true, false][..2] == [true, true] && [true, true][..1] == [true] && [true][..0] == [];
    assert Value([true]) == 2 * Value([]) + 1;
    assert Value([true, true]) == 2 * Value([true]) + 1;
  }
}
