/** A published test vector of RC4 (douyin/abogus.rs). */
module Rc4Vector {
  import opened ByteStrings
  import opened StreamCiphers
  import opened Rc4Steps

  /** "Key" and "Plaintext". */
  const KEY: seq<U8> := [75, 101, 121]

  const TEXT: seq<bv8> := [0x50, 0x6C, 0x61, 0x69, 0x6E, 0x74, 0x65, 0x78, 0x74]

  const KEYSTREAM: seq<U8> := [235, 159, 119, 129, 183, 52, 202, 114, 167]

  const CIPHERTEXT: seq<bv8> := [0xBB, 0xF3, 0x16, 0xE8, 0xD9, 0x40, 0xAF, 0x0A, 0xD3]

  // What is written down is what the cipher does.

  /** The table before round `r`. */
  function TableBefore(r: nat): (t: seq<U8>)
    ensures |t| == 256
  {
    if r <= 256 then Schedule(KEY, r).table else Rc4After(KEY, r - 256).table
  }

  function JBefore(r: nat): U8
  {
    if r < 256 then Schedule(KEY, r).j else Rc4After(KEY, r - 256).j
  }

  /** What a round does to the table and the index. */
  ghost predicate Does(r: nat, j: U8)
    requires r < ROUNDS
  {
    && j == (JBefore(r) + TableBefore(r)[First(r)] + KeyByteAt(r)) % 256
    && TableBefore(r + 1) == Swap(TableBefore(r), First(r), j)
    && (r != 255 ==> JBefore(r + 1) == j)
  }

  lemma ScheduleRound(r: nat)
    requires r < 256
    ensures Does(r, Schedule(KEY, r + 1).j)
  {
    var s := Schedule(KEY, r);
    assert KeyAt(KEY, r) == KeyByteAt(r);
    assert Schedule(KEY, r + 1) == Round(s, r, KeyAt(KEY, r));
    WrappingAdds(s.j, s.table[r], KeyByteAt(r));
    hide Schedule, Rc4After, KeyAt, KeyByteAt, Swap;
  }

  lemma EncryptionStarts()
    ensures Rc4After(KEY, 0).table == Schedule(KEY, 256).table && Rc4After(KEY, 0).j == 0 == Rc4After(KEY, 0).i
  {
    hide Schedule;
  }

  lemma EncryptionStep(n: nat)
    ensures Rc4After(KEY, n + 1) == NextRc4(Rc4After(KEY, n))
  {
    hide NextRc4;
  }

  lemma {:induction false} EncryptionIndex(n: nat)
    requires n < 256
    ensures Rc4After(KEY, n).i == n
  {
    hide Rc4After;
    if n == 0 {
      EncryptionStarts();
    } else {
      EncryptionIndex(n - 1);
      EncryptionStep(n - 1);
    }
  }

  lemma EncryptionRound(r: nat)
    requires 256 <= r < ROUNDS
    ensures Does(r, Rc4After(KEY, r - 255).j)
  {
    hide Rc4After, Schedule, Swap;
    EncryptionStarts();
    EncryptionIndex(r - 256);
    EncryptionStep(r - 256);
  }

  lemma OneRound(r: nat) returns (j: U8)
    requires r < ROUNDS
    ensures Does(r, j)
  {
    hide Does, Schedule, Rc4After;
    if r < 256 {
      ScheduleRound(r);
      j := Schedule(KEY, r + 1).j;
    } else {
      EncryptionRound(r);
      j := Rc4After(KEY, r - 255).j;
    }
  }

  ghost predicate Known(r: nat)
  {
    && (forall p | 0 <= p < 256 :: TableBefore(r)[p] == Value(p, r))
    && (r < ROUNDS ==> JBefore(r) == IndexBefore(r))
  }

  lemma {:induction false} IdentityAt(n: nat, p: nat)
    requires p < n <= 256
    ensures Identity(n)[p] == p
  {
    if p < n - 1 {
      IdentityAt(n - 1, p);
    }
  }

  lemma StartIsKnown()
    ensures Known(0)
  {
    assert Schedule(KEY, 0) == Rc4State(Identity(256), 0, 0);
    hide Schedule, Identity, Value;
    forall p | 0 <= p < 256 ensures TableBefore(0)[p] == Value(p, 0) {
      IdentityAt(256, p);
      NothingMovedYet(p);
    }
  }

  lemma EntryFound(r: nat)
    requires r < ROUNDS && Right(r)
    ensures 0 <= First(r) < 256 && V(r) == Value(First(r), r) && Listed(J(r), r)
    ensures J(r) == (IndexBefore(r) + V(r) + KeyByteAt(r)) % 256
  {
    hide Value, V, J, Listed, KeyByteAt;
  }

  lemma NextIsKnown(r: nat)
    requires r < ROUNDS && Known(r)
    ensures Known(r + 1)
  {
    hide *;
    AllRounds(r);
    EntryFound(r);
    var j := OneRound(r);
    KnownStep(r, j);
  }

  lemma StepIsKnown(r: nat, j: U8)
    requires r < ROUNDS && Known(r) && Does(r, j) && 0 <= First(r) < 256
    requires V(r) == Value(First(r), r) && J(r) == (IndexBefore(r) + V(r) + KeyByteAt(r)) % 256
    ensures j == J(r) && TableBefore(r)[First(r)] == V(r) && TableBefore(r)[j] == Value(j, r)
    ensures TableBefore(r + 1) == Swap(TableBefore(r), First(r), j) && (r != 255 ==> JBefore(r + 1) == j)
    ensures forall p | 0 <= p < 256 :: TableBefore(r)[p] == Value(p, r)
  {
    hide TableBefore, JBefore, Value, V, J, KeyByteAt, IndexBefore, Swap;
  }

  lemma KnownStep(r: nat, j: U8)
    requires r < ROUNDS && Known(r) && Does(r, j) && 0 <= First(r) < 256
    requires V(r) == Value(First(r), r) && Listed(J(r), r)
    requires J(r) == (IndexBefore(r) + V(r) + KeyByteAt(r)) % 256
    ensures Known(r + 1)
  {
    hide TableBefore, JBefore, Value, V, J, Listed, KeyByteAt, IndexBefore, Does;
    StepIsKnown(r, j);
    IndexIsKnown(r, j);
    SwapIsKnown(r, TableBefore(r), TableBefore(r + 1));
  }

  lemma SwapIsKnown(r: nat, t: seq<U8>, t': seq<U8>)
    requires r < ROUNDS && Listed(J(r), r) && |t| == 256 && 0 <= First(r) < 256 && 0 <= J(r) < 256
    requires t' == Swap(t, First(r), J(r)) && t[First(r)] == V(r) && t[J(r)] == Value(J(r), r)
    requires forall p | 0 <= p < 256 :: t[p] == Value(p, r)
    ensures |t'| == 256 && forall p | 0 <= p < 256 :: t'[p] == Value(p, r + 1)
  {
    hide Value, V, J, Listed, First;
    forall p | 0 <= p < 256 ensures t'[p] == Value(p, r + 1) {
      NextValue(p, r);
    }
  }

  lemma IndexIsKnown(r: nat, j: U8)
    requires r < ROUNDS && j == J(r) && (r != 255 ==> JBefore(r + 1) == j)
    ensures r + 1 < ROUNDS ==> JBefore(r + 1) == IndexBefore(r + 1)
  {
    if r == 255 {
      EncryptionStarts();
    }
    hide Rc4After, Schedule, J;
  }

  /** After the first `r` rounds the table and the index are what is written down. */
  lemma {:induction false} RunIsKnown(r: nat)
    requires r <= ROUNDS
    ensures Known(r)
  {
    hide *;
    if r == 0 {
      StartIsKnown();
    } else {
      RunIsKnown(r - 1);
      NextIsKnown(r - 1);
    }
  }

  /** The key byte that encryption round `r` yields. */
  lemma KnownByte(r: nat, n: nat, j: U8, v: U8, w: U8, p: int, k: U8)
    requires 256 <= r < 265 && r == n + 255 && J(r) == j && V(r) == v && Value(j, r) == w
    requires p == (v + w) % 256 && Value(p, r + 1) == k
    ensures Rc4Byte(Rc4After(KEY, n)) == k
  {
    assert r < ROUNDS && |KEY| == 3;
    hide *;
    RunIsKnown(r);
    RunIsKnown(r + 1);
    AllRounds(r);
    EntryFound(r);
    EncryptionRound(r);
    EncryptionIndex(r - 255);
    ByteIsEntry(r, Rc4After(KEY, r - 255), w);
    ByteIs(Rc4After(KEY, r - 255), v, w);
  }

  lemma ByteIsEntry(r: nat, s: Rc4State, w: U8)
    requires 256 <= r < ROUNDS && s == Rc4After(KEY, r - 255) && s.i == r - 255 && GoodRc4(s)
    requires Known(r) && Known(r + 1) && Does(r, s.j)
    requires 0 <= First(r) < 256 && V(r) == Value(First(r), r) && w == Value(J(r), r)
    requires J(r) == (IndexBefore(r) + V(r) + KeyByteAt(r)) % 256
    ensures |s.table| == 256 && s.table[s.i] == w && s.table[s.j] == V(r)
    ensures forall p | 0 <= p < 256 :: s.table[p] == Value(p, r + 1)
  {
    var t, t' := TableBefore(r), TableBefore(r + 1);
    assert s.j == J(r) && t[First(r)] == V(r) && t[s.j] == w && t' == s.table;
    assert forall p | 0 <= p < 256 :: t'[p] == Value(p, r + 1);
    hide Known, TableBefore, JBefore, Value, V, J, KeyByteAt, IndexBefore, Rc4After;
  }

  lemma ByteIs(s: Rc4State, v: U8, w: U8)
    requires |s.table| == 256 && s.table[s.i] == w && s.table[s.j] == v
    ensures GoodRc4(s) && Rc4Byte(s) == s.table[(v + w) % 256]
  {
  }

  lemma Byte1(n: nat)
    requires n == 1
    ensures Rc4Byte(Rc4After(KEY, n)) == 235
  {
    hide Value, J, V, Right, Rc4After, Rc4Byte;
    Encryption1();
    KnownByte(256, n, 51, 51, 78, 129, 235);
  }

  lemma Byte2(n: nat)
    requires n == 2
    ensures Rc4Byte(Rc4After(KEY, n)) == 159
  {
    hide Value, J, V, Right, Rc4After, Rc4Byte;
    Encryption2();
    KnownByte(257, n, 183, 132, 198, 74, 159);
  }

  lemma Byte3(n: nat)
    requires n == 3
    ensures Rc4Byte(Rc4After(KEY, n)) == 119
  {
    hide Value, J, V, Right, Rc4After, Rc4Byte;
    Encryption3();
    KnownByte(258, n, 84, 157, 20, 177, 119);
  }

  lemma Byte4(n: nat)
    requires n == 4
    ensures Rc4Byte(Rc4After(KEY, n)) == 129
  {
    hide Value, J, V, Right, Rc4After, Rc4Byte;
    Encryption4();
    KnownByte(259, n, 20, 192, 41, 233, 129);
  }

  lemma Byte5(n: nat)
    requires n == 5
    ensures Rc4Byte(Rc4After(KEY, n)) == 183
  {
    hide Value, J, V, Right, Rc4After, Rc4Byte;
    Encryption5();
    KnownByte(260, n, 220, 200, 184, 128, 183);
  }

  lemma Byte6(n: nat)
    requires n == 6
    ensures Rc4Byte(Rc4After(KEY, n)) == 52
  {
    hide Value, J, V, Right, Rc4After, Rc4Byte;
    Encryption6();
    KnownByte(261, n, 249, 29, 221, 250, 52);
  }

  lemma Byte7(n: nat)
    requires n == 7
    ensures Rc4Byte(Rc4After(KEY, n)) == 202
  {
    hide Value, J, V, Right, Rc4After, Rc4Byte;
    Encryption7();
    KnownByte(262, n, 161, 168, 160, 72, 202);
  }

  lemma Byte8(n: nat)
    requires n == 8
    ensures Rc4Byte(Rc4After(KEY, n)) == 114
  {
    hide Value, J, V, Right, Rc4After, Rc4Byte;
    Encryption8();
    KnownByte(263, n, 235, 74, 48, 122, 114);
  }

  lemma Byte9(n: nat)
    requires n == 9
    ensures Rc4Byte(Rc4After(KEY, n)) == 167
  {
    hide Value, J, V, Right, Rc4After, Rc4Byte;
    Encryption9();
    KnownByte(264, n, 222, 243, 252, 239, 167);
  }

  lemma {:induction false} StreamPrefix(a: seq<U8>, n: nat)
    requires n <= |a| && forall i | 0 <= i < n :: Rc4Byte(Rc4After(KEY, i + 1)) == a[i]
    ensures Rc4Stream(KEY, n) == a[..n]
  {
    hide Rc4Byte, Rc4After;
    if n > 0 {
      StreamPrefix(a, n - 1);
      assert a[..n] == a[..n - 1] + [a[n - 1]];
    }
  }

  lemma AnyByte(n: nat)
    requires n < 9
    ensures Rc4Byte(Rc4After(KEY, n + 1)) == KEYSTREAM[n]
  {
    hide Rc4Byte, Rc4After;
    match n {
      case 0 => Byte1(n + 1);
      case 1 => Byte2(n + 1);
      case 2 => Byte3(n + 1);
      case 3 => Byte4(n + 1);
      case 4 => Byte5(n + 1);
      case 5 => Byte6(n + 1);
      case 6 => Byte7(n + 1);
      case 7 => Byte8(n + 1);
      case 8 => Byte9(n + 1);
    }
  }

  lemma KeystreamIsKnown()
    ensures Rc4Stream(KEY, 9) == KEYSTREAM
  {
    hide Rc4Byte, Rc4After, Rc4Stream;
    forall n | 0 <= n < 9 ensures Rc4Byte(Rc4After(KEY, n + 1)) == KEYSTREAM[n] {
      AnyByte(n);
    }
    StreamPrefix(KEYSTREAM, 9);
    assert KEYSTREAM[..9] == KEYSTREAM;
  }

  lemma MaskedText()
    ensures |TEXT| == |KEYSTREAM| == 9 && Masked(MaskByte, TEXT, KEYSTREAM) == CIPHERTEXT
  {
    assert MaskByte(0x50, 235) == 0xBB;
    assert MaskByte(0x6C, 159) == 0xF3;
    assert MaskByte(0x61, 119) == 0x16;
    assert MaskByte(0x69, 129) == 0xE8;
    assert MaskByte(0x6E, 183) == 0xD9;
    assert MaskByte(0x74, 52) == 0x40;
    assert MaskByte(0x65, 202) == 0xAF;
    assert MaskByte(0x78, 114) == 0x0A;
    assert MaskByte(0x74, 167) == 0xD3;
    hide MaskByte;
  }

  /** Main result: the published ciphertext comes out. */
  lemma PublishedVector()
    ensures Rc4(KEY, TEXT) == CIPHERTEXT
  {
    KeystreamIsKnown();
    hide Masked, Rc4Stream, MaskByte;
    MaskedText();
  }
}
