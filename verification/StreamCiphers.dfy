/** The table-driven stream ciphers of the request signer (douyin/abogus.rs and douyin/signature.rs). */
module StreamCiphers {
  import opened ByteStrings

  function Swap(t: seq<U8>, a: nat, b: nat): (r: seq<U8>)
    requires a < |t| && b < |t|
    ensures |r| == |t|
  {
    t[a := t[b]][b := t[a]]
  }

  /** `slice::swap` */
  method SwapEntries(s: array<U8>, a: nat, b: nat)
    requires a < s.Length && b < s.Length
    modifies s
    ensures s[..] == Swap(old(s[..]), a, b)
  {
    s[a], s[b] := s[b], s[a];
  }

  /** A table of 256 bytes in which every byte value stands exactly once. */
  ghost predicate IsPermutation(t: seq<U8>)
  {
    |t| == 256 && forall v: U8 :: multiset(t)[v] == 1
  }

  /** The same bytes, each as often. */
  ghost predicate SameBytes(a: seq<U8>, b: seq<U8>)
  {
    |a| == |b| && multiset(a) == multiset(b)
  }

  lemma SameBytesChain(a: seq<U8>, b: seq<U8>, c: seq<U8>)
    requires SameBytes(a, b) && SameBytes(b, c)
    ensures SameBytes(a, c)
  {
  }

  lemma SwapConserves(t: seq<U8>, a: nat, b: nat)
    requires a < |t| && b < |t|
    ensures SameBytes(Swap(t, a, b), t)
  {
    var u := t[a := t[b]];
    assert multiset(u) == multiset(t) - multiset{t[a]} + multiset{t[b]};
    assert multiset(u[b := t[a]]) == multiset(u) - multiset{u[b]} + multiset{t[a]};
  }

  /** `core::array::from_fn(|i| i as u8)`, up to `n`. */
  function Identity(n: nat): (t: seq<U8>)
    requires n <= 256
    ensures |t| == n
  {
    if n == 0 then [] else Identity(n - 1) + [n - 1]
  }

  lemma {:induction false} IdentityCounts(n: nat, v: U8)
    requires n <= 256
    ensures multiset(Identity(n))[v] == if v < n then 1 else 0
  {
    if n > 0 {
      IdentityCounts(n - 1, v);
    }
  }

  lemma IdentityIsPermutation()
    ensures IsPermutation(Identity(256))
  {
    forall v: U8 ensures multiset(Identity(256))[v] == 1 {
      IdentityCounts(256, v);
    }
  }

  function Wrap(n: nat): U8
  {
    n % 256
  }

  function AddBytes(a: U8, b: U8): U8
  {
    Wrap(a + b)
  }

  // The cipher that keeps its table between calls.

  datatype Walk = Walk(table: seq<U8>, indexB: nat, initial: U8, valueE: U8)

  predicate Good(w: Walk)
  {
    |w.table| == 256 && w.indexB < 256
  }

  /** What the first step does before it uses the table. */
  function FirstTouch(w: Walk): (r: Walk)
    requires Good(w)
    ensures Good(r)
  {
    var initial := w.table[w.indexB];
    w.(table := w.table[1 := initial][w.indexB := w.indexB], initial := initial)
  }

  function Touched(w: Walk, index: nat): (r: Walk)
    requires Good(w)
    ensures Good(r)
  {
    if index == 0 then FirstTouch(w) else w
  }

  function KeyByte(w: Walk, index: nat): U8
    requires Good(w)
  {
    var t := Touched(w, index);
    t.table[if index == 0 then AddBytes(t.indexB, t.initial) else AddBytes(t.initial, t.valueE)]
  }

  function Next(w: Walk, index: nat): (r: Walk)
    requires Good(w)
    ensures Good(r)
  {
    var t := Touched(w, index).table;
    var next := (index + 2) % 256;
    var valueE := t[next];
    var sum := AddBytes(w.indexB, valueE);
    Walk(Swap(t, sum, next), sum, t[sum], valueE)
  }

  function After(table: seq<U8>, k: nat): (w: Walk)
    requires |table| == 256
    ensures Good(w)
    decreases k
  {
    if k == 0 then Walk(table, table[1], 0, 0) else Next(After(table, k - 1), k - 1)
  }

  /** The bytes the input is combined with: no input value enters here. */
  function Keystream(table: seq<U8>, n: nat): (ks: seq<U8>)
    requires |table| == 256
    ensures |ks| == n
    decreases n
  {
    if n == 0 then [] else Keystream(table, n - 1) + [KeyByte(After(table, n - 1), n - 1)]
  }

  lemma FirstTouchIsSwap(table: seq<U8>)
    requires |table| == 256
    ensures Touched(After(table, 0), 0).table == Swap(table, 1, table[1])
  {
  }

  lemma NextConserves(w: Walk, index: nat)
    requires Good(w)
    ensures SameBytes(Next(w, index).table, Touched(w, index).table)
  {
    hide Touched, Swap, AddBytes;
    var t := Touched(w, index).table;
    var next := (index + 2) % 256;
    SwapConserves(t, AddBytes(w.indexB, t[next]), next);
  }

  lemma FirstTouchConserves(table: seq<U8>)
    requires |table| == 256
    ensures SameBytes(Touched(After(table, 0), 0).table, table)
  {
    FirstTouchIsSwap(table);
    hide Touched, After, Swap;
    SwapConserves(table, 1, table[1]);
  }

  lemma TouchConserves(table: seq<U8>, k: nat)
    requires |table| == 256
    ensures SameBytes(Touched(After(table, k), k).table, After(table, k).table)
  {
    if k == 0 {
      FirstTouchConserves(table);
    }
  }

  lemma StepConserves(table: seq<U8>, k: nat)
    requires |table| == 256
    ensures SameBytes(After(table, k + 1).table, After(table, k).table)
  {
    var w := After(table, k);
    assert After(table, k + 1) == Next(w, k);
    hide *;
    TouchConserves(table, k);
    NextConserves(w, k);
    SameBytesChain(Next(w, k).table, Touched(w, k).table, w.table);
  }

  lemma NothingDoneYet(table: seq<U8>)
    requires |table| == 256
    ensures SameBytes(After(table, 0).table, table)
  {
  }

  /** Main result: however long the run, the table is only rearranged. */
  lemma {:induction false} TableIsConserved(table: seq<U8>, k: nat)
    requires |table| == 256
    ensures SameBytes(After(table, k).table, table)
    decreases k
  {
    hide *;
    if k == 0 {
      NothingDoneYet(table);
    } else {
      TableIsConserved(table, k - 1);
      StepConserves(table, k - 1);
      SameBytesChain(After(table, k).table, After(table, k - 1).table, table);
    }
  }

  lemma PermutationIsKept(table: seq<U8>, k: nat)
    requires IsPermutation(table)
    ensures IsPermutation(After(table, k).table)
  {
    hide After;
    TableIsConserved(table, k);
  }

  // Combining with a keystream.

  function Mask(x: bv32, k: U8): bv32 { x ^ (k as bv32) }

  function MaskByte(x: bv8, k: U8): bv8 { x ^ (k as bv8) }

  function Masked<T>(mask: (T, U8) -> T, values: seq<T>, ks: seq<U8>): (r: seq<T>)
    requires |values| <= |ks|
    ensures |r| == |values|
  {
    seq(|values|, i requires 0 <= i < |values| => mask(values[i], ks[i]))
  }

  lemma MaskTwice(x: bv32, k: U8)
    ensures Mask(Mask(x, k), k) == x
  {
  }

  lemma MaskByteTwice(x: bv8, k: U8)
    ensures MaskByte(MaskByte(x, k), k) == x
  {
  }

  lemma MaskedTwice<T(!new)>(mask: (T, U8) -> T, values: seq<T>, ks: seq<U8>)
    requires |values| <= |ks|
    requires forall x, k :: mask(mask(x, k), k) == x
    ensures Masked(mask, Masked(mask, values, ks), ks) == values
  {
    var once := Masked(mask, values, ks);
    forall i | 0 <= i < |values| ensures Masked(mask, once, ks)[i] == values[i] {
      assert mask(mask(values[i], ks[i]), ks[i]) == values[i];
    }
  }

  lemma MaskedGrows<T>(mask: (T, U8) -> T, values: seq<T>, i: nat, ks: seq<U8>, k: U8)
    requires i < |values| && |ks| == i
    ensures Masked(mask, values[..i + 1], ks + [k]) == Masked(mask, values[..i], ks) + [mask(values[i], k)]
  {
  }

  lemma KeystreamGrows(table: seq<U8>, i: nat)
    requires |table| == 256
    ensures Keystream(table, i + 1) == Keystream(table, i) + [KeyByte(After(table, i), i)]
  {
  }

  /** What `transform_bytes` returns when it starts from the given table. */
  function Transform(table: seq<U8>, values: seq<bv32>): (r: seq<bv32>)
    requires |table| == 256
    ensures |r| == |values|
  {
    Masked(Mask, values, Keystream(table, |values|))
  }

  /** Main result: an object that starts from the same table undoes what another has done. */
  lemma TwoRunsCancel(table: seq<U8>, values: seq<bv32>)
    requires |table| == 256
    ensures Transform(table, Transform(table, values)) == values
  {
    forall x, k ensures Mask(Mask(x, k), k) == x {
      MaskTwice(x, k);
    }
    hide Mask;
    MaskedTwice(Mask, values, Keystream(table, |values|));
  }

  lemma StartOfRun(table: seq<U8>, values: seq<bv32>)
    requires |table| == 256 && values == []
    ensures After(table, 0) == Walk(table, table[1], 0, 0) && Transform(table, values) == []
  {
  }

  lemma TransformGrows(table: seq<U8>, values: seq<bv32>, i: nat)
    requires |table| == 256 && i < |values|
    ensures After(table, i + 1) == Next(After(table, i), i)
    ensures Transform(table, values[..i + 1])
      == Transform(table, values[..i]) + [Mask(values[i], KeyByte(After(table, i), i))]
  {
    assert After(table, i + 1) == Next(After(table, i), i);
    hide Mask, Masked, Keystream, KeyByte, After;
    MaskedGrows(Mask, values, i, Keystream(table, i), KeyByte(After(table, i), i));
    KeystreamGrows(table, i);
  }

  /** The table that counts down, on which the walk is worked out by hand. */
  function Countdown(): (t: seq<U8>)
    ensures |t| == 256 && forall i | 0 <= i < 256 :: t[i] == 255 - i
  {
    seq(256, i requires 0 <= i < 256 => 255 - i)
  }

  /** The first step exchanges entry 1 with the entry that it names; every step exchanges one more pair. */
  function CountdownAfter(k: nat): seq<U8>
  {
    var t := Countdown()[1 := 1][254 := 254];
    if k == 0 then t
    else if k == 1 then Swap(t, 251, 2)
    else Swap(Swap(t, 251, 2), 247, 3)
  }

  lemma FirstKnownStep(w: Walk)
    requires w == Walk(Countdown(), 254, 0, 0)
    ensures KeyByte(w, 0) == 0 && Next(w, 0) == Walk(CountdownAfter(1), 251, 4, 253)
  {
  }

  lemma SecondKnownStep(w: Walk)
    requires w == Walk(CountdownAfter(1), 251, 4, 253)
    ensures Good(w) && KeyByte(w, 1) == 1 && Next(w, 1) == Walk(CountdownAfter(2), 247, 8, 252)
  {
  }

  lemma ThirdKnownStep(w: Walk)
    requires w == Walk(CountdownAfter(2), 247, 8, 252)
    ensures Good(w) && KeyByte(w, 2) == 251 && Next(w, 2).initial == 13 && Next(w, 2).valueE == 251
    ensures Next(w, 2).table[8] == 247
  {
  }

  /** The first bytes of the keystream of that table. */
  lemma KnownKeystream()
    ensures Keystream(Countdown(), 4) == [0, 1, 251, 247]
  {
    var t := Countdown();
    var w0, w1, w2, w3 := After(t, 0), After(t, 1), After(t, 2), After(t, 3);
    assert w1 == Next(w0, 0) && w2 == Next(w1, 1) && w3 == Next(w2, 2);
    assert w0 == Walk(t, 254, 0, 0);
    hide Countdown, CountdownAfter, After, Next, Swap, Touched;
    FirstKnownStep(w0);
    SecondKnownStep(w1);
    ThirdKnownStep(w2);
    FourthKnownByte(w3);
    assert Keystream(t, 1) == [0] && Keystream(t, 2) == [0, 1] && Keystream(t, 3) == [0, 1, 251];
  }

  lemma FourthKnownByte(w: Walk)
    requires Good(w) && w.initial == 13 && w.valueE == 251 && w.table[8] == 247
    ensures KeyByte(w, 3) == 247
  {
  }

  class CryptoUtility {
    var bigArray: array<U8>

    ghost predicate Valid()
      reads this
    {
      bigArray.Length == 256
    }

    constructor (table: seq<U8>)
      requires |table| == 256
      ensures Valid() && fresh(bigArray) && bigArray[..] == table
    {
      bigArray := new U8[256](i requires 0 <= i < 256 => table[i]);
    }

    /** What the loop does for one value: yields the key byte and moves on in the table. */
    method Advance(index: nat, indexB: nat, initial: U8, valueE: U8)
      returns (key: U8, indexB': nat, initial': U8, valueE': U8)
      requires Valid() && indexB < 256
      modifies bigArray
      ensures indexB' < 256
      ensures key == KeyByte(Walk(old(bigArray[..]), indexB, initial, valueE), index)
      ensures Walk(bigArray[..], indexB', initial', valueE')
        == Next(Walk(old(bigArray[..]), indexB, initial, valueE), index)
    {
      hide AddBytes, Swap;
      ghost var w := Walk(bigArray[..], indexB, initial, valueE);
      var sum: U8;
      if index == 0 {
        initial' := bigArray[indexB];
        sum := AddBytes(indexB, initial');
        bigArray[1] := initial';
        bigArray[indexB] := indexB;
      } else {
        sum := AddBytes(initial, valueE);
      }
      assert bigArray[..] == Touched(w, index).table;
      key := bigArray[sum];
      var nextIndex := (index + 2) % 256;
      valueE' := bigArray[nextIndex];
      indexB' := AddBytes(indexB, valueE');
      initial' := bigArray[indexB'];
      SwapEntries(bigArray, indexB', nextIndex);
    }

    method TransformBytes(values: seq<bv32>) returns (result: seq<bv32>)
      requires Valid()
      modifies bigArray
      ensures result == Transform(old(bigArray[..]), values)
      ensures bigArray[..] == After(old(bigArray[..]), |values|).table
      ensures SameBytes(bigArray[..], old(bigArray[..]))
    {
      ghost var table := bigArray[..];
      result := [];
      var indexB: nat := bigArray[1];
      var initial: U8, valueE: U8 := 0, 0;
      var index := 0;
      StartOfRun(table, values[..0]);
      hide Transform, Mask, KeyByte, Next, SameBytes, After;
      while index < |values|
        invariant 0 <= index <= |values| && indexB < 256
        invariant Walk(bigArray[..], indexB, initial, valueE) == After(table, index)
        invariant result == Transform(table, values[..index])
      {
        TransformGrows(table, values, index);
        var key: U8;
        key, indexB, initial, valueE := Advance(index, indexB, initial, valueE);
        result := result + [Mask(values[index], key)];
        index := index + 1;
      }
      assert values[..index] == values;
      TableIsConserved(table, |values|);
    }
  }

  // RC4, with a key of any length and with a key of one byte.

  datatype Rc4State = Rc4State(table: seq<U8>, i: U8, j: U8)

  predicate GoodRc4(r: Rc4State)
  {
    |r.table| == 256
  }

  /** The key is used over and over. */
  function KeyAt(key: seq<U8>, k: nat): U8
    requires |key| > 0
  {
    key[k % |key|]
  }

  /** One round of key scheduling. */
  function Round(r: Rc4State, k: nat, keyByte: U8): (n: Rc4State)
    requires GoodRc4(r) && k < 256
    ensures GoodRc4(n)
  {
    var j := AddBytes(AddBytes(r.j, r.table[k]), keyByte);
    Rc4State(Swap(r.table, k, j), 0, j)
  }

  /** Key scheduling after `k` of its 256 rounds. */
  function Schedule(key: seq<U8>, k: nat): (r: Rc4State)
    requires |key| > 0 && k <= 256
    ensures GoodRc4(r)
    decreases k
  {
    if k == 0 then Rc4State(Identity(256), 0, 0)
    else
      Round(Schedule(key, k - 1), k - 1, KeyAt(key, k - 1))
  }

  function NextRc4(r: Rc4State): (n: Rc4State)
    requires GoodRc4(r)
    ensures GoodRc4(n)
  {
    var i := AddBytes(r.i, 1);
    var j := AddBytes(r.j, r.table[i]);
    Rc4State(Swap(r.table, i, j), i, j)
  }

  function Rc4After(key: seq<U8>, n: nat): (r: Rc4State)
    requires |key| > 0
    ensures GoodRc4(r)
    decreases n
  {
    if n == 0 then Schedule(key, 256).(i := 0, j := 0) else NextRc4(Rc4After(key, n - 1))
  }

  function Rc4Byte(r: Rc4State): U8
    requires GoodRc4(r)
  {
    r.table[AddBytes(r.table[r.i], r.table[r.j])]
  }

  function Rc4Stream(key: seq<U8>, n: nat): (ks: seq<U8>)
    requires |key| > 0
    ensures |ks| == n
    decreases n
  {
    if n == 0 then [] else Rc4Stream(key, n - 1) + [Rc4Byte(Rc4After(key, n))]
  }

  /** The reference for both routines. */
  function Rc4(key: seq<U8>, data: seq<bv8>): (r: seq<bv8>)
    requires |key| > 0
    ensures |r| == |data|
  {
    Masked(MaskByte, data, Rc4Stream(key, |data|))
  }

  /** Main result: encrypting twice under one key gives the text back. */
  lemma Rc4IsInvolution(key: seq<U8>, data: seq<bv8>)
    requires |key| > 0
    ensures Rc4(key, Rc4(key, data)) == data
  {
    forall x, k ensures MaskByte(MaskByte(x, k), k) == x {
      MaskByteTwice(x, k);
    }
    hide MaskByte;
    MaskedTwice(MaskByte, data, Rc4Stream(key, |data|));
  }

  lemma {:induction false} ScheduleIsPermutation(key: seq<U8>, k: nat)
    requires |key| > 0 && k <= 256
    ensures IsPermutation(Schedule(key, k).table)
    decreases k
  {
    if k == 0 {
      IdentityIsPermutation();
    } else {
      ScheduleIsPermutation(key, k - 1);
      hide Swap, Wrap, AddBytes;
      var p := Schedule(key, k - 1);
      SwapConserves(p.table, k - 1, AddBytes(AddBytes(p.j, p.table[k - 1]), KeyAt(key, k - 1)));
    }
  }

  /** Main result: for every key and every length, the RC4 table holds every byte value exactly once. */
  lemma {:induction false} Rc4TableIsPermutation(key: seq<U8>, n: nat)
    requires |key| > 0
    ensures IsPermutation(Rc4After(key, n).table)
    decreases n
  {
    if n == 0 {
      ScheduleIsPermutation(key, 256);
    } else {
      Rc4TableIsPermutation(key, n - 1);
      hide Swap, Wrap, AddBytes;
      var r := Rc4After(key, n - 1);
      var i := AddBytes(r.i, 1);
      SwapConserves(r.table, i, AddBytes(r.j, r.table[i]));
    }
  }

  lemma RoundDeterminesKey(r: Rc4State, k: nat, a: U8, b: U8)
    requires GoodRc4(r) && k < 256 && Round(r, k, a).j == Round(r, k, b).j
    ensures a == b
  {
    var x := r.j + r.table[k];
    WrappingAdds(r.j, r.table[k], a);
    WrappingAdds(r.j, r.table[k], b);
    hide Swap, AddBytes;
    assert (x + a) % 256 == (x + b) % 256;
  }

  lemma ScheduleStep(key: seq<U8>, k: nat)
    requires k < |key| <= 256
    ensures Schedule(key, k + 1) == Round(Schedule(key, k), k, key[k])
  {
    OwnKeyByte(key, k);
    hide Round, KeyAt, Identity;
    assert Schedule(key, k + 1) == Round(Schedule(key, k), k, KeyAt(key, k));
  }

  lemma OwnKeyByte(key: seq<U8>, k: nat)
    requires k < |key|
    ensures KeyAt(key, k) == key[k]
  {
    assert k / |key| == 0 && k % |key| == k;
  }

  /** Main result: the key schedule depends on every byte of the key: equal schedules come from equal keys only. */
  lemma ScheduleDeterminesKey(a: seq<U8>, b: seq<U8>)
    requires 0 < |a| == |b| <= 256
    requires forall k | 0 <= k <= 256 :: Schedule(a, k) == Schedule(b, k)
    ensures a == b
  {
    hide *;
    forall k | 0 <= k < |a| ensures a[k] == b[k] {
      ScheduleStep(a, k);
      ScheduleStep(b, k);
      RoundDeterminesKey(Schedule(a, k), k, a[k], b[k]);
    }
  }

  lemma Rc4Grows(key: seq<U8>, data: seq<bv8>, i: nat)
    requires |key| > 0 && i < |data|
    ensures Rc4(key, data[..i + 1]) == Rc4(key, data[..i]) + [MaskByte(data[i], Rc4Byte(Rc4After(key, i + 1)))]
  {
    hide MaskByte, Masked, Rc4Byte, Rc4After;
    MaskedGrows(MaskByte, data, i, Rc4Stream(key, i), Rc4Byte(Rc4After(key, i + 1)));
  }

  lemma NoData(key: seq<U8>, data: seq<bv8>)
    requires |key| > 0 && data == []
    ensures Rc4(key, data) == []
  {
  }

  lemma WrappingAdds(a: U8, b: U8, c: U8)
    ensures AddBytes(AddBytes(a, b), c) == Wrap(a + b + c)
  {
  }

  lemma WrapIsAdd(a: U8, b: U8)
    ensures Wrap(a as int + b as int) == AddBytes(a, b)
  {
  }

  lemma {:induction false} IdentityIsIndex(n: nat, t: seq<U8>)
    requires n <= 256 && |t| == n && forall i | 0 <= i < n :: t[i] == i
    ensures t == Identity(n)
  {
    if n > 0 {
      IdentityIsIndex(n - 1, t[..n - 1]);
    }
  }

  method IdentityTable() returns (s: array<U8>)
    ensures fresh(s) && s.Length == 256 && s[..] == Identity(256)
  {
    s := new U8[256](i requires 0 <= i < 256 => i);
    IdentityIsIndex(256, s[..]);
  }

  // The loops of abogus.rs, with wrapping byte additions and the key repeated.

  method WrappingRound(s: array<U8>, n: nat, j: U8, keyByte: U8) returns (next: U8)
    requires s.Length == 256 && n < 256
    modifies s
    ensures Rc4State(s[..], 0, next) == Round(Rc4State(old(s[..]), 0, j), n, keyByte)
  {
    hide AddBytes, Swap;
    next := AddBytes(AddBytes(j, s[n]), keyByte);
    SwapEntries(s, n, next);
  }

  method WrappingByte(s: array<U8>, i: U8, j: U8) returns (i': U8, j': U8, k: U8)
    requires s.Length == 256
    modifies s
    ensures Rc4State(s[..], i', j') == NextRc4(Rc4State(old(s[..]), i, j))
    ensures k == Rc4Byte(Rc4State(s[..], i', j'))
  {
    hide AddBytes, Swap;
    i' := AddBytes(i, 1);
    j' := AddBytes(j, s[i']);
    SwapEntries(s, i', j');
    k := s[AddBytes(s[i'], s[j'])];
  }

  /** The routine of abogus.rs; like the original it must not be called with an empty key. */
  method Rc4Encrypt(key: seq<U8>, plaintext: seq<bv8>) returns (ciphertext: seq<bv8>)
    requires |key| > 0
    ensures ciphertext == Rc4(key, plaintext)
  {
    hide KeyAt, Round, Identity, NextRc4, Rc4Byte, Rc4, MaskByte;
    var s := IdentityTable();
    var j: U8 := 0;
    var n := 0;
    while n < 256
      invariant 0 <= n <= 256
      invariant Rc4State(s[..], 0, j) == Schedule(key, n)
    {
      j := WrappingRound(s, n, j, KeyAt(key, n));
      n := n + 1;
    }
    var i: U8 := 0;
    j := 0;
    ciphertext := [];
    n := 0;
    NoData(key, plaintext[..0]);
    while n < |plaintext|
      invariant 0 <= n <= |plaintext|
      invariant Rc4State(s[..], i, j) == Rc4After(key, n)
      invariant ciphertext == Rc4(key, plaintext[..n])
    {
      Rc4Grows(key, plaintext, n);
      var k: U8;
      i, j, k := WrappingByte(s, i, j);
      ciphertext := ciphertext + [MaskByte(plaintext[n], k)];
      n := n + 1;
    }
    assert plaintext[..n] == plaintext;
  }

  // The loops of signature.rs, with plain additions and remainders and a key of one byte.

  lemma OneByteKey(key: U8, k: nat)
    ensures KeyAt([key], k) == key
  {
  }

  method RemainderRound(s: array<U8>, n: nat, j: U8, key: U8) returns (next: U8)
    requires s.Length == 256 && n < 256
    modifies s
    ensures Rc4State(s[..], 0, next) == Round(Rc4State(old(s[..]), 0, j), n, key)
  {
    WrappingAdds(j, s[n], key);
    hide AddBytes, Wrap, Swap;
    next := Wrap(j + s[n] + key);
    SwapEntries(s, n, next);
  }

  method RemainderByte(s: array<U8>, i: U8, j: U8) returns (i': U8, j': U8, k: U8)
    requires s.Length == 256
    modifies s
    ensures Rc4State(s[..], i', j') == NextRc4(Rc4State(old(s[..]), i, j))
    ensures k == Rc4Byte(Rc4State(s[..], i', j'))
  {
    hide AddBytes, Wrap, Swap;
    WrapIsAdd(i, 1);
    i' := Wrap(i + 1);
    WrapIsAdd(j, s[i']);
    j' := Wrap(j as int + s[i'] as int);
    SwapEntries(s, i', j');
    WrapIsAdd(s[i'], s[j']);
    k := s[Wrap(s[i'] as int + s[j'] as int)];
  }

  /** The routine of signature.rs: the same cipher under the one-byte key, in place. */
  method Rc4EncryptInPlace(key: U8, data: array<bv8>)
    modifies data
    ensures data[..] == Rc4([key], old(data[..]))
  {
    hide KeyAt, Round, Identity, NextRc4, Rc4Byte, Rc4, MaskByte;
    ghost var text := data[..];
    var s := IdentityTable();
    var j: U8 := 0;
    var n := 0;
    while n < 256
      invariant 0 <= n <= 256 && data[..] == text
      invariant Rc4State(s[..], 0, j) == Schedule([key], n)
    {
      OneByteKey(key, n);
      j := RemainderRound(s, n, j, key);
      n := n + 1;
    }
    var i: U8 := 0;
    j := 0;
    n := 0;
    NoData([key], text[..0]);
    while n < data.Length
      invariant 0 <= n <= data.Length
      invariant Rc4State(s[..], i, j) == Rc4After([key], n)
      invariant data[..n] == Rc4([key], text[..n]) && data[n..] == text[n..]
    {
      Rc4Grows([key], text, n);
      var k: U8;
      i, j, k := RemainderByte(s, i, j);
      ghost var done := data[..n];
      assert data[n] == data[n..][0] == text[n];
      data[n] := MaskByte(data[n], k);
      assert data[..n + 1] == done + [data[n]];
      n := n + 1;
    }
    assert text[..n] == text && data[..n] == data[..];
  }
}
