/** NAL emulation prevention bytes (nal_emulation_prevention.rs; section 7.4.1.1 of ISO/IEC 14496-10). */
module EmulationPrevention {
  import opened ByteStrings

  function ZerosAfter(zeros: nat, b: U8): nat
  {
    if b == 0 then zeros + 1 else 0
  }

  /** What writing `payload` emits when the last `zeros` bytes emitted were zeros. */
  function Escape(zeros: nat, payload: Bytes): Bytes
    decreases payload
  {
    if payload == [] then []
    else
      var b := payload[0];
      if zeros >= 2 && b <= 3 then [3, b] + Escape(ZerosAfter(0, b), payload[1..])
      else [b] + Escape(ZerosAfter(zeros, b), payload[1..])
  }

  /** The zero count that writing `payload` leaves behind. */
  function CountAfter(zeros: nat, payload: Bytes): nat
    decreases payload
  {
    if payload == [] then zeros
    else CountAfter(ZerosAfter(if zeros >= 2 && payload[0] <= 3 then 0 else zeros, payload[0]), payload[1..])
  }

  /** The reader's zero count is a byte, which wraps. */
  function BumpU8(zeros: nat): nat
  {
    (zeros + 1) % 256
  }

  /** Everything that reading `data` to its end yields. */
  function Unescape(zeros: nat, data: Bytes): Bytes
    decreases data
  {
    if data == [] then []
    else if data[0] == 3 && zeros >= 2 then Unescape(0, data[1..])
    else [data[0]] + Unescape(if data[0] == 0 then BumpU8(zeros) else 0, data[1..])
  }

  lemma {:induction false} CountStaysSmall(zeros: nat, payload: Bytes)
    requires zeros <= 2
    ensures CountAfter(zeros, payload) <= 2
    decreases payload
  {
    if payload != [] {
      CountStaysSmall(ZerosAfter(if zeros >= 2 && payload[0] <= 3 then 0 else zeros, payload[0]), payload[1..]);
    }
  }

  /** How the payload is cut into writes does not show in the output. */
  lemma {:induction false} EscapeSplits(zeros: nat, a: Bytes, b: Bytes)
    ensures Escape(zeros, a + b) == Escape(zeros, a) + Escape(CountAfter(zeros, a), b)
    ensures CountAfter(zeros, a + b) == CountAfter(CountAfter(zeros, a), b)
    decreases a
  {
    if a == [] {
      assert a + b == b;
    } else {
      assert (a + b)[1..] == a[1..] + b && (a + b)[0] == a[0];
      EscapeSplits(ZerosAfter(if zeros >= 2 && a[0] <= 3 then 0 else zeros, a[0]), a[1..], b);
    }
  }

  /** Main result: reading what was written returns the payload. */
  lemma {:induction false} RoundTrip(zeros: nat, payload: Bytes)
    requires zeros <= 2
    ensures Unescape(zeros, Escape(zeros, payload)) == payload
    decreases payload
  {
    if payload != [] {
      var b, out := payload[0], Escape(zeros, payload);
      if zeros >= 2 && b <= 3 {
        var tail := Escape(ZerosAfter(0, b), payload[1..]);
        RoundTrip(ZerosAfter(0, b), payload[1..]);
        assert out[1..] == [b] + tail && ([b] + tail)[1..] == tail;
      } else {
        var tail := Escape(ZerosAfter(zeros, b), payload[1..]);
        RoundTrip(ZerosAfter(zeros, b), payload[1..]);
        assert out[1..] == tail;
      }
    }
  }

  /**
   * No start code and no ambiguity: after two zeros there is never a 0, 1 or 2, and a 3 only in front of a byte
   * that is at most 3.
   */
  predicate Safe(out: Bytes)
  {
    forall i {:trigger SafeAt(out, i)} | 0 <= i < |out| :: SafeAt(out, i)
  }

  predicate SafeAt(out: Bytes, i: nat)
    requires i < |out|
  {
    i + 2 < |out| && out[i] == 0 && out[i + 1] == 0 ==>
      out[i + 2] > 3 || (out[i + 2] == 3 && i + 3 < |out| && out[i + 3] <= 3)
  }

  lemma SafeCons(x: U8, s: Bytes)
    requires Safe(s)
    requires SafeAt([x] + s, 0)
    ensures Safe([x] + s)
  {
    forall i | 0 <= i < |s| + 1 ensures SafeAt([x] + s, i) {
      if i > 0 {
        assert SafeAt(s, i - 1);
      }
    }
  }

  function Zeros(n: nat): (z: Bytes)
    ensures |z| == n && forall i | 0 <= i < n :: z[i] == 0
  {
    seq(n, i => 0)
  }

  /** Main result: the output is safe, also together with the zeros written just before. */
  lemma {:induction false} OutputIsSafe(zeros: nat, payload: Bytes)
    requires zeros <= 2
    ensures Safe(Zeros(zeros) + Escape(zeros, payload))
    decreases payload
  {
    if payload == [] {
      assert Escape(zeros, payload) == [];
    } else {
      var b := payload[0];
      if zeros >= 2 && b <= 3 {
        OutputIsSafe(ZerosAfter(0, b), payload[1..]);
        PreventedIsSafe(b, Escape(ZerosAfter(0, b), payload[1..]));
      } else {
        OutputIsSafe(ZerosAfter(zeros, b), payload[1..]);
        PlainIsSafe(zeros, b, Escape(ZerosAfter(zeros, b), payload[1..]));
      }
    }
  }

  lemma PreventedIsSafe(b: U8, tail: Bytes)
    requires b <= 3 && Safe(Zeros(ZerosAfter(0, b)) + tail)
    ensures Safe(Zeros(2) + ([3, b] + tail))
  {
    FirstByteIsSafe(0, b, tail);
    SafeCons(3, [b] + tail);
    SafeCons(0, [3] + ([b] + tail));
    SafeCons(0, [0] + ([3] + ([b] + tail)));
    assert Zeros(2) + ([3, b] + tail) == [0] + ([0] + ([3] + ([b] + tail)));
  }

  lemma PlainIsSafe(zeros: nat, b: U8, tail: Bytes)
    requires zeros <= 2 && !(zeros >= 2 && b <= 3) && Safe(Zeros(ZerosAfter(zeros, b)) + tail)
    ensures Safe(Zeros(zeros) + ([b] + tail))
  {
    if b == 0 {
      assert Zeros(zeros) + ([0] + tail) == Zeros(zeros + 1) + tail;
    } else {
      FirstByteIsSafe(zeros, b, tail);
      assert Zeros(0) + ([b] + tail) == [b] + tail;
      if zeros >= 1 {
        SafeCons(0, [b] + tail);
        assert [0] + ([b] + tail) == Zeros(1) + ([b] + tail);
      }
      if zeros == 2 {
        SafeCons(0, [0] + ([b] + tail));
        assert [0] + ([0] + ([b] + tail)) == Zeros(2) + ([b] + tail);
      }
    }
  }

  lemma FirstByteIsSafe(zeros: nat, b: U8, tail: Bytes)
    requires Safe(Zeros(ZerosAfter(zeros, b)) + tail) && (b == 0 ==> zeros == 0)
    ensures Safe([b] + tail)
  {
    if b == 0 {
      assert Zeros(1) + tail == [b] + tail;
    } else {
      assert Zeros(0) + tail == tail;
      SafeCons(b, tail);
    }
  }

  lemma WholeOutputIsSafe(payload: Bytes)
    ensures Safe(Escape(0, payload))
  {
    OutputIsSafe(0, payload);
    assert Zeros(0) + Escape(0, payload) == Escape(0, payload);
  }

  /**
   * The last byte is the payload's own, so the output ends in a zero exactly when the payload does; the standard asks
   * for a further 3 in that case.
   */
  lemma {:induction false} LastByteStays(zeros: nat, payload: Bytes)
    requires payload != []
    ensures var out := Escape(zeros, payload); out != [] && out[|out| - 1] == payload[|payload| - 1]
    decreases payload
  {
    if |payload| > 1 {
      LastByteStays(ZerosAfter(if zeros >= 2 && payload[0] <= 3 then 0 else zeros, payload[0]), payload[1..]);
    }
  }

  /** Main result: `n` bytes of payload gain at most `(n - 1) / 2` bytes. */
  lemma {:induction false} OverheadBound(zeros: nat, payload: Bytes)
    requires zeros <= 2 && payload != []
    ensures 2 * (|Escape(zeros, payload)| - |payload|) <= |payload| + zeros - 1
    decreases payload
  {
    var b, rest := payload[0], payload[1..];
    var next := ZerosAfter(if zeros >= 2 && b <= 3 then 0 else zeros, b);
    if rest != [] {
      OverheadBound(next, rest);
    }
  }

  /** The bound is reached: a payload of `n` zeros gains exactly that much. */
  lemma {:induction false} ZerosReachTheBound(zeros: nat, n: nat)
    requires zeros <= 2 && zeros + n >= 1
    ensures |Escape(zeros, Zeros(n))| == n + if n == 0 then 0 else (zeros + n - 1) / 2
    decreases n
  {
    if n > 0 {
      assert Zeros(n)[1..] == Zeros(n - 1);
      ZerosReachTheBound(if zeros >= 2 then 1 else zeros + 1, n - 1);
    }
  }

  class EscapingWriter {
    var inner: Bytes
    var zeroCount: nat

    ghost predicate Valid()
      reads this
    {
      zeroCount <= 2
    }

    constructor ()
      ensures Valid() && inner == [] && zeroCount == 0
    {
      inner, zeroCount := [], 0;
    }

    method Write(buf: Bytes) returns (n: nat)
      requires Valid()
      modifies this
      ensures Valid() && n == |buf|
      ensures inner == old(inner) + Escape(old(zeroCount), buf)
      ensures zeroCount == CountAfter(old(zeroCount), buf)
    {
      CountStaysSmall(zeroCount, buf);
      var i := 0;
      while i < |buf|
        invariant 0 <= i <= |buf|
        invariant inner + Escape(zeroCount, buf[i..]) == old(inner) + Escape(old(zeroCount), buf)
        invariant CountAfter(zeroCount, buf[i..]) == CountAfter(old(zeroCount), buf)
      {
        ghost var before, zeros := inner, zeroCount;
        var byte := buf[i];
        assert buf[i..][0] == byte && buf[i..][1..] == buf[i + 1..];
        if zeroCount >= 2 && byte <= 3 {
          inner := inner + [3];
          zeroCount := 0;
        }
        inner := inner + [byte];
        if byte == 0 {
          zeroCount := zeroCount + 1;
        } else {
          zeroCount := 0;
        }
        assert inner + Escape(zeroCount, buf[i + 1..]) == before + Escape(zeros, buf[i..]);
        i := i + 1;
      }
      assert buf[i..] == [];
      assert inner + [] == inner;
      n := |buf|;
    }
  }

  class UnescapingReader {
    var inner: Bytes
    var zeroCount: nat

    constructor (inner: Bytes)
      ensures this.inner == inner && zeroCount == 0
    {
      this.inner, zeroCount := inner, 0;
    }

    /** What is still to come. */
    ghost function Pending(): Bytes
      reads this
    {
      Unescape(zeroCount, inner)
    }

    /** Fills a buffer of `len` bytes as far as the data go. */
    method Read(len: nat) returns (out: Bytes)
      modifies this
      ensures out + Pending() == old(Pending())
      ensures |out| <= len && (|out| < len ==> Pending() == [])
    {
      out := [];
      while |out| < len
        invariant |out| <= len && out + Pending() == old(Pending())
        decreases |inner|
      {
        if inner == [] {
          return;
        }
        ghost var before := out;
        var byte := inner[0];
        inner := inner[1..];
        if byte == 3 && zeroCount >= 2 {
          zeroCount := 0;
          continue;
        } else if byte == 0 {
          zeroCount := BumpU8(zeroCount);
        } else {
          zeroCount := 0;
        }
        out := out + [byte];
        assert out + Pending() == before + ([byte] + Pending());
      }
    }
  }

  /**
   * Main result: for every payload, every way of cutting it into writes and every way of cutting the reads,
   * the bytes read are the payload, as far as the reads reach.
   */
  method StreamRoundTrip(writes: seq<Bytes>, sizes: seq<nat>) returns (output: Bytes, input: seq<Bytes>)
    ensures output == Escape(0, Flatten(writes)) && Safe(output)
    ensures |input| == |sizes| && forall i | 0 <= i < |sizes| :: |input[i]| <= sizes[i]
    ensures Flatten(input) <= Flatten(writes)
    ensures (exists i :: 0 <= i < |sizes| && |input[i]| < sizes[i]) ==> Flatten(input) == Flatten(writes)
  {
    hide Escape, Unescape;
    var w := new EscapingWriter();
    var i := 0;
    assert Escape(0, []) == [] && CountAfter(0, []) == 0 by { EscapeNothing(); }
    while i < |writes|
      invariant 0 <= i <= |writes| && fresh(w) && w.Valid()
      invariant w.inner == Escape(0, Flatten(writes[..i])) && w.zeroCount == CountAfter(0, Flatten(writes[..i]))
    {
      assert writes[..i + 1] == writes[..i] + [writes[i]];
      FlattenAppend(writes[..i], writes[i]);
      EscapeSplits(0, Flatten(writes[..i]), writes[i]);
      var _ := w.Write(writes[i]);
      i := i + 1;
    }
    assert writes[..i] == writes;
    output := w.inner;
    ghost var payload := Flatten(writes);
    WholeOutputIsSafe(payload);
    RoundTrip(0, payload);
    var r := new UnescapingReader(output);
    input := [];
    while |input| < |sizes|
      invariant |input| <= |sizes| && fresh(r)
      invariant Flatten(input) + r.Pending() == payload
      invariant forall k | 0 <= k < |input| :: |input[k]| <= sizes[k]
      invariant (exists k :: 0 <= k < |input| && |input[k]| < sizes[k]) ==> r.Pending() == []
    {
      ghost var before := Flatten(input);
      var part := r.Read(sizes[|input|]);
      FlattenAppend(input, part);
      Regroup(before, part, r.Pending());
      input := input + [part];
    }
  }

  lemma EscapeNothing()
    ensures Escape(0, []) == [] && CountAfter(0, []) == 0
  {
  }
}
