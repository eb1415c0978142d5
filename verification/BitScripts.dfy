/** Scripts of bit-level writes, and what reading them back gives (bit_write.rs, bit_read.rs). */
module BitScripts {
  import opened ByteStrings
  import opened Bits
  import opened BitWriters
  import opened BitReaders

  datatype Op =
    | PutBit(bit: bool)
    | PutBits(value: U64, count: U8)
    | PutBytes(bytes: Bytes)
    | PutAlign

  datatype Answer = GotBit(bit: bool) | GotNumber(n: nat) | GotBytes(bytes: Bytes) | GotNothing

  /** A field is refused when its value needs more bits than it has. */
  predicate Accepted(value: U64, count: U8)
  {
    value < Pow2(Min(count, 64))
  }

  /** The bits that an operation adds when `at` bits have been written. */
  function OpBits(at: nat, op: Op): seq<bool>
  {
    match op
    case PutBit(bit) => [bit]
    case PutBits(value, count) => if Accepted(value, count) then ToBits(value, Min(count, 64)) else []
    case PutBytes(bytes) => BitsOf(bytes)
    case PutAlign => Zeros(Padding(at))
  }

  function ScriptBits(ops: seq<Op>): seq<bool>
  {
    if ops == [] then []
    else
      var before := ScriptBits(ops[..|ops| - 1]);
      before + OpBits(|before|, ops[|ops| - 1])
  }

  /** What the matching read should return; a refused field was never written and is not read. */
  function Expected(op: Op): Answer
  {
    match op
    case PutBit(bit) => GotBit(bit)
    case PutBits(value, count) => if Accepted(value, count) then GotNumber(value) else GotNothing
    case PutBytes(bytes) => GotBytes(bytes)
    case PutAlign => GotNothing
  }

  lemma ScriptStep(ops: seq<Op>, i: nat)
    requires i < |ops|
    ensures ScriptBits(ops[..i + 1]) == ScriptBits(ops[..i]) + OpBits(|ScriptBits(ops[..i])|, ops[i])
  {
    assert ops[..i + 1][..i] == ops[..i];
  }

  lemma {:induction false} ScriptPrefix(ops: seq<Op>, i: nat)
    requires i <= |ops|
    ensures ScriptBits(ops[..i]) <= ScriptBits(ops)
    decreases |ops| - i
  {
    if i == |ops| {
      assert ops[..i] == ops;
    } else {
      ScriptStep(ops, i);
      ScriptPrefix(ops, i + 1);
    }
  }

  method WriteOp(w: BitWriter, op: Op)
    requires w.Valid()
    modifies w
    ensures w.Valid() && w.Written() == old(w.Written()) + OpBits(|old(w.Written())|, op)
  {
    match op
    case PutBit(bit) => w.WriteBit(bit);
    case PutBits(value, count) =>
      var ok := w.WriteBits(value, count);
      assert old(w.Written()) + [] == old(w.Written());
    case PutBytes(bytes) => w.WriteBytes(bytes);
    case PutAlign => w.Align();
  }

  method WriteScript(ops: seq<Op>) returns (out: Bytes)
    ensures BitsOf(out) == ScriptBits(ops) + Zeros(Padding(|ScriptBits(ops)|))
  {
    hide OpBits, Zeros, BitWriter.Valid, BitWriter.Written;
    var w := new BitWriter([]);
    assert BitsOf([]) == [];
    var i := 0;
    while i < |ops|
      invariant 0 <= i <= |ops| && fresh(w) && w.Valid()
      invariant w.Written() == ScriptBits(ops[..i])
    {
      ScriptStep(ops, i);
      WriteOp(w, ops[i]);
      i := i + 1;
    }
    assert ops[..i] == ops;
    out := w.Finish();
  }

  function Then<T, U>(r: IoResult<T>, f: T -> U): IoResult<U>
  {
    match r
    case Good(v) => Good(f(v))
    case Bad(e) => Bad(e)
  }

  /** The bits still ahead of a reader begin with the given ones. */
  ghost predicate Comes(r: BitReader, piece: seq<bool>)
    reads r
    requires r.Valid()
  {
    piece <= r.Ahead()
  }

  /** One read against the bits that the matching write left in the stream. */
  method ReadOp(r: BitReader, op: Op) returns (answer: IoResult<Answer>)
    requires r.Valid() && r.Position() >= 0
    requires Comes(r, OpBits(r.Position(), op))
    modifies r
    ensures r.Valid() && answer == Good(Expected(op))
    ensures var at := old(r.Position());
      old(r.Ahead()) == OpBits(at, op) + r.Ahead() && r.Position() == at + |OpBits(at, op)|
  {
    hide BitsOf, ToBits, Zeros, Coming, Pow2, Padding;
    match op
    case PutBit(bit) =>
      ghost var ahead := r.Ahead();
      var b := r.ReadBit();
      assert ahead[0] == bit;
      answer := Then(b, v => GotBit(v));
    case PutBits(value, count) =>
      if Accepted(value, count) {
        answer := ReadField(r, value, count);
      } else {
        answer := Good(GotNothing);
      }
    case PutBytes(bytes) => answer := ReadBack(r, bytes);
    case PutAlign => answer := SkipPadding(r);
  }

  lemma SplitPrefix(piece: seq<bool>, ahead: seq<bool>)
    requires piece <= ahead
    ensures ahead[..|piece|] == piece && ahead == piece + ahead[|piece|..]
  {
  }

  method ReadField(r: BitReader, value: U64, count: U8) returns (answer: IoResult<Answer>)
    requires r.Valid() && Accepted(value, count) && Comes(r, ToBits(value, Min(count, 64)))
    modifies r
    ensures r.Valid() && answer == Good(GotNumber(value))
    ensures var field := ToBits(value, Min(count, 64));
      old(r.Ahead()) == field + r.Ahead() && r.Position() == old(r.Position()) + |field|
  {
    ToBitsValue(value, Min(count, 64));
    hide BitsOf, Value, ToBits, Pow2, Coming, Min;
    SplitPrefix(ToBits(value, Min(count, 64)), r.Ahead());
    var n := r.ReadBits(count);
    answer := Then(n, v => GotNumber(v));
  }

  method SkipPadding(r: BitReader) returns (answer: IoResult<Answer>)
    requires r.Valid() && r.Position() >= 0 && Comes(r, Zeros(Padding(r.Position())))
    modifies r
    ensures r.Valid() && answer == Good(GotNothing)
    ensures var padding := Zeros(Padding(old(r.Position())));
      old(r.Ahead()) == padding + r.Ahead() && r.Position() == old(r.Position()) + |padding|
  {
    hide Coming;
    assert Padding(r.Position()) == (8 - r.bitPos) % 8;
    r.Align();
    answer := Good(GotNothing);
  }

  method ReadBack(r: BitReader, bytes: Bytes) returns (answer: IoResult<Answer>)
    requires r.Valid() && Comes(r, BitsOf(bytes))
    modifies r
    ensures r.Valid() && answer == Good(GotBytes(bytes))
    ensures old(r.Ahead()) == BitsOf(bytes) + r.Ahead() && r.Position() == old(r.Position()) + 8 * |bytes|
  {
    hide BitsOf, Coming;
    ghost var ahead := r.Ahead();
    var bs := r.ReadBytes(|bytes|);
    assert BitsOf(bs.value) == ahead[..8 * |bytes|] == BitsOf(bytes);
    BitsOfInjective(bs.value, bytes);
    answer := Then(bs, v => GotBytes(v));
  }

  method ReadScript(data: Bytes, ops: seq<Op>) returns (answers: seq<Answer>)
    requires ScriptBits(ops) <= BitsOf(data)
    ensures |answers| == |ops| && forall i | 0 <= i < |ops| :: answers[i] == Expected(ops[i])
  {
    hide OpBits, BitsOf, Coming, BitReader.Position;
    var r := new BitReader(data);
    answers := [];
    assert ScriptBits(ops[..0]) == [] && [] + BitsOf(data) == BitsOf(data);
    while |answers| < |ops|
      invariant |answers| <= |ops| && fresh(r) && r.Valid()
      invariant BitsOf(data) == ScriptBits(ops[..|answers|]) + r.Ahead()
      invariant r.Position() == |ScriptBits(ops[..|answers|])|
      invariant forall i | 0 <= i < |answers| :: answers[i] == Expected(ops[i])
    {
      var i := |answers|;
      ghost var done, ahead := ScriptBits(ops[..i]), r.Ahead();
      PieceComes(BitsOf(data), ops, i, ahead);
      var answer := ReadOp(r, ops[i]);
      Regroup(done, OpBits(|done|, ops[i]), r.Ahead());
      answers := answers + [answer.value];
    }
  }

  lemma PieceComes(stream: seq<bool>, ops: seq<Op>, i: nat, ahead: seq<bool>)
    requires i < |ops| && ScriptBits(ops) <= stream && stream == ScriptBits(ops[..i]) + ahead
    ensures var done := ScriptBits(ops[..i]);
      OpBits(|done|, ops[i]) <= ahead && ScriptBits(ops[..i + 1]) == done + OpBits(|done|, ops[i])
  {
    ScriptStep(ops, i);
    ScriptPrefix(ops, i + 1);
    var done, next := ScriptBits(ops[..i]), ScriptBits(ops[..i + 1]);
    assert stream[..|next|] == next;
    assert ahead[..|next| - |done|] == stream[|done|..|next|];
    hide ScriptBits, OpBits;
  }

  /**
   * Main result: whatever mix of bits, fields, aligned or unaligned bytes and alignments is written, `finish`
   * packs it with zero padding, and the same mix of reads returns what was written.
   */
  method ScriptRoundTrip(ops: seq<Op>) returns (out: Bytes, answers: seq<Answer>)
    ensures BitsOf(out) == ScriptBits(ops) + Zeros(Padding(|ScriptBits(ops)|))
    ensures |answers| == |ops| && forall i | 0 <= i < |ops| :: answers[i] == Expected(ops[i])
  {
    out := WriteScript(ops);
    answers := ReadScript(out, ops);
  }
}
