/** Length-framed message streams: how frames are cut out of a buffer that grows in arbitrary chunks (codec.rs). */
module TarsStream {
  import opened ByteStrings
  import opened TarsTypes
  import opened TarsMessages

  /** Four bytes of total length (their own four included), then the message. */
  function FrameOf(m: Message): (f: Bytes)
  {
    BigEndian(4 + |MessageBytes(m)|, 4) + MessageBytes(m)
  }

  /** The first four bytes of a frame, most significant first, are its whole length. */
  lemma FrameLayout(m: Message)
    requires 4 + |MessageBytes(m)| < 0x1_0000_0000
    ensures var f := FrameOf(m);
      && |f| == 4 + |MessageBytes(m)| && f[4..] == MessageBytes(m)
      && f[0] as int * 0x100_0000 + f[1] as int * 0x1_0000 + f[2] as int * 0x100 + f[3] as int == |f|
  {
    var n := 4 + |MessageBytes(m)|;
    hide MessageBytes;
    FourBytes(n);
  }

  lemma FourBytes(n: nat)
    requires n < 0x1_0000_0000
    ensures var b := BigEndian(n, 4);
      |b| == 4 && b[0] as int * 0x100_0000 + b[1] as int * 0x1_0000 + b[2] as int * 0x100 + b[3] as int == n
  {
    var k := n / 256;
    var l := k / 256;
    var h := l / 256;
    assert BigEndian(h, 1) == BigEndian(h / 256, 0) + [h % 256];
    assert BigEndian(l, 2) == BigEndian(h, 1) + [l % 256];
    assert BigEndian(k, 3) == BigEndian(l, 2) + [k % 256];
    assert BigEndian(n, 4) == BigEndian(k, 3) + [n % 256];
  }

  function Frames(ms: seq<Message>): Bytes
  {
    if ms == [] then [] else FrameOf(ms[0]) + Frames(ms[1..])
  }

  datatype Step = NeedMore | Cut(result: Result<Message>, rest: Bytes)

  /** One call of `decode`. A frame whose length does not even cover the length field panics. */
  function DecodeStep(src: Bytes): (s: Step)
    ensures s.Cut? ==> |s.rest| <= |src| && (!s.result.Panic? ==> |s.rest| < |src|)
  {
    if |src| < 4 then NeedMore
    else
      var len := FromBigEndian(src[..4]);
      if |src| < len then NeedMore
      else if len < 4 then Cut(Panic, src[len..])
      else Cut(ReadMessage(src[4..len], false), src[len..])
  }

  function BigEndianSum(a: U8, b: U8, c: U8, d: U8): nat
  {
    a as int * 0x100_0000 + b as int * 0x1_0000 + c as int * 0x100 + d as int
  }

  lemma FromFourBytes(b: Bytes)
    requires |b| == 4
    ensures FromBigEndian(b) == BigEndianSum(b[0], b[1], b[2], b[3])
  {
    assert b[..3][..2] == b[..2] && b[..2][..1] == b[..1] && b[..1][..0] == [];
    assert FromBigEndian(b[..1]) == 256 * FromBigEndian([]) + b[0];
    assert FromBigEndian(b[..2]) == 256 * FromBigEndian(b[..1]) + b[1];
    assert FromBigEndian(b[..3]) == 256 * FromBigEndian(b[..2]) + b[2];
  }

  /**
   * `decode` waits exactly until the announced number of bytes is there; a number below 4 makes it panic; otherwise
   * it cuts off that many bytes.
   */
  lemma DecodeWaitsIff(src: Bytes)
    ensures DecodeStep(src).NeedMore? <==> |src| < 4 || |src| < BigEndianSum(src[0], src[1], src[2], src[3])
    ensures |src| >= 4 && DecodeStep(src).Cut? ==>
      var len := BigEndianSum(src[0], src[1], src[2], src[3]);
      && DecodeStep(src).rest == src[len..]
      && (len < 4 ==> DecodeStep(src).result.Panic?)
      && (len >= 4 ==> DecodeStep(src).result == ReadMessage(src[4..len], false))
  {
    if |src| >= 4 {
      FromFourBytes(src[..4]);
    }
    hide FromBigEndian, ReadMessage;
  }

  /** The response decoders refuse everything that is not exactly as long as its first four bytes say. */
  lemma ResponseNeedsItsLength(bs: Bytes, zeroCopy: bool)
    ensures |bs| < 4 || BigEndianSum(bs[0], bs[1], bs[2], bs[3]) != |bs| ==>
      DecodeResponse(bs, zeroCopy) == Err(Unknown)
    ensures |bs| >= 4 && BigEndianSum(bs[0], bs[1], bs[2], bs[3]) == |bs| ==>
      DecodeResponse(bs, zeroCopy) == ReadMessage(bs[4..], zeroCopy)
  {
    if |bs| >= 4 {
      FromFourBytes(bs[..4]);
    }
    hide FromBigEndian, ReadMessage;
  }

  /** The results that came out of a buffer, and the bytes that stay in it. */
  datatype Stream = Stream(results: seq<Result<Message>>, rest: Bytes)
  {
    predicate Dead()
    {
      results != [] && results[|results| - 1].Panic?
    }

    function Then(next: Stream): Stream
    {
      Stream(results + next.results, next.rest)
    }
  }

  /** `decode` called until it wants more bytes; a panic ends the stream. */
  function Drain(src: Bytes): Stream
    decreases |src|
  {
    match DecodeStep(src)
    case NeedMore => Stream([], src)
    case Cut(result, rest) =>
      if result.Panic? then Stream([result], rest)
      else Stream([result], rest).Then(Drain(rest))
  }

  /** Chunks arrive one after the other, and after each the buffer is drained. */
  function Feed(src: Bytes, chunks: seq<Bytes>): Stream
    decreases |chunks|
  {
    if chunks == [] then Stream([], src)
    else
      var d := Drain(src + chunks[0]);
      if d.Dead() then d
      else d.Then(Feed(d.rest, chunks[1..]))
  }

  /** More bytes behind a complete frame do not change what is cut off. */
  lemma DecodeStepExtends(a: Bytes, b: Bytes)
    requires DecodeStep(a).Cut?
    ensures DecodeStep(a + b) == Cut(DecodeStep(a).result, DecodeStep(a).rest + b)
  {
    var len := FromBigEndian(a[..4]);
    assert (a + b)[..4] == a[..4];
    assert (a + b)[len..] == a[len..] + b;
    if len >= 4 {
      assert (a + b)[4..len] == a[4..len];
    }
  }

  lemma {:induction false} DrainExtends(a: Bytes, b: Bytes)
    ensures Drain(a).Dead() ==> Drain(a + b).results == Drain(a).results
    ensures !Drain(a).Dead() ==>
      Drain(a + b) == Drain(a).Then(Drain(Drain(a).rest + b))
    decreases |a|
  {
    hide ReadMessage;
    var step := DecodeStep(a);
    if step.NeedMore? {
      assert [] + Drain(a + b).results == Drain(a + b).results;
    } else {
      DecodeStepExtends(a, b);
      if !step.result.Panic? {
        DrainCut(a, step.result, step.rest);
        DrainCut(a + b, step.result, step.rest + b);
        hide Drain, DecodeStep;
        DrainExtends(step.rest, b);
        var one, d := Stream([step.result], step.rest), Drain(step.rest);
        FeedDead(one, d);
        ThenAssociates(one, d, Drain(d.rest + b));
      }
    }
  }

  lemma DrainCut(a: Bytes, result: Result<Message>, rest: Bytes)
    requires DecodeStep(a) == Cut(result, rest) && !result.Panic?
    ensures Drain(a) == Stream([result], rest).Then(Drain(rest))
  {
  }

  lemma DrainDead(a: Bytes)
    requires DecodeStep(a).Cut? && !DecodeStep(a).result.Panic?
    ensures Drain(a).Dead() <==> Drain(DecodeStep(a).rest).Dead()
  {
  }

  lemma {:induction false} DrainLeavesNoFrame(a: Bytes)
    ensures !Drain(a).Dead() ==> DecodeStep(Drain(a).rest).NeedMore?
    decreases |a|
  {
    var step := DecodeStep(a);
    if step.Cut? && !step.result.Panic? {
      DrainLeavesNoFrame(step.rest);
      DrainDead(a);
    }
  }

  /**
   * Main result: on arbitrary bytes, valid or not, the way they are cut into chunks does not change what is
   * decoded, nor (unless the decoder panicked) what is left in the buffer.
   */
  lemma {:induction false} ChunkingIsInvisible(src: Bytes, chunks: seq<Bytes>)
    requires DecodeStep(src).NeedMore?
    ensures Feed(src, chunks).results == Drain(src + Flatten(chunks)).results
    ensures !Feed(src, chunks).Dead() ==> Feed(src, chunks) == Drain(src + Flatten(chunks))
    decreases |chunks|
  {
    hide DecodeStep;
    if chunks == [] {
      assert src + [] == src;
    } else {
      var d := Drain(src + chunks[0]);
      assert src + Flatten(chunks) == (src + chunks[0]) + Flatten(chunks[1..]);
      DrainExtends(src + chunks[0], Flatten(chunks[1..]));
      if !d.Dead() {
        DrainLeavesNoFrame(src + chunks[0]);
        ChunkingIsInvisible(d.rest, chunks[1..]);
        FeedDead(d, Feed(d.rest, chunks[1..]));
      }
    }
  }

  lemma FeedDead(d: Stream, s: Stream)
    requires !d.Dead()
    ensures d.Then(s).Dead() <==> s.Dead()
  {
  }

  lemma ThenAssociates(s: Stream, t: Stream, u: Stream)
    ensures s.Then(t).Then(u) == s.Then(t.Then(u))
  {
    assert (s.results + t.results) + u.results == s.results + (t.results + u.results);
  }

  ghost predicate Sendable(m: Message)
  {
    WellFormedMessage(m) && 4 + |MessageBytes(m)| < 0x1_0000_0000
  }

  lemma DecodeOneFrame(m: Message, tail: Bytes)
    requires Sendable(m)
    ensures DecodeStep(FrameOf(m) + tail) == Cut(Ok(NormMessage(m)), tail)
  {
    hide MessageBytes, ReadMessage, NormMessage, WellFormedMessage;
    var body, len := MessageBytes(m), 4 + |MessageBytes(m)|;
    Pow256Values();
    BigEndianRoundTrip(len, 4);
    var src := FrameOf(m) + tail;
    assert src[..4] == BigEndian(len, 4);
    assert src[4..len] == body;
    assert src[len..] == tail;
    MessageRoundTrip(m, false);
  }

  function Received(ms: seq<Message>): (rs: seq<Result<Message>>)
    ensures |rs| == |ms|
    ensures forall i | 0 <= i < |ms| :: rs[i] == Ok(NormMessage(ms[i]))
  {
    seq(|ms|, i requires 0 <= i < |ms| => Ok(NormMessage(ms[i])))
  }

  lemma {:induction false} DrainFrames(ms: seq<Message>, tail: Bytes)
    requires forall i | 0 <= i < |ms| :: Sendable(ms[i])
    requires DecodeStep(tail).NeedMore?
    ensures Drain(Frames(ms) + tail) == Stream(Received(ms), tail)
    decreases |ms|
  {
    hide FrameOf, DecodeStep, NormMessage, Sendable;
    if ms == [] {
      assert [] + tail == tail;
    } else {
      var rest := Frames(ms[1..]) + tail;
      assert Frames(ms) + tail == FrameOf(ms[0]) + rest;
      DecodeOneFrame(ms[0], rest);
      DrainFrames(ms[1..], tail);
      assert [Ok(NormMessage(ms[0]))] + Received(ms[1..]) == Received(ms);
    }
  }

  /**
   * Main result: messages framed back to back and delivered in any chunks come out in order, each in its
   * normal form, and the unfinished frame behind them stays in the buffer.
   */
  lemma MessageStreamRoundTrip(ms: seq<Message>, tail: Bytes, chunks: seq<Bytes>)
    requires forall i | 0 <= i < |ms| :: Sendable(ms[i])
    requires DecodeStep(tail).NeedMore?
    requires Flatten(chunks) == Frames(ms) + tail
    ensures Feed([], chunks) == Stream(Received(ms), tail)
  {
    assert [] + Flatten(chunks) == Frames(ms) + tail;
    ChunkingIsInvisible([], chunks);
    DrainFrames(ms, tail);
  }

  /** A frame that is sent whole is also what both response decoders accept. */
  lemma ResponseRoundTrip(m: Message, zeroCopy: bool)
    requires Sendable(m)
    ensures DecodeResponse(FrameOf(m), zeroCopy) == Ok(NormMessage(m))
  {
    hide MessageBytes, ReadMessage, NormMessage, WellFormedMessage;
    var len := 4 + |MessageBytes(m)|;
    Pow256Values();
    BigEndianRoundTrip(len, 4);
    assert FrameOf(m)[..4] == BigEndian(len, 4);
    assert FrameOf(m)[4..] == MessageBytes(m);
    MessageRoundTrip(m, zeroCopy);
  }

  /** A frame cut short is never taken for a message: the decoder waits for the rest. */
  lemma UnfinishedFrameWaits(m: Message, n: nat)
    requires Sendable(m) && n < |FrameOf(m)|
    ensures DecodeStep(FrameOf(m)[..n]).NeedMore?
  {
    hide MessageBytes, ReadMessage, WellFormedMessage;
    var len := 4 + |MessageBytes(m)|;
    Pow256Values();
    BigEndianRoundTrip(len, 4);
    if n >= 4 {
      assert FrameOf(m)[..n][..4] == BigEndian(len, 4);
    }
  }
}
