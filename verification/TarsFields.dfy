/** What a receiver finds when it reads a message value by value (ser.rs). */
module TarsFields {
  import opened ByteStrings
  import opened TarsTypes
  import opened TarsWire
  import opened TarsReader
  import opened TarsRoundTrip
  import opened TarsMessages

  /** Values with their tags, one after the other to the end of the bytes. */
  function ReadAll(bs: Bytes, zeroCopy: bool): Outcome<seq<(U8, Value)>>
    decreases |bs|
  {
    if bs == [] then Done([], [])
    else
      var (v, rest) :- ReadValue(bs, zeroCopy);
      var (vs, end) :- ReadAll(rest, zeroCopy);
      Done([v] + vs, end)
  }

  function WriteAll(fields: seq<(U8, Value)>): Bytes
  {
    if fields == [] then [] else Write(fields[0].0, fields[0].1) + WriteAll(fields[1..])
  }

  lemma {:induction false} AllComeBack(fields: seq<(U8, Value)>, zeroCopy: bool)
    requires forall i | 0 <= i < |fields| :: WellFormed(fields[i].1)
    ensures var o := ReadAll(WriteAll(fields), zeroCopy);
      && o.Done? && o.rest == [] && |o.value| == |fields|
      && forall i | 0 <= i < |fields| :: o.value[i] == (fields[i].0, Norm(fields[i].1, zeroCopy))
    decreases fields
  {
    if fields != [] {
      AllComeBack(fields[1..], zeroCopy);
      hide Write, Norm, WellFormed, ReadValue;
      OneComesBack(fields[0].0, fields[0].1, WriteAll(fields[1..]), zeroCopy);
    }
  }

  lemma OneComesBack(tag: U8, v: Value, rest: Bytes, zeroCopy: bool)
    requires WellFormed(v)
    ensures Write(tag, v) + rest != []
    ensures ReadValue(Write(tag, v) + rest, zeroCopy) == Done((tag, Norm(v, zeroCopy)), rest)
  {
    ValueRoundTrip(tag, v, rest, zeroCopy);
    assert |Write(tag, v)| > 0;
  }

  /** The fields of a message, numbered from 1. */
  function Fields(m: Message): (fields: seq<Value>)
    ensures |fields| == 10
  {
    [Short(m.version), Byte(m.packetType), Int(m.messageType), Int(m.requestId), Str(m.servantName), Str(m.funcName),
     SimpleList(BodyBytes(m.body)), Int(m.timeout), Map(TextEntries(m.context)), Map(TextEntries(m.status))]
  }

  function Numbered(values: seq<Value>): (fields: seq<(U8, Value)>)
    requires |values| == 10
    ensures |fields| == 10 && forall i | 0 <= i < 10 :: fields[i] == (i + 1, values[i])
  {
    seq(10, i requires 0 <= i < 10 => (i + 1, values[i]))
  }

  lemma FieldsAreWellFormed(m: Message)
    requires WellFormedMessage(m)
    ensures forall i | 0 <= i < 10 :: WellFormed(Fields(m)[i])
  {
    hide BodyBytes, TextEntries;
    TextParsesBack(m.context, false);
    TextParsesBack(m.status, false);
  }

  lemma WriteAllFrom(fields: seq<(U8, Value)>, i: nat)
    requires i < |fields|
    ensures WriteAll(fields[i..]) == Write(fields[i].0, fields[i].1) + WriteAll(fields[i + 1..])
  {
    hide Write;
    assert fields[i..][1..] == fields[i + 1..];
  }

  lemma MessageIsItsFields(m: Message)
    ensures MessageBytes(m) == WriteAll(Numbered(Fields(m)))
  {
    var fields := Numbered(Fields(m));
    assert fields[0..] == fields && WriteAll(fields[10..]) == [];
    hide Write, WriteAll, BodyBytes, TextEntries;
    WriteAllFrom(fields, 0);
    WriteAllFrom(fields, 1);
    WriteAllFrom(fields, 2);
    WriteAllFrom(fields, 3);
    WriteAllFrom(fields, 4);
    WriteAllFrom(fields, 5);
    WriteAllFrom(fields, 6);
    WriteAllFrom(fields, 7);
    WriteAllFrom(fields, 8);
    WriteAllFrom(fields, 9);
  }

  /**
   * Main result: reading a message value by value to its end finds exactly ten values with the tags 1 to 10 in that
   * order, each the normal form of its field.
   */
  lemma FieldsComeInOrder(m: Message, zeroCopy: bool)
    requires WellFormedMessage(m)
    ensures var o := ReadAll(MessageBytes(m), zeroCopy);
      && o.Done? && o.rest == [] && |o.value| == 10
      && (forall i | 0 <= i < 10 :: o.value[i].0 == i + 1)
      && o.value[0].1 == Norm(Short(m.version), zeroCopy)
      && o.value[1].1 == Byte(m.packetType)
      && o.value[2].1 == Norm(Int(m.messageType), zeroCopy)
      && o.value[3].1 == Norm(Int(m.requestId), zeroCopy)
      && o.value[4].1 == NormString(m.servantName, zeroCopy)
      && o.value[5].1 == NormString(m.funcName, zeroCopy)
      && o.value[6].1 == SimpleList(BodyBytes(m.body))
      && o.value[7].1 == Norm(Int(m.timeout), zeroCopy)
      && o.value[8].1 == Norm(Map(TextEntries(m.context)), zeroCopy)
      && o.value[9].1 == Norm(Map(TextEntries(m.status)), zeroCopy)
  {
    hide Write, WriteAll, ReadAll, BodyBytes, TextEntries, WellFormed, WellFormedMessage, MessageBytes;
    FieldsAreWellFormed(m);
    AllComeBack(Numbered(Fields(m)), zeroCopy);
    MessageIsItsFields(m);
  }

  // A receiver does not depend on that order.

  lemma ReadOne(m: Message, tag: U8, v: Value, rest: Bytes, zeroCopy: bool)
    requires WellFormed(v) && Apply(m, tag, Norm(v, zeroCopy)).Ok?
    ensures ReadMessageFrom(Write(tag, v) + rest, m, zeroCopy)
      == ReadMessageFrom(rest, Apply(m, tag, Norm(v, zeroCopy)).value, zeroCopy)
  {
    OneComesBack(tag, v, rest, zeroCopy);
    hide ReadValue, Write, Norm, WellFormed, Apply;
  }

  /** A field with a tag that no message has is skipped, wherever it stands. */
  lemma UnknownFieldIsSkipped(m: Message, tag: U8, v: Value, rest: Bytes, zeroCopy: bool)
    requires WellFormed(v) && (tag == 0 || tag > 10)
    ensures ReadMessageFrom(Write(tag, v) + rest, m, zeroCopy) == ReadMessageFrom(rest, m, zeroCopy)
  {
    assert Apply(m, tag, Norm(v, zeroCopy)) == Ok(m);
    hide *;
    ReadOne(m, tag, v, rest, zeroCopy);
  }

  lemma ApplyInEitherOrder(m: Message, s: U8, v: Value, t: U8, w: Value)
    requires s != t && Apply(m, s, v).Ok? && Apply(m, t, w).Ok?
    ensures Apply(Apply(m, s, v).value, t, w).Ok?
    ensures Apply(Apply(m, s, v).value, t, w) == Apply(Apply(m, t, w).value, s, v)
  {
    hide AsI16, AsU8, AsInt, AsString, AsSimpleList, ParseBody, ParseText;
  }

  /** Main result: two neighbouring fields with different tags can come in either order. */
  lemma FieldOrderIsFree(m: Message, s: U8, v: Value, t: U8, w: Value, rest: Bytes, zeroCopy: bool)
    requires WellFormed(v) && WellFormed(w) && s != t
    requires Apply(m, s, Norm(v, zeroCopy)).Ok? && Apply(m, t, Norm(w, zeroCopy)).Ok?
    ensures ReadMessageFrom(Write(s, v) + (Write(t, w) + rest), m, zeroCopy)
      == ReadMessageFrom(Write(t, w) + (Write(s, v) + rest), m, zeroCopy)
  {
    hide *;
    var m1, m2 := Apply(m, s, Norm(v, zeroCopy)).value, Apply(m, t, Norm(w, zeroCopy)).value;
    ApplyInEitherOrder(m, s, Norm(v, zeroCopy), t, Norm(w, zeroCopy));
    ReadOne(m, s, v, Write(t, w) + rest, zeroCopy);
    ReadOne(m1, t, w, rest, zeroCopy);
    ReadOne(m, t, w, Write(s, v) + rest, zeroCopy);
    ReadOne(m2, s, v, rest, zeroCopy);
  }

  /** Of two fields with one tag the later counts. */
  lemma LaterFieldCounts(m: Message, tag: U8, v: Value, w: Value)
    requires Apply(m, tag, v).Ok?
    ensures Apply(Apply(m, tag, v).value, tag, w) == Apply(m, tag, w)
  {
    hide AsI16, AsU8, AsInt, AsString, AsSimpleList, ParseBody, ParseText;
  }
}
