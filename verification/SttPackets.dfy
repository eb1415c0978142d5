/** STT binary packets (stt.rs). */
module SttPackets {
  import opened ByteStrings

  const CLIENT_MAGIC: Bytes := [0xb1, 0x02, 0x00, 0x00]

  /** Length twice, magic, payload, terminator; the length counts everything but its first copy. */
  function CreatePacket(payload: Bytes): Bytes
  {
    var length := LittleEndian(|payload| + 9, 4);
    length + length + CLIENT_MAGIC + payload + [0]
  }

  /** The payload and the number of bytes consumed. */
  function ParsePacket(data: Bytes): (r: Option<(Bytes, nat)>)
    ensures r.Some? ==> 4 <= r.value.1 <= |data|
  {
    if |data| < 13 then None
    else
      var total := FromLittleEndian(data[..4]) + 4;
      if |data| < total then None
      else if total - 1 <= 12 then Some(([], total))
      else Some((data[12..total - 1], total))
  }

  /** The heartbeat message and its packet, byte by byte. */
  const HEARTBEAT_TEXT: Bytes := [0x74, 0x79, 0x70, 0x65, 0x40, 0x3d, 0x6d, 0x72, 0x6b, 0x6c, 0x2f]

  const HEARTBEAT: Bytes := [
    0x14, 0x00, 0x00, 0x00,
    0x14, 0x00, 0x00, 0x00,
    0xb1, 0x02, 0x00, 0x00,
    0x74, 0x79, 0x70, 0x65, 0x40, 0x3d, 0x6d, 0x72, 0x6b, 0x6c, 0x2f, 0x00
  ]

  /** Main result: every byte of a packet, said without the function that builds it. */
  lemma PacketLayout(payload: Bytes)
    requires |payload| + 9 < 0x1_0000_0000
    ensures var p := CreatePacket(payload);
      && |p| == |payload| + 13
      && Number(p, 0) == |p| - 4 == Number(p, 4)
      && p[8] == 0xb1 && p[9] == 0x02 && p[10] == 0x00 && p[11] == 0x00
      && p[12..|p| - 1] == payload && p[|p| - 1] == 0x00
  {
    Pow256Values();
    LittleEndianRoundTrip(|payload| + 9, 4);
    var length, p := LittleEndian(|payload| + 9, 4), CreatePacket(payload);
    hide LittleEndian, FromLittleEndian, Pow256;
    assert p[0..4] == length && p[4..8] == length;
    assert p[0..4] == [p[0], p[1], p[2], p[3]] && p[4..8] == [p[4], p[5], p[6], p[7]];
    LittleEndianSum(p[0], p[1], p[2], p[3]);
    LittleEndianSum(p[4], p[5], p[6], p[7]);
  }

  /** The number in the four bytes from `i` on, least significant first. */
  function Number(p: Bytes, i: nat): nat
    requires i + 4 <= |p|
  {
    p[i] as int + p[i + 1] as int * 0x100 + p[i + 2] as int * 0x1_0000 + p[i + 3] as int * 0x100_0000
  }

  lemma LittleEndianSum(a: U8, b: U8, c: U8, d: U8)
    ensures FromLittleEndian([a, b, c, d])
      == a as int + b as int * 0x100 + c as int * 0x1_0000 + d as int * 0x100_0000
  {
    var s := [a, b, c, d];
    assert s[1..] == [b, c, d] && [b, c, d][1..] == [c, d] && [c, d][1..] == [d];
    assert FromLittleEndian([d]) == d + 256 * FromLittleEndian([]);
    assert FromLittleEndian([c, d]) == c + 256 * FromLittleEndian([d]);
    assert FromLittleEndian([b, c, d]) == b + 256 * FromLittleEndian([c, d]);
  }

  lemma HeartbeatHeader()
    ensures [0x14, 0x00, 0x00, 0x00] + [0x14, 0x00, 0x00, 0x00] + CLIENT_MAGIC == HEARTBEAT[..12]
  {
  }

  lemma HeartbeatPayload()
    ensures HEARTBEAT_TEXT + [0] == HEARTBEAT[12..]
  {
  }

  lemma TwentyInFourBytes()
    ensures LittleEndian(20, 4) == [0x14, 0x00, 0x00, 0x00]
  {
    assert LittleEndian(20, 4) == [0x14] + LittleEndian(0, 3);
    assert LittleEndian(0, 3) == [0] + LittleEndian(0, 2) && LittleEndian(0, 2) == [0] + LittleEndian(0, 1);
  }

  lemma PacketInTwo(payload: Bytes)
    ensures var length := LittleEndian(|payload| + 9, 4);
      CreatePacket(payload) == (length + length + CLIENT_MAGIC) + (payload + [0])
  {
    hide LittleEndian;
  }

  lemma HeartbeatIsPacket()
    ensures CreatePacket(HEARTBEAT_TEXT) == HEARTBEAT
  {
    assert |HEARTBEAT_TEXT| == 11;
    hide *;
    PacketInTwo(HEARTBEAT_TEXT);
    TwentyInFourBytes();
    HeartbeatHeader();
    HeartbeatPayload();
    assert HEARTBEAT == HEARTBEAT[..12] + HEARTBEAT[12..];
  }

  /** The parser looks at the first length only; packets of the server, whose magic differs, parse as well. */
  lemma AnyPacketParses(second: Bytes, magic: Bytes, payload: Bytes, last: U8, rest: Bytes)
    requires |payload| + 9 < 0x1_0000_0000 && |second| == 4 && |magic| == 4
    ensures var packet := LittleEndian(|payload| + 9, 4) + second + magic + payload + [last];
      ParsePacket(packet + rest) == Some((payload, |packet|))
  {
    var length := LittleEndian(|payload| + 9, 4);
    var data := length + second + magic + payload + [last] + rest;
    Pow256Values();
    LittleEndianRoundTrip(|payload| + 9, 4);
    hide LittleEndian, FromLittleEndian, Pow256;
    assert data[..4] == length;
    assert data[12..|payload| + 12] == payload;
  }

  /** The non-empty payloads up to the first packet that is not complete. */
  function ParsePackets(data: Bytes): seq<Bytes>
    decreases |data|
  {
    match ParsePacket(data)
    case None => []
    case Some((payload, consumed)) =>
      (if payload == [] then [] else [payload]) + ParsePackets(data[consumed..])
  }

  function Concat(payloads: seq<Bytes>): Bytes
  {
    if payloads == [] then [] else CreatePacket(payloads[0]) + Concat(payloads[1..])
  }

  function NonEmpty(payloads: seq<Bytes>): seq<Bytes>
  {
    if payloads == [] then []
    else (if payloads[0] == [] then [] else [payloads[0]]) + NonEmpty(payloads[1..])
  }

  lemma ParseOnePacket(payload: Bytes, rest: Bytes)
    requires |payload| + 9 < 0x1_0000_0000
    ensures ParsePacket(CreatePacket(payload) + rest) == Some((payload, |payload| + 13))
    ensures (CreatePacket(payload) + rest)[|payload| + 13..] == rest
  {
    var n := |payload| + 9;
    var length, data := LittleEndian(n, 4), CreatePacket(payload) + rest;
    Pow256Values();
    LittleEndianRoundTrip(n, 4);
    hide LittleEndian, FromLittleEndian, Pow256;
    assert data[..4] == length;
    assert data[12..n + 3] == payload;
  }

  lemma ParsePacketThenRest(payload: Bytes, tail: Bytes)
    requires |payload| + 9 < 0x1_0000_0000
    ensures ParsePackets(CreatePacket(payload) + tail) == (if payload == [] then [] else [payload]) + ParsePackets(tail)
  {
    hide CreatePacket, ParsePacket;
    ParseOnePacket(payload, tail);
  }

  /** Main result: the packets of a list, back to back, parse to its non-empty payloads, and then the rest is parsed. */
  lemma {:induction false} PacketsRoundTrip(payloads: seq<Bytes>, rest: Bytes)
    requires forall i | 0 <= i < |payloads| :: |payloads[i]| + 9 < 0x1_0000_0000
    ensures ParsePackets(Concat(payloads) + rest) == NonEmpty(payloads) + ParsePackets(rest)
    decreases payloads
  {
    hide CreatePacket, ParsePacket;
    if payloads == [] {
      assert [] + rest == rest && [] + ParsePackets(rest) == ParsePackets(rest);
    } else {
      var p := payloads[0];
      Regroup(CreatePacket(p), Concat(payloads[1..]), rest);
      Regroup([p], NonEmpty(payloads[1..]), ParsePackets(rest));
      ParsePacketThenRest(p, Concat(payloads[1..]) + rest);
      hide ParsePackets;
      PacketsRoundTrip(payloads[1..], rest);
    }
  }

  /** A packet that is cut short yields nothing, and nothing wrong. */
  lemma CutPacketWaits(payload: Bytes, n: nat)
    requires |payload| + 9 < 0x1_0000_0000 && n < |payload| + 13
    ensures |CreatePacket(payload)| == |payload| + 13
    ensures ParsePacket(CreatePacket(payload)[..n]) == None && ParsePackets(CreatePacket(payload)[..n]) == []
  {
    var length := LittleEndian(|payload| + 9, 4);
    Pow256Values();
    LittleEndianRoundTrip(|payload| + 9, 4);
    hide LittleEndian, FromLittleEndian, Pow256;
    if n >= 13 {
      assert CreatePacket(payload)[..n][..4] == length;
    }
  }

  method ParseAll(data: Bytes) returns (packets: seq<Bytes>)
    ensures packets == ParsePackets(data)
  {
    hide ParsePacket, ParsePackets;
    packets := [];
    var offset := 0;
    assert data[0..] == data && [] + ParsePackets(data) == ParsePackets(data);
    while offset < |data|
      invariant 0 <= offset <= |data|
      invariant packets + ParsePackets(data[offset..]) == ParsePackets(data)
    {
      var next := ParsePacket(data[offset..]);
      ParseStep(data[offset..], packets);
      if next.None? {
        return;
      }
      var (payload, consumed) := next.value;
      assert data[offset..][consumed..] == data[offset + consumed..];
      if payload != [] {
        packets := packets + [payload];
      }
      offset := offset + consumed;
    }
    NothingToParse(data[offset..], packets);
  }

  lemma ParseStep(data: Bytes, done: seq<Bytes>)
    ensures ParsePacket(data) == None ==> done + ParsePackets(data) == done
    ensures ParsePacket(data).Some? ==>
      (done + ParsePackets(data)
      == (if ParsePacket(data).value.0 == [] then done else done + [ParsePacket(data).value.0])
         + ParsePackets(data[ParsePacket(data).value.1..]))
  {
    hide ParsePacket;
    if ParsePacket(data).Some? {
      Regroup(done, [ParsePacket(data).value.0], ParsePackets(data[ParsePacket(data).value.1..]));
    }
  }

  lemma NothingToParse(data: Bytes, done: seq<Bytes>)
    requires data == []
    ensures done + ParsePackets(data) == done
  {
  }
}
