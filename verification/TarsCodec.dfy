/** The framing codec object (codec.rs). */
module TarsCodecs {
  import opened ByteStrings
  import opened TarsTypes
  import opened TarsMessages
  import opened TarsStream
  import opened TarsSerializers
  import opened TarsDeserializers

  class TarsCodec {
    constructor ()
    {
    }

    /** Appends one frame to `dst`, and nothing else. */
    method EncodeByRef(m: Message, dst: ByteBuffer)
      modifies dst
      ensures dst.data == old(dst.data) + FrameOf(m)
    {
      var serializer := new TarsSerializer();
      serializer.EncodeMessageToInternalBuffer(m);
      var encoded := serializer.buffer;
      assert encoded == MessageBytes(m);
      dst.data := dst.data + BigEndian(4 + |encoded|, 4);
      dst.data := dst.data + encoded;
    }

    /** `None` asks for more bytes and keeps the buffer; otherwise one frame is gone from its front. */
    method Decode(src: ByteBuffer) returns (r: Option<Result<Message>>)
      modifies src
      ensures match DecodeStep(old(src.data))
        case NeedMore => r == None && src.data == old(src.data)
        case Cut(result, rest) => r == Some(result) && src.data == rest
    {
      if |src.data| < 4 {
        return None;
      }
      var len := FromBigEndian(src.data[..4]);
      if |src.data| < len {
        return None;
      }
      var data := src.data[..len];
      src.data := src.data[len..];
      if len < 4 {
        return Some(Panic);
      }
      var de := new TarsDeserializer(data[4..], false);
      var message := de.ReadMessage();
      assert data[4..] == old(src.data)[4..len];
      r := Some(message);
    }
  }
}
