/** The shell of every message, frame.go: a big-endian length, a tag and a body. */
module WireFrame {
  import opened Bytes
  import opened Wrappers
  import opened WireFields

  const MAX_FRAME_PAYLOAD := 32 * 1024 * 1024

  function FrameBytes(tag: byte, body: seq<byte>): (b: seq<byte>)
    ensures |b| == 5 + |body|
  {
    BE32(|body| + 1) + [tag] + body
  }

  predicate Fits(body: seq<byte>) {
    |body| + 1 <= MAX_FRAME_PAYLOAD
  }

  /** EncodeFrame: the cap is checked before the buffer is made. */
  method EncodeFrame(tag: byte, body: seq<byte>) returns (r: Option<array<byte>>)
    ensures r.Some? <==> Fits(body)
    ensures r.Some? ==> fresh(r.value) && r.value[..] == FrameBytes(tag, body)
  {
    hide BE32;
    if |body| + 1 > MAX_FRAME_PAYLOAD {
      return None;
    }
    var out := new byte[5 + |body|];
    LayOut(out, 0, 0, BE32(|body| + 1));
    LayOut(out, 0, 4, [tag]);
    LayOut(out, 0, 5, body);
    assert out[0..5 + |body|] == out[..];
    return Some(out);
  }

  /** WriteFrame: the header and the body, in two writes, at the end of what was sent before. */
  method WriteFrame(sent: seq<byte>, tag: byte, body: seq<byte>) returns (r: Option<seq<byte>>)
    ensures r.Some? <==> Fits(body)
    ensures r.Some? ==> r.value == sent + FrameBytes(tag, body)
  {
    hide BE32;
    if |body| + 1 > MAX_FRAME_PAYLOAD {
      return None;
    }
    var out := sent + (BE32(|body| + 1) + [tag]);
    if |body| > 0 {
      out := out + body;
    }
    assert out == sent + (BE32(|body| + 1) + [tag] + body);
    return Some(out);
  }

  /** Eof is the end of the stream before any byte of a frame; Truncated and Malformed end the connection. */
  datatype Read = Eof | Truncated | Malformed | Frame(tag: byte, body: seq<byte>, rest: seq<byte>)

  /** ReadFrame on a stream that holds these bytes and then ends. */
  method ReadFrame(r: seq<byte>) returns (f: Read)
    ensures f.Frame? ==> Fits(f.body) && r == FrameBytes(f.tag, f.body) + f.rest
    ensures !f.Frame? ==> forall tag, body :: Fits(body) ==> !(FrameBytes(tag, body) <= r)
    ensures f.Eof? <==> r == []
    ensures f.Malformed? <==> 4 <= |r| && !(1 <= FromBE(r[..4]) <= MAX_FRAME_PAYLOAD)
  {
    hide BE32, FromBE;
    forall tag, body | Fits(body) && FrameBytes(tag, body) <= r
      ensures 5 <= |r| && FromBE(r[..4]) == |body| + 1 && 4 + (|body| + 1) <= |r|
    {
      FrameLength(tag, body, r);
    }
    if |r| == 0 {
      return Eof;
    }
    if |r| < 4 {
      return Truncated;
    }
    var payloadLen := FromBE(r[..4]);
    if payloadLen < 1 || payloadLen > MAX_FRAME_PAYLOAD {
      return Malformed;
    }
    if |r| < 4 + payloadLen {
      return Truncated;
    }
    FromBE32Bound(r[..4]);
    assert r == r[..4] + [r[4]] + r[5..4 + payloadLen] + r[4 + payloadLen..];
    return Frame(r[4], r[5..4 + payloadLen], r[4 + payloadLen..]);
  }

  lemma FrameLength(tag: byte, body: seq<byte>, r: seq<byte>)
    requires Fits(body) && FrameBytes(tag, body) <= r
    ensures FromBE(r[..4]) == |body| + 1 && 5 + |body| <= |r|
  {
    hide BE32, FromBE;
    BE32RoundTrip(|body| + 1);
    assert r[..4] == r[..5 + |body|][..4] == BE32(|body| + 1);
  }

  /** What is read off a stream that begins with a frame is that frame. */
  lemma FrameUnique(tag: byte, body: seq<byte>, rest: seq<byte>, tag': byte, body': seq<byte>, rest': seq<byte>)
    requires Fits(body) && Fits(body')
    requires FrameBytes(tag, body) + rest == FrameBytes(tag', body') + rest'
    ensures tag == tag' && body == body' && rest == rest'
  {
    hide BE32, FromBE;
    var r, n := FrameBytes(tag, body) + rest, 5 + |body|;
    FrameLength(tag, body, r);
    FrameLength(tag', body', r);
    assert FrameBytes(tag, body) == r[..n] == FrameBytes(tag', body');
    assert rest == r[n..] == rest';
    assert FrameBytes(tag, body)[4] == tag && FrameBytes(tag', body')[4] == tag';
    assert FrameBytes(tag, body)[5..] == body && FrameBytes(tag', body')[5..] == body';
  }

  /** The bytes of a frame, one by one. */
  lemma FrameLayout(tag: byte, body: seq<byte>)
    requires Fits(body)
    ensures var b := FrameBytes(tag, body);
      && |body| + 1 == 0x100_0000 * (b[0] as nat) + 0x1_0000 * (b[1] as nat) + 0x100 * (b[2] as nat) + b[3] as nat
      && b[4] == tag && forall i :: 0 <= i < |body| ==> b[5 + i] == body[i]
  {
    hide BE32, FromBE;
    var b := FrameBytes(tag, body);
    assert b[..4] == BE32(|body| + 1);
    BE32RoundTrip(|body| + 1);
    Digits4(b[..4]);
  }
}
