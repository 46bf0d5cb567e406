/** The encoders and the batch decoder of record.go, over real buffers. */
module RecordCodec {
  import opened Bytes
  import opened Wrappers
  import opened Record
  import opened Log
  import Crc32c

  datatype CodecError = KeyTooLarge | ValueTooLarge | ShortBuffer

  /** One decoded entry: the operation, and the absolute file offset of its value bytes. */
  datatype Decoded = Decoded(op: Op, valuePos: nat)

  /** encode: one PUT or TOMBSTONE record; the checksum goes in last, over the bytes just written. */
  method Encode(r: Record, buf: array<byte>) returns (n: Result<nat, CodecError>)
    requires IsInt64(r.tstamp)
    modifies buf
    ensures n.Ok? <==> ValidKey(r.key) && |r.value| <= MAX_VAL_LEN && RecordSize(r) <= buf.Length
    ensures n.Ok? ==>
      n.value == RecordSize(r) && buf[..n.value] == RecordBytes(r) && buf[n.value..] == old(buf[n.value..])
    ensures n.Err? ==> buf[..] == old(buf[..])
    ensures n.Err? ==> n.error == (if !ValidKey(r.key) then KeyTooLarge
                                   else if |r.value| > MAX_VAL_LEN then ValueTooLarge else ShortBuffer)
  {
    if |r.key| == 0 || |r.key| > MAX_KEY_LEN {
      return Err(KeyTooLarge);
    }
    if |r.value| > MAX_VAL_LEN {
      return Err(ValueTooLarge);
    }
    hide Tail, LE32, Crc32c.Checksum;
    var size := RecordSize(r);
    if buf.Length < size {
      return Err(ShortBuffer);
    }
    PutTail(r, buf);
    var sum := Crc32c.Checksum(buf[4..size]);
    PutChecksum(buf, size, sum);
    return Ok(size);
  }

  /** Bytes 4 to 21 of the header. */
  method PutHeaderTail(r: Record, buf: array<byte>)
    requires IsInt64(r.tstamp) && HEADER_SIZE <= buf.Length
    modifies buf
    ensures buf[4..HEADER_SIZE] == LE64(r.tstamp) + [r.flag] + LE32(|r.key|) + LE32(|r.value|)
    ensures buf[HEADER_SIZE..] == old(buf[HEADER_SIZE..])
  {
    hide LE32, LE64;
    ghost var before := buf[..];
    LayOut(buf, 4, 4, LE64(r.tstamp));
    assert buf[HEADER_SIZE..] == buf[12..][9..] && before[HEADER_SIZE..] == before[12..][9..];
    LayOut(buf, 4, 12, [r.flag]);
    assert buf[HEADER_SIZE..] == buf[13..][8..];
    LayOut(buf, 4, 13, LE32(|r.key|));
    assert buf[HEADER_SIZE..] == buf[17..][4..];
    LayOut(buf, 4, 17, LE32(|r.value|));
  }

  /** Everything but the checksum. */
  method PutTail(r: Record, buf: array<byte>)
    requires IsInt64(r.tstamp) && RecordSize(r) <= buf.Length
    modifies buf
    ensures buf[4..RecordSize(r)] == Tail(r)
    ensures buf[RecordSize(r)..] == old(buf[RecordSize(r)..])
  {
    hide LE32, LE64;
    var k, n := HEADER_SIZE + |r.key|, RecordSize(r);
    ghost var b0 := buf[..];
    PutHeaderTail(r, buf);
    ghost var b1 := buf[..];
    LayOut(buf, 4, HEADER_SIZE, r.key);
    ghost var b2 := buf[..];
    LayOut(buf, 4, k, r.value);
    SameSuffix(b1, b0, HEADER_SIZE, n);
    SameSuffix(b2, b1, k, n);
  }

  method PutChecksum(buf: array<byte>, size: nat, sum: nat)
    requires 4 <= size <= buf.Length
    modifies buf
    ensures buf[..size] == LE32(sum) + old(buf[4..size])
    ensures buf[size..] == old(buf[size..])
  {
    hide LE32;
    ghost var before := buf[..];
    Copy(buf, 0, LE32(sum));
    assert buf[4..size] == buf[4..][..size - 4] && before[4..size] == before[4..][..size - 4];
    Grown(buf[..], 0, 4, LE32(sum), before[4..size]);
    assert buf[size..] == buf[4..][size - 4..] && before[size..] == before[4..][size - 4..];
  }

  /** encodedBatchBodySize: the size of the body, entry by entry. */
  method EncodedBatchBodySize(ops: seq<Op>) returns (n: nat)
    ensures n == |BatchBody(ops)|
  {
    n := BATCH_COUNT_SIZE;
    for i := 0 to |ops|
      invariant n == BATCH_COUNT_SIZE + OpsSize(ops[..i])
    {
      n := n + BATCH_ENTRY_HEADER_SIZE + |ops[i].key|;
      if ops[i].Put? {
        n := n + |ops[i].value|;
      }
      assert ops[..i + 1] == ops[..i] + [ops[i]];
      OpsAppend(ops[..i], ops[i]);
    }
    assert ops[..|ops|] == ops;
  }

  /** One entry of a batch at off; lo is where the record's own bytes begin. */
  method PutOp(op: Op, buf: array<byte>, off: nat)
    requires 4 <= off && off + OpSize(op) <= buf.Length
    modifies buf
    ensures buf[4..off + OpSize(op)] == old(buf[4..off]) + OpBytes(op)
    ensures buf[off + OpSize(op)..] == old(buf[off + OpSize(op)..])
  {
    hide LE32;
    var v := OpValue(op);
    var k := off + BATCH_ENTRY_HEADER_SIZE + |op.key|;
    var n := off + OpSize(op);
    ghost var b0 := buf[..];
    LayOut(buf, off, off, [OpFlag(op)]);
    ghost var b1 := buf[..];
    LayOut(buf, off, off + 1, LE32(|op.key|));
    ghost var b2 := buf[..];
    LayOut(buf, off, off + 5, LE32(|v|));
    ghost var b3 := buf[..];
    LayOut(buf, off, off + 9, op.key);
    ghost var b4 := buf[..];
    LayOut(buf, off, k, v);
    OpWritten(op, b0, b1, b2, b3, b4, buf[..], off);
  }

  lemma OpWritten(op: Op, b0: seq<byte>, b1: seq<byte>, b2: seq<byte>, b3: seq<byte>, b4: seq<byte>, b5: seq<byte>,
                  off: nat)
    requires |b0| == |b1| == |b2| == |b3| == |b4| == |b5| && 4 <= off && off + OpSize(op) <= |b0|
    requires b1[..off] == b0[..off] && b2[..off] == b1[..off] && b3[..off] == b2[..off]
    requires b4[..off] == b3[..off] && b5[..off] == b4[..off]
    requires b1[off + 1..] == b0[off + 1..] && b2[off + 5..] == b1[off + 5..] && b3[off + 9..] == b2[off + 9..]
    requires var k := off + 9 + |op.key|; b4[k..] == b3[k..]
    requires var n := off + OpSize(op); b5[n..] == b4[n..] && b5[off..n] == OpBytes(op)
    ensures b5[4..off + OpSize(op)] == b0[4..off] + OpBytes(op)
    ensures b5[off + OpSize(op)..] == b0[off + OpSize(op)..]
  {
    hide OpBytes;
    var n := off + OpSize(op);
    SameSuffix(b1, b0, off + 1, n);
    SameSuffix(b2, b1, off + 5, n);
    SameSuffix(b3, b2, off + 9, n);
    SameSuffix(b4, b3, off + 9 + |op.key|, n);
    Glue(b5, 4, off, n);
    assert b5[4..off] == b5[..off][4..] && b0[4..off] == b0[..off][4..];
  }

  /** encodeBatchRecord: header and count, then the entries one behind the other, then the checksum. */
  method EncodeBatchRecord(buf: array<byte>, tstamp: int, ops: seq<Op>) returns (n: Result<nat, CodecError>)
    requires IsInt64(tstamp)
    modifies buf
    ensures n.Ok? <==> ValidOps(ops) && RecordSize(BatchRecord(tstamp, ops)) <= buf.Length
    ensures n.Ok? ==> var r := BatchRecord(tstamp, ops);
      n.value == RecordSize(r) && buf[..n.value] == RecordBytes(r) && buf[n.value..] == old(buf[n.value..])
  {
    hide LE32, LE64, OpBytes, Crc32c.Checksum, Tail, RecordBytes;
    var bodyLen := EncodedBatchBodySize(ops);
    var total := HEADER_SIZE + bodyLen;
    if buf.Length < total {
      return Err(ShortBuffer);
    }
    ghost var before := buf[..];
    PutBatchHeader(buf, tstamp, bodyLen, |ops|);
    SameSuffix(buf[..], before, HEADER_SIZE + BATCH_COUNT_SIZE, total);
    var ok := PutOps(buf, ops, total);
    if ok.Err? {
      return Err(ok.error);
    }
    ghost var r := BatchRecord(tstamp, ops);
    BatchTail(r, LE64(tstamp) + [FLAG_BATCH] + LE32(0) + LE32(bodyLen), LE32(|ops|), OpsBytes(ops));
    var sum := Crc32c.Checksum(buf[4..total]);
    PutChecksum(buf, total, sum);
    RecordBytesOf(r);
    return Ok(total);
  }

  lemma RecordBytesOf(r: Record)
    requires IsInt64(r.tstamp)
    ensures RecordBytes(r) == LE32(Crc32c.Checksum(Tail(r))) + Tail(r)
  {
  }

  /** The loop of encodeBatchRecord. */
  method PutOps(buf: array<byte>, ops: seq<Op>, ghost total: nat) returns (r: Result<nat, CodecError>)
    requires total == HEADER_SIZE + BATCH_COUNT_SIZE + OpsSize(ops) <= buf.Length
    modifies buf
    ensures r.Ok? <==> ValidOps(ops)
    ensures r.Ok? ==> buf[4..total] == old(buf[4..HEADER_SIZE + BATCH_COUNT_SIZE]) + OpsBytes(ops)
    ensures buf[total..] == old(buf[total..])
  {
    hide OpBytes;
    var off := HEADER_SIZE + BATCH_COUNT_SIZE;
    ghost var before := buf[..];
    ghost var lead := buf[4..off];
    assert lead + [] == lead;
    for i := 0 to |ops|
      invariant off == HEADER_SIZE + BATCH_COUNT_SIZE + OpsSize(ops[..i]) <= total
      invariant buf[4..off] == lead + OpsBytes(ops[..i])
      invariant buf[total..] == before[total..]
      invariant ValidOps(ops[..i])
    {
      var op := ops[i];
      if |op.key| == 0 || |op.key| > MAX_KEY_LEN {
        return Err(KeyTooLarge);
      }
      if op.Put? && |op.value| > MAX_VAL_LEN {
        return Err(ValueTooLarge);
      }
      OpFits(ops, i);
      OpInside(ops, i);
      ghost var b := buf[..];
      PutOp(op, buf, off);
      SameSuffix(buf[..], b, off + OpSize(op), total);
      Regroup(lead, OpsBytes(ops[..i]), OpBytes(op));
      off := off + OpSize(op);
    }
    assert ops[..|ops|] == ops;
    return Ok(off);
  }

  lemma OpInside(ops: seq<Op>, i: nat)
    requires i < |ops|
    ensures OpsSize(ops[..i + 1]) <= OpsSize(ops)
  {
    OpsPrefix(ops, i + 1);
  }

  lemma TailOf(r: Record, h: seq<byte>)
    requires IsInt64(r.tstamp) && r.key == []
    requires h == LE64(r.tstamp) + [r.flag] + LE32(0) + LE32(|r.value|)
    ensures Tail(r) == h + r.value
  {
    hide LE32, LE64;
    assert |r.key| == 0;
    assert h + r.key == h;
  }

  lemma BatchTail(r: Record, h: seq<byte>, c: seq<byte>, o: seq<byte>)
    requires IsInt64(r.tstamp) && r.key == [] && r.value == c + o
    requires h == LE64(r.tstamp) + [r.flag] + LE32(0) + LE32(|r.value|)
    ensures h + c + o == Tail(r)
  {
    hide LE32, LE64, Tail;
    TailOf(r, h);
    Regroup(h, c, o);
  }

  /** The header of a batch and its entry count. */
  method PutBatchHeader(buf: array<byte>, tstamp: int, bodyLen: nat, count: nat)
    requires IsInt64(tstamp) && HEADER_SIZE + BATCH_COUNT_SIZE <= buf.Length
    modifies buf
    ensures buf[4..HEADER_SIZE + BATCH_COUNT_SIZE] ==
      LE64(tstamp) + [FLAG_BATCH] + LE32(0) + LE32(bodyLen) + LE32(count)
    ensures buf[HEADER_SIZE + BATCH_COUNT_SIZE..] == old(buf[HEADER_SIZE + BATCH_COUNT_SIZE..])
  {
    hide LE32, LE64;
    ghost var b0 := buf[..];
    LayOut(buf, 4, 4, LE64(tstamp));
    ghost var b1 := buf[..];
    LayOut(buf, 4, 12, [FLAG_BATCH]);
    ghost var b2 := buf[..];
    LayOut(buf, 4, 13, LE32(0));
    ghost var b3 := buf[..];
    LayOut(buf, 4, 17, LE32(bodyLen));
    ghost var b4 := buf[..];
    LayOut(buf, 4, 21, LE32(count));
    SameSuffix(b1, b0, 12, 25);
    SameSuffix(b2, b1, 13, 25);
    SameSuffix(b3, b2, 17, 25);
    SameSuffix(b4, b3, 21, 25);
  }

  ghost predicate IsDecoding(out: seq<Decoded>, ops: seq<Op>, recordStart: nat) {
    && |out| == |ops|
    && forall i :: 0 <= i < |ops| ==> out[i] == Decoded(ops[i],
         recordStart + HEADER_SIZE + BATCH_COUNT_SIZE + OpsSize(ops[..i]) + BATCH_ENTRY_HEADER_SIZE + |ops[i].key|)
  }

  /** decodeBatchBody: the entries of a body, or nothing when it is not what the encoder writes for some entries
      within the caps. Each value position is where the value starts in the file. */
  method DecodeBatchBody(body: seq<byte>, recordStart: nat) returns (r: Option<seq<Decoded>>)
    ensures r.Some? <==> DecodeBody(body).Some?
    ensures r.Some? ==> IsDecoding(r.value, DecodeBody(body).value, recordStart)
  {
    hide LE32, FromLE, OpBytes, OpSize, IsDecoding;
    if |body| < BATCH_COUNT_SIZE {
      ShortBody(body);
      return None;
    }
    var count := FromLE(body[0..4]);
    CountField(body);
    if count > MAX_BATCH_ENTRIES {
      return None;
    }
    if count > (|body| - BATCH_COUNT_SIZE) / (BATCH_ENTRY_HEADER_SIZE + 1) {
      CountFits(body);
      return None;
    }
    var out := [];
    ghost var done: seq<Op> := [];
    assert IsDecoding(out, done, recordStart) by { NothingDecoded(recordStart); }
    var off := BATCH_COUNT_SIZE;
    for i := 0 to count
      invariant |out| == |done| == i && ValidOps(done) && IsDecoding(out, done, recordStart)
      invariant off == BATCH_COUNT_SIZE + OpsSize(done) <= |body|
      invariant body[4..off] == OpsBytes(done)
    {
      NextOp(body, done);
      var next := ReadEntry(body, off);
      if next.None? {
        return None;
      }
      var op := next.value;
      out := out + [Decoded(op, recordStart + HEADER_SIZE + off + BATCH_ENTRY_HEADER_SIZE + |op.key|)];
      assert out[..i] + [out[i]] == out;
      DecodedMore(out, done, op, recordStart);
      OpsAppend(done, op);
      Glue(body, 4, off, off + OpSize(op));
      done := done + [op];
      off := off + OpSize(op);
    }
    if off != |body| {
      AllRead(body, done);
      return None;
    }
    LE32OfCount(body);
    WholeBody(body, done);
    DecodeBodyOfBatchBody(done);
    return Some(out);
  }

  /** One turn of the loop: the checks on the entry at off, in order, and what it holds. */
  method ReadEntry(body: seq<byte>, off: nat) returns (r: Option<Op>)
    requires off <= |body|
    ensures r.Some? ==>
      ValidOp(r.value) && off + OpSize(r.value) <= |body| && body[off..off + OpSize(r.value)] == OpBytes(r.value)
    ensures r.None? ==> forall op :: !FieldsOf(body, off, op)
  {
    hide FromLE, LE32, OpBytes;
    if off + BATCH_ENTRY_HEADER_SIZE > |body| {
      return None;
    }
    var flag := body[off];
    var kLen := FromLE(body[off + 1..off + 5]);
    var vLen := FromLE(body[off + 5..off + 9]);
    if flag != FLAG_PUT && flag != FLAG_TOMBSTONE {
      return None;
    }
    if kLen == 0 || kLen > MAX_KEY_LEN {
      return None;
    }
    if vLen > MAX_VAL_LEN {
      return None;
    }
    if flag == FLAG_TOMBSTONE && vLen != 0 {
      return None;
    }
    var kvEnd := off + BATCH_ENTRY_HEADER_SIZE + kLen + vLen;
    if kvEnd > |body| {
      return None;
    }
    var key := body[off + BATCH_ENTRY_HEADER_SIZE..off + BATCH_ENTRY_HEADER_SIZE + kLen];
    var op := Delete(key);
    if flag == FLAG_PUT {
      op := Op.Put(key, body[off + BATCH_ENTRY_HEADER_SIZE + kLen..kvEnd]);
    }
    ReadOp(body, off, op, kLen, vLen);
    return Some(op);
  }

  lemma WholeBody(body: seq<byte>, done: seq<Op>)
    requires 4 <= |body| && body[..4] == LE32(|done|) && body[4..|body|] == OpsBytes(done)
    ensures body == BatchBody(done)
  {
    hide LE32, OpsBytes;
    assert body == body[..4] + body[4..|body|];
  }

  lemma NothingDecoded(recordStart: nat)
    ensures IsDecoding([], [], recordStart)
  {
  }

  lemma DecodedMore(out: seq<Decoded>, done: seq<Op>, op: Op, recordStart: nat)
    requires |out| == |done| + 1 && IsDecoding(out[..|done|], done, recordStart)
    requires out[|done|] == Decoded(op,
      recordStart + HEADER_SIZE + BATCH_COUNT_SIZE + OpsSize(done) + BATCH_ENTRY_HEADER_SIZE + |op.key|)
    ensures IsDecoding(out, done + [op], recordStart)
  {
    hide OpsSize;
    assert forall j :: 0 <= j <= |done| ==> (done + [op])[..j] == done[..j];
    assert done[..|done|] == done;
    assert forall j :: 0 <= j < |done| ==> out[j] == out[..|done|][j];
  }

  lemma ShortBody(body: seq<byte>)
    requires |body| < BATCH_COUNT_SIZE
    ensures DecodeBody(body).None?
  {
  }

  lemma CountField(body: seq<byte>)
    requires BATCH_COUNT_SIZE <= |body|
    ensures DecodeBody(body).Some? ==> FromLE(body[0..4]) == |DecodeBody(body).value| <= MAX_BATCH_ENTRIES
  {
    hide LE32, OpsBytes;
    if DecodeBody(body).Some? {
      var ops := DecodeBody(body).value;
      assert body[0..4] == LE32(|ops|);
      LE32RoundTrip(|ops|);
    }
  }

  lemma {:induction false} OpsSizeAtLeast(ops: seq<Op>)
    requires ValidOps(ops)
    ensures (BATCH_ENTRY_HEADER_SIZE + 1) * |ops| <= OpsSize(ops)
  {
    if ops != [] {
      OpsSizeAtLeast(ops[..|ops| - 1]);
    }
  }

  /** The capacity check turns no encoded body away. */
  lemma CountFits(body: seq<byte>)
    requires BATCH_COUNT_SIZE <= |body|
    ensures DecodeBody(body).Some? ==>
      |DecodeBody(body).value| <= (|body| - BATCH_COUNT_SIZE) / (BATCH_ENTRY_HEADER_SIZE + 1)
  {
    hide LE32;
    if DecodeBody(body).Some? {
      OpsSizeAtLeast(DecodeBody(body).value);
    }
  }

  /** What the loop finds next, when the body is an encoder's: an entry that passes every check. */
  ghost predicate FieldsOf(body: seq<byte>, off: nat, op: Op) {
    && ValidOp(op) && off + OpSize(op) <= |body|
    && body[off] == OpFlag(op)
    && FromLE(body[off + 1..off + 5]) == |op.key| && FromLE(body[off + 5..off + 9]) == |OpValue(op)|
  }

  /** An encoder's body goes on from the entries read so far. */
  lemma Continues(body: seq<byte>, done: seq<Op>)
    requires BATCH_COUNT_SIZE + OpsSize(done) <= |body| && ValidOps(done)
    requires body[4..BATCH_COUNT_SIZE + OpsSize(done)] == OpsBytes(done)
    requires |done| <= FromLE(body[0..4]) && DecodeBody(body).Some?
    ensures var ops := DecodeBody(body).value;
      FromLE(body[0..4]) == |ops| && ops[..|done|] == done && body[4..] == OpsBytes(ops) && ValidOps(ops)
  {
    hide LE32, FromLE, OpsBytes, OpsSize;
    CountField(body);
    BodyOps(body);
    var ops := DecodeBody(body).value;
    SubSlice(body, 4, |body| - 4, 0, OpsSize(done));
    assert body[4..|body|] == body[4..];
    PrefixDetermined(body[4..], ops, done);
  }

  lemma BodyOps(body: seq<byte>)
    requires DecodeBody(body).Some?
    ensures 4 <= |body| && body[4..] == OpsBytes(DecodeBody(body).value) && ValidOps(DecodeBody(body).value)
  {
    hide LE32, OpsBytes;
  }

  lemma NextOp(body: seq<byte>, done: seq<Op>)
    requires BATCH_COUNT_SIZE + OpsSize(done) <= |body| && ValidOps(done)
    requires body[4..BATCH_COUNT_SIZE + OpsSize(done)] == OpsBytes(done)
    requires |done| < FromLE(body[0..4])
    ensures DecodeBody(body).Some? ==>
      |done| < |DecodeBody(body).value|
      && FieldsOf(body, BATCH_COUNT_SIZE + OpsSize(done), DecodeBody(body).value[|done|])
  {
    if DecodeBody(body).Some? {
      hide LE32, OpBytes, FromLE, ValidOp, OpsSize, OpsBytes, DecodeBody;
      Continues(body, done);
      OpInBody(body, DecodeBody(body).value, |done|, done);
    }
  }

  lemma OpInBody(body: seq<byte>, ops: seq<Op>, i: nat, done: seq<Op>)
    requires 4 <= |body| && body[4..] == OpsBytes(ops) && i < |ops| && ops[..i] == done && ValidOps(ops)
    ensures FieldsOf(body, 4 + OpsSize(done), ops[i])
  {
    hide OpBytes, OpSize, ValidOp, FromLE;
    OpAt(ops, i);
    var off, n := 4 + OpsSize(done), OpSize(ops[i]);
    assert body[4..|body|] == body[4..];
    assert body[off..off + n] == OpBytes(ops[i]) by {
      SubSlice(body, 4, |body| - 4, OpsSize(ops[..i]), OpsSize(ops[..i + 1]));
    }
    OpFields(ops[i], body, off);
  }

  /** The bytes of an entry that passed the checks are the encoding of what was read from them. */
  lemma ReadOp(body: seq<byte>, off: nat, op: Op, kLen: nat, vLen: nat)
    requires off + BATCH_ENTRY_HEADER_SIZE + kLen + vLen <= |body|
    requires kLen == FromLE(body[off + 1..off + 5]) && vLen == FromLE(body[off + 5..off + 9])
    requires body[off] == OpFlag(op) && |op.key| == kLen && |OpValue(op)| == vLen
    requires op.key == body[off + 9..off + 9 + kLen]
    requires OpValue(op) == body[off + 9 + kLen..off + 9 + kLen + vLen]
    ensures body[off..off + OpSize(op)] == OpBytes(op)
  {
    hide LE32, FromLE;
    FromLE32Bound(body[off + 1..off + 5]);
    FromLE32Bound(body[off + 5..off + 9]);
    assert body[off..off + 1] == [body[off]];
    Glue(body, off, off + 1, off + 5);
    Glue(body, off, off + 5, off + 9);
    Glue(body, off, off + 9, off + 9 + kLen);
    Glue(body, off, off + 9 + kLen, off + 9 + kLen + vLen);
  }

  lemma AllRead(body: seq<byte>, done: seq<Op>)
    requires BATCH_COUNT_SIZE + OpsSize(done) <= |body| && ValidOps(done)
    requires body[4..BATCH_COUNT_SIZE + OpsSize(done)] == OpsBytes(done)
    requires |done| == FromLE(body[0..4])
    ensures DecodeBody(body).Some? ==> |body| == BATCH_COUNT_SIZE + OpsSize(done)
  {
    hide LE32, OpBytes, FromLE, ValidOp, OpsSize;
    if DecodeBody(body).Some? {
      Continues(body, done);
      assert DecodeBody(body).value[..|done|] == DecodeBody(body).value;
    }
  }

  lemma LE32OfCount(body: seq<byte>)
    requires BATCH_COUNT_SIZE <= |body|
    ensures body[..4] == LE32(FromLE(body[0..4]))
  {
    FromLE32Bound(body[0..4]);
    assert body[0..4] == body[..4];
  }
}
