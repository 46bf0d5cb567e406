/** readRecord of record.go, the reader the compactor uses: other checks in another order than recovery's, and a
    different verdict on a header with nothing behind it. */
module RecordReader {
  import opened Bytes
  import opened Record
  import opened Recovery
  import Crc32c

  /** Eof is io.EOF, which a caller takes for the end of the segment. */
  datatype Read = Eof | UnexpectedEof | Malformed | Rec(rec: Record)

  /** A whole header with lengths a reader allows stands at off, it announces a body, and the file ends there. */
  ghost predicate HeaderOnly(b: seq<byte>, off: nat) {
    && off + HEADER_SIZE == |b| && LengthsOk(b[off + 12], KeyLenAt(b, off), ValLenAt(b, off))
    && KeyLenAt(b, off) + ValLenAt(b, off) > 0
  }

  predicate LengthsOk(flag: byte, keyLen: nat, valLen: nat) {
    if flag == FLAG_BATCH then keyLen == 0 && BATCH_COUNT_SIZE <= valLen <= MAX_BATCH_BODY_LEN
    else (flag == FLAG_PUT || flag == FLAG_TOMBSTONE) && 1 <= keyLen <= MAX_KEY_LEN && valLen <= MAX_VAL_LEN
  }

  /** A batch's body is not looked into here. */
  ghost predicate Decodes(r: Record) {
    r.flag == FLAG_BATCH ==> DecodeBody(r.value).Some?
  }

  /** The value of a tombstone is not kept. */
  function Stripped(r: Record): Record {
    if r.flag == FLAG_TOMBSTONE then r.(value := []) else r
  }

  /** readRecord agrees with recovery's parser on every record that one accepts, accepts nothing else but batches with
      a body that does not decode, and reports the end of the segment in one more case than the end of the bytes: a
      header with no body behind it, which is a torn record to recovery. n is the number of bytes a record took. */
  method ReadRecord(b: seq<byte>, off: nat) returns (r: Read, n: nat)
    requires off <= |b|
    ensures ParseAt(b, off).Good? ==> r == Rec(Stripped(ParseAt(b, off).rec)) && n == RecordSize(ParseAt(b, off).rec)
    ensures HeaderOnly(b, off) ==> ParseAt(b, off).Torn?
    ensures r.Rec? && !ParseAt(b, off).Good? ==> ParseAt(b, off).Corrupt? && !Decodes(r.rec)
    ensures r.Eof? <==> ParseAt(b, off).End? || HeaderOnly(b, off)
    ensures r.UnexpectedEof? ==> ParseAt(b, off).Torn?
  {
    hide FromLE, Int64At, Crc32c.Checksum, Crc32c.Update;
    if off == |b| {
      return Eof, 0;
    }
    if |b| - off < HEADER_SIZE {
      return UnexpectedEof, 0;
    }
    var expectedCRC := FromLE(b[off..off + 4]);
    var tstamp := Int64At(b[off + 4..off + 12]);
    var flag := b[off + 12];
    var keyLen := FromLE(b[off + 13..off + 17]);
    var valLen := FromLE(b[off + 17..off + 21]);
    if flag != FLAG_PUT && flag != FLAG_TOMBSTONE && flag != FLAG_BATCH {
      return Malformed, 0;
    }
    if flag == FLAG_BATCH {
      if keyLen != 0 || valLen < BATCH_COUNT_SIZE || valLen > MAX_BATCH_BODY_LEN {
        return Malformed, 0;
      }
    } else {
      if keyLen == 0 || keyLen > MAX_KEY_LEN || valLen > MAX_VAL_LEN {
        return Malformed, 0;
      }
    }
    var bodyStart, size := off + HEADER_SIZE, keyLen + valLen;
    if bodyStart + size > |b| {
      return if bodyStart == |b| then Eof else UnexpectedEof, 0;
    }
    var body := b[bodyStart..bodyStart + size];
    var sum := Crc32c.Update(Crc32c.INIT, b[off + 4..bodyStart]);
    sum := Crc32c.Update(sum, body);
    SplitSum(b, off + 4, bodyStart, bodyStart + size);
    if Crc32c.Sum32(sum) != expectedCRC {
      return Malformed, 0;
    }
    SubSlice(b, bodyStart, size, 0, keyLen);
    SubSlice(b, bodyStart, size, keyLen, size);
    var value := [];
    if flag == FLAG_PUT {
      value := body[keyLen..];
    }
    if flag == FLAG_BATCH {
      value := body;
    }
    return Rec(Record(tstamp, flag, body[..keyLen], value)), HEADER_SIZE + size;
  }
}
