/** The on-disk record of a segment: layout, encoders, and the parser's verdict on arbitrary bytes. */
module Record {
  import opened Bytes
  import opened Wrappers
  import Crc32c

  const HEADER_SIZE := 21
  const MAX_KEY_LEN := 64 * 1024
  const MAX_VAL_LEN := 16 * 1024 * 1024
  const BATCH_COUNT_SIZE := 4
  const BATCH_ENTRY_HEADER_SIZE := 9
  const MAX_BATCH_BODY_LEN := 0x4000_0000
  const MAX_BATCH_ENTRIES := 0x10_0000

  const FLAG_PUT: byte := 0
  const FLAG_TOMBSTONE: byte := 1
  const FLAG_BATCH: byte := 2

  type Key = seq<byte>
  type Value = seq<byte>

  /** One operation on one key; a delete carries no value. */
  datatype Op = Put(key: Key, value: Value) | Delete(key: Key)

  /** One log record. The value of a BATCH record is its whole body. */
  datatype Record = Record(tstamp: int, flag: byte, key: Key, value: Value)

  function PutRecord(t: int, k: Key, v: Value): Record {
    Record(t, FLAG_PUT, k, v)
  }

  function TombstoneRecord(t: int, k: Key): Record {
    Record(t, FLAG_TOMBSTONE, k, [])
  }

  ghost function BatchRecord(t: int, ops: seq<Op>): Record {
    Record(t, FLAG_BATCH, [], BatchBody(ops))
  }

  // ---------------------------------------------------------------- batch bodies

  predicate ValidKey(k: Key) {
    1 <= |k| <= MAX_KEY_LEN
  }

  predicate ValidOp(op: Op) {
    ValidKey(op.key) && (op.Put? ==> |op.value| <= MAX_VAL_LEN)
  }

  function OpValue(op: Op): Value {
    if op.Put? then op.value else []
  }

  function OpFlag(op: Op): byte {
    if op.Put? then FLAG_PUT else FLAG_TOMBSTONE
  }

  function OpSize(op: Op): nat {
    BATCH_ENTRY_HEADER_SIZE + |op.key| + |OpValue(op)|
  }

  function OpBytes(op: Op): (b: seq<byte>)
    ensures |b| == OpSize(op)
  {
    [OpFlag(op)] + LE32(|op.key|) + LE32(|OpValue(op)|) + op.key + OpValue(op)
  }

  function OpsSize(ops: seq<Op>): nat {
    if ops == [] then 0 else OpsSize(ops[..|ops| - 1]) + OpSize(ops[|ops| - 1])
  }

  ghost function OpsBytes(ops: seq<Op>): (b: seq<byte>)
    ensures |b| == OpsSize(ops)
  {
    if ops == [] then [] else OpsBytes(ops[..|ops| - 1]) + OpBytes(ops[|ops| - 1])
  }

  ghost function BatchBody(ops: seq<Op>): seq<byte> {
    LE32(|ops|) + OpsBytes(ops)
  }

  ghost predicate ValidOps(ops: seq<Op>) {
    forall i :: 0 <= i < |ops| ==> ValidOp(ops[i])
  }

  /** b is what the encoder writes for ops, within the caps. */
  ghost predicate IsBatchBody(b: seq<byte>, ops: seq<Op>) {
    |ops| <= MAX_BATCH_ENTRIES && ValidOps(ops) && b == BatchBody(ops)
  }

  /** The reference decoder: the inverse of the encoder, where it has one. */
  ghost function DecodeBody(b: seq<byte>): (r: Option<seq<Op>>)
    ensures r.Some? ==> IsBatchBody(b, r.value)
  {
    if exists ops :: IsBatchBody(b, ops) then
      var ops :| IsBatchBody(b, ops); Some(ops)
    else
      None
  }

  lemma OpsAppend(ops: seq<Op>, op: Op)
    ensures OpsBytes(ops + [op]) == OpsBytes(ops) + OpBytes(op)
    ensures OpsSize(ops + [op]) == OpsSize(ops) + OpSize(op)
  {
    assert (ops + [op])[..|ops + [op]| - 1] == ops;
  }

  /** The bytes of a prefix of the entries are a prefix of the bytes. */
  lemma {:induction false} OpsPrefix(ops: seq<Op>, i: nat)
    requires i <= |ops|
    ensures OpsSize(ops[..i]) <= OpsSize(ops)
    ensures OpsBytes(ops)[..OpsSize(ops[..i])] == OpsBytes(ops[..i])
  {
    if i == |ops| {
      assert ops[..i] == ops;
    } else {
      var front := ops[..|ops| - 1];
      OpsPrefix(front, i);
      assert front[..i] == ops[..i];
      assert OpsBytes(ops)[..OpsSize(ops[..i])] == OpsBytes(front)[..OpsSize(ops[..i])];
    }
  }

  lemma OpFits(ops: seq<Op>, i: nat)
    requires i < |ops|
    ensures ops[..i + 1] == ops[..i] + [ops[i]]
    ensures OpsSize(ops[..i + 1]) == OpsSize(ops[..i]) + OpSize(ops[i])
    ensures OpsBytes(ops[..i + 1]) == OpsBytes(ops[..i]) + OpBytes(ops[i])
  {
    hide OpBytes, OpSize;
    assert ops[..i + 1] == ops[..i] + [ops[i]];
    OpsAppend(ops[..i], ops[i]);
  }

  /** Entry i of a batch sits right after the entries before it. */
  lemma OpAt(ops: seq<Op>, i: nat)
    requires i < |ops|
    ensures OpsSize(ops[..i]) + OpSize(ops[i]) == OpsSize(ops[..i + 1]) <= OpsSize(ops)
    ensures OpsBytes(ops)[OpsSize(ops[..i])..OpsSize(ops[..i + 1])] == OpBytes(ops[i])
  {
    hide OpBytes, OpSize, OpsBytes, OpsSize;
    OpsPrefix(ops, i + 1);
    OpFits(ops, i);
    EndOf(OpsBytes(ops), OpsSize(ops[..i + 1]), OpsBytes(ops[..i]), OpBytes(ops[i]));
  }

  lemma OpLayout(op: Op)
    ensures var e := OpBytes(op); var k := 9 + |op.key|;
      e[0] == OpFlag(op) && e[1..5] == LE32(|op.key|) && e[5..9] == LE32(|OpValue(op)|)
      && e[9..k] == op.key && e[k..] == OpValue(op)
  {
    hide LE32;
  }

  /** The fields the decoder reads at off, when an encoded entry sits there. */
  lemma OpFields(op: Op, b: seq<byte>, off: nat)
    requires ValidOp(op)
    requires off + OpSize(op) <= |b| && b[off..off + OpSize(op)] == OpBytes(op)
    ensures b[off] == OpFlag(op)
    ensures FromLE(b[off + 1..off + 5]) == |op.key|
    ensures FromLE(b[off + 5..off + 9]) == |OpValue(op)|
    ensures b[off + 9..off + 9 + |op.key|] == op.key
    ensures b[off + 9 + |op.key|..off + OpSize(op)] == OpValue(op)
  {
    hide LE32, OpBytes, FromLE;
    var n, k := OpSize(op), 9 + |op.key|;
    OpLayout(op);
    assert b[off..off + n][0] == b[off];
    SubSlice(b, off, n, 1, 5);
    SubSlice(b, off, n, 5, 9);
    SubSlice(b, off, n, 9, k);
    SubSlice(b, off, n, k, n);
    LE32RoundTrip(|op.key|);
    LE32RoundTrip(|OpValue(op)|);
  }

  /** Any decoding of b continues the entries already read from its front. */
  lemma {:induction false} PrefixDetermined(b: seq<byte>, ops: seq<Op>, done: seq<Op>)
    requires ValidOps(ops) && ValidOps(done) && |done| <= |ops|
    requires OpsSize(done) <= |b| && b[..OpsSize(done)] == OpsBytes(done)
    requires b == OpsBytes(ops)
    ensures ops[..|done|] == done
  {
    hide OpBytes, OpSize, ValidOp;
    if done != [] {
      var k := |done| - 1;
      OpsPrefix(done, k);
      assert b[..OpsSize(done[..k])] == OpsBytes(done)[..OpsSize(done[..k])];
      PrefixDetermined(b, ops, done[..k]);
      LastOpBytes(b, done);
      OpAt(ops, k);
      SameOp(b, OpsSize(done[..k]), ops[k], done[k]);
      assert ops[..k + 1] == ops[..k] + [ops[k]];
    }
  }

  lemma LastOpBytes(b: seq<byte>, done: seq<Op>)
    requires done != [] && OpsSize(done) <= |b| && b[..OpsSize(done)] == OpsBytes(done)
    ensures var k := |done| - 1;
      OpsSize(done[..k]) + OpSize(done[k]) == OpsSize(done)
      && b[OpsSize(done[..k])..OpsSize(done)] == OpBytes(done[k])
  {
    hide OpBytes, OpSize;
    OpAt(done, |done| - 1);
    assert done[..|done|] == done;
    SubSlice(b, 0, OpsSize(done), OpsSize(done[..|done| - 1]), OpsSize(done));
  }

  /** The bytes at off determine the entry there. */
  lemma SameOp(b: seq<byte>, off: nat, x: Op, y: Op)
    requires ValidOp(x) && ValidOp(y)
    requires off + OpSize(x) <= |b| && b[off..off + OpSize(x)] == OpBytes(x)
    requires off + OpSize(y) <= |b| && b[off..off + OpSize(y)] == OpBytes(y)
    ensures x == y
  {
    hide OpBytes, FromLE;
    OpFields(x, b, off);
    OpFields(y, b, off);
  }

  /** The decoder undoes the encoder: no two entry lists share a body. */
  lemma DecodeBodyOfBatchBody(ops: seq<Op>)
    requires |ops| <= MAX_BATCH_ENTRIES && ValidOps(ops)
    ensures DecodeBody(BatchBody(ops)) == Some(ops)
  {
    var b := BatchBody(ops);
    assert IsBatchBody(b, ops);
    var back := DecodeBody(b).value;
    assert b[..4] == LE32(|ops|) == LE32(|back|);
    LE32RoundTrip(|ops|);
    LE32RoundTrip(|back|);
    assert b[4..] == OpsBytes(ops) == OpsBytes(back);
    PrefixDetermined(b[4..], back, ops);
    assert back == back[..|ops|];
  }

  // ---------------------------------------------------------------- records

  function RecordSize(r: Record): nat {
    HEADER_SIZE + |r.key| + |r.value|
  }

  /** Everything after the checksum: the rest of the header, then the body. */
  function Tail(r: Record): (b: seq<byte>)
    requires IsInt64(r.tstamp)
    ensures |b| == RecordSize(r) - 4
  {
    LE64(r.tstamp) + [r.flag] + LE32(|r.key|) + LE32(|r.value|) + r.key + r.value
  }

  function RecordBytes(r: Record): (b: seq<byte>)
    requires IsInt64(r.tstamp)
    ensures |b| == RecordSize(r)
  {
    LE32(Crc32c.Checksum(Tail(r))) + Tail(r)
  }

  /** What both readers accept once the bytes are all there. */
  ghost predicate ValidRecord(r: Record) {
    && IsInt64(r.tstamp)
    && (r.flag == FLAG_PUT || r.flag == FLAG_TOMBSTONE || r.flag == FLAG_BATCH)
    && (r.flag == FLAG_BATCH ==>
      |r.key| == 0 && BATCH_COUNT_SIZE <= |r.value| <= MAX_BATCH_BODY_LEN && DecodeBody(r.value).Some?)
    && (r.flag != FLAG_BATCH ==> ValidKey(r.key) && |r.value| <= MAX_VAL_LEN)
  }

  /** The header fields at off. */
  function TstampAt(b: seq<byte>, off: nat): int
    requires off + HEADER_SIZE <= |b|
  {
    Int64At(b[off + 4..off + 12])
  }

  function KeyLenAt(b: seq<byte>, off: nat): nat
    requires off + HEADER_SIZE <= |b|
  {
    FromLE(b[off + 13..off + 17])
  }

  function ValLenAt(b: seq<byte>, off: nat): nat
    requires off + HEADER_SIZE <= |b|
  {
    FromLE(b[off + 17..off + 21])
  }

  /** What a reader finds at off: the end, too few bytes, bytes no encoder wrote, or a record. */
  datatype Parse = End | Torn | Corrupt | Good(rec: Record)

  ghost function ParseAt(b: seq<byte>, off: nat): (p: Parse)
    requires off <= |b|
    ensures p.Good? ==> ValidRecord(p.rec) && off + RecordSize(p.rec) <= |b|
  {
    if off == |b| then End
    else if off + HEADER_SIZE > |b| then Torn
    else
      var keyEnd := off + HEADER_SIZE + KeyLenAt(b, off);
      var end := keyEnd + ValLenAt(b, off);
      if end > |b| then Torn
      else
        var r := Record(TstampAt(b, off), b[off + 12], b[off + HEADER_SIZE..keyEnd], b[keyEnd..end]);
        if ValidRecord(r) && FromLE(b[off..off + 4]) == Crc32c.Checksum(b[off + 4..end]) then Good(r)
        else Corrupt
  }

  lemma RecordLayout(r: Record)
    requires IsInt64(r.tstamp)
    ensures var e := RecordBytes(r); var k := HEADER_SIZE + |r.key|;
      e[..4] == LE32(Crc32c.Checksum(Tail(r))) && e[4..] == Tail(r) && e[4..12] == LE64(r.tstamp)
      && e[12] == r.flag && e[13..17] == LE32(|r.key|) && e[17..21] == LE32(|r.value|)
      && e[HEADER_SIZE..k] == r.key && e[k..] == r.value
  {
    hide LE32, LE64, Crc32c.Checksum;
    var e, t, k := RecordBytes(r), Tail(r), HEADER_SIZE + |r.key|;
    assert e[4..] == t;
    assert t[..8] == LE64(r.tstamp) && t[8] == r.flag && t[9..13] == LE32(|r.key|) && t[13..17] == LE32(|r.value|);
    assert t[17..k - 4] == r.key && t[k - 4..] == r.value;
    SubSlice(e, 4, |t|, 0, 8);
    SubSlice(e, 4, |t|, 9, 13);
    SubSlice(e, 4, |t|, 13, 17);
    SubSlice(e, 4, |t|, 17, k - 4);
    SubSlice(e, 4, |t|, k - 4, |t|);
    assert e[12] == e[4..][8];
  }

  /** The header of an encoded record, read back. */
  lemma HeaderFields(r: Record, b: seq<byte>, off: nat)
    requires IsInt64(r.tstamp) && |r.key| < U32_LIMIT && |r.value| < U32_LIMIT
    requires off + HEADER_SIZE <= |b| && b[off..off + HEADER_SIZE] == RecordBytes(r)[..HEADER_SIZE]
    ensures TstampAt(b, off) == r.tstamp && b[off + 12] == r.flag
    ensures KeyLenAt(b, off) == |r.key| && ValLenAt(b, off) == |r.value|
    ensures FromLE(b[off..off + 4]) == Crc32c.Checksum(Tail(r))
  {
    hide LE32, LE64, Crc32c.Checksum, RecordBytes, FromLE, Int64At, Tail;
    RecordLayout(r);
    var h, e := b[off..off + HEADER_SIZE], RecordBytes(r);
    SameFront(e, h, 0, 4);
    SameFront(e, h, 4, 12);
    SameFront(e, h, 13, 17);
    SameFront(e, h, 17, 21);
    assert h[12] == e[12] && h[12] == b[off + 12];
    SubSlice(b, off, HEADER_SIZE, 0, 4);
    SubSlice(b, off, HEADER_SIZE, 4, 12);
    SubSlice(b, off, HEADER_SIZE, 13, 17);
    SubSlice(b, off, HEADER_SIZE, 17, 21);
    LE64RoundTrip(r.tstamp);
    LE32RoundTrip(|r.key|);
    LE32RoundTrip(|r.value|);
    LE32RoundTrip(Crc32c.Checksum(Tail(r)));
  }

  lemma SameFront<T>(e: seq<T>, h: seq<T>, i: nat, j: nat)
    requires h <= e && i <= j <= |h|
    ensures h[i..j] == e[i..j]
  {
  }

  /** Decode after encode, at any offset and with anything behind the record. */
  lemma ParseOfRecordBytes(r: Record, b: seq<byte>, off: nat)
    requires ValidRecord(r)
    requires off + RecordSize(r) <= |b| && b[off..off + RecordSize(r)] == RecordBytes(r)
    ensures ParseAt(b, off) == Good(r)
  {
    hide Crc32c.Checksum, RecordBytes, FromLE, Tail, KeyLenAt, ValLenAt, TstampAt;
    var n, k := RecordSize(r), HEADER_SIZE + |r.key|;
    SubSlice(b, off, n, 0, HEADER_SIZE);
    HeaderFields(r, b, off);
    RecordLayout(r);
    SubSlice(b, off, n, HEADER_SIZE, k);
    SubSlice(b, off, n, k, n);
    SubSlice(b, off, n, 4, n);
  }

  /** Encode after decode: a record is accepted only where its own encoding stands. */
  lemma RecordBytesOfParse(b: seq<byte>, off: nat)
    requires off <= |b| && ParseAt(b, off).Good?
    ensures b[off..off + RecordSize(ParseAt(b, off).rec)] == RecordBytes(ParseAt(b, off).rec)
  {
    hide Crc32c.Checksum, FromLE, Int64At, LE32, LE64;
    var r := ParseAt(b, off).rec;
    var end, keyEnd := off + RecordSize(r), off + HEADER_SIZE + |r.key|;
    FromLE32Bound(b[off..off + 4]);
    FromLE32Bound(b[off + 13..off + 17]);
    FromLE32Bound(b[off + 17..off + 21]);
    Int64AtInverse(b[off + 4..off + 12]);
    assert [b[off + 12]] == b[off + 12..off + 13];
    Glue(b, off + 4, off + 12, off + 13);
    Glue(b, off + 4, off + 13, off + 17);
    Glue(b, off + 4, off + 17, off + 21);
    Glue(b, off + 4, off + 21, keyEnd);
    Glue(b, off + 4, keyEnd, end);
    Glue(b, off, off + 4, end);
  }

  /** A proper cut of an encoded record is seen as torn, or as the end when nothing is left. */
  lemma ParseOfTornRecord(r: Record, b: seq<byte>, off: nat)
    requires ValidRecord(r)
    requires off <= |b| && b[off..] < RecordBytes(r)
    ensures ParseAt(b, off) == if off == |b| then End else Torn
  {
    hide Crc32c.Checksum, RecordBytes, FromLE, Tail, KeyLenAt, ValLenAt, TstampAt;
    if off + HEADER_SIZE <= |b| {
      SubSlice(b, off, |b| - off, 0, HEADER_SIZE);
      assert b[off..|b|] == b[off..];
      SameFront(RecordBytes(r), b[off..], 0, HEADER_SIZE);
      HeaderFields(r, b, off);
    }
  }

  // ---------------------------------------------------------------- the format in numbers

  /** The kinds of records and of batch entries, and where a batch has its count. */
  lemma KindNumbers(t: int, k: Key, v: Value, ops: seq<Op>)
    requires IsInt64(t)
    ensures RecordBytes(PutRecord(t, k, v))[12] == 0
    ensures RecordBytes(TombstoneRecord(t, k))[12] == 1 && TombstoneRecord(t, k).value == []
    ensures RecordBytes(BatchRecord(t, ops))[12] == 2 && BatchRecord(t, ops).key == []
    ensures OpBytes(Put(k, v))[0] == 0 && OpBytes(Delete(k))[0] == 1 && |OpBytes(Delete(k))| == 9 + |k|
    ensures BatchBody(ops)[..4] == LE32(|ops|)
  {
    hide RecordBytes, LE32;
    RecordLayout(PutRecord(t, k, v));
    RecordLayout(TombstoneRecord(t, k));
    RecordLayout(BatchRecord(t, ops));
  }

  /** What is accepted of a record whose bytes are all there. */
  lemma RecordLimits(r: Record)
    ensures ValidRecord(r) <==>
      && -0x8000_0000_0000_0000 <= r.tstamp < 0x8000_0000_0000_0000
      && (if r.flag == 2 then |r.key| == 0 && 4 <= |r.value| <= 0x4000_0000 && exists ops :: IsBatchBody(r.value, ops)
          else r.flag <= 1 && 1 <= |r.key| <= 65_536 && |r.value| <= 16_777_216)
  {
    hide IsBatchBody;
  }
}
