/** A segment as a list of records, and the key operations in it with the byte positions of their values. */
module Log {
  import opened Bytes
  import opened Wrappers
  import opened Record

  /** One operation of a log: pos is the offset of the value bytes in the segment. */
  datatype Item = Item(op: Op, pos: nat, tstamp: int)

  type Log = seq<Record>

  ghost predicate ValidLog(log: Log) {
    forall i :: 0 <= i < |log| ==> ValidRecord(log[i])
  }

  function LogSize(log: Log): nat {
    if log == [] then 0 else LogSize(log[..|log| - 1]) + RecordSize(log[|log| - 1])
  }

  ghost function Print(log: Log): (b: seq<byte>)
    requires ValidLog(log)
    ensures |b| == LogSize(log)
  {
    if log == [] then [] else Print(log[..|log| - 1]) + RecordBytes(log[|log| - 1])
  }

  function OpsItems(ops: seq<Op>, base: nat, t: int): (items: seq<Item>)
    ensures |items| == |ops|
    ensures forall i :: 0 <= i < |ops| ==> items[i].op == ops[i] && items[i].tstamp == t
  {
    if ops == [] then [] else
      var k := |ops| - 1;
      OpsItems(ops[..k], base, t)
      + [Item(ops[k], base + OpsSize(ops[..k]) + BATCH_ENTRY_HEADER_SIZE + |ops[k].key|, t)]
  }

  ghost function RecordItems(r: Record, off: nat): (items: seq<Item>)
    ensures forall i :: 0 <= i < |items| ==> items[i].tstamp == r.tstamp
  {
    var pos := off + HEADER_SIZE + |r.key|;
    if r.flag == FLAG_PUT then [Item(Put(r.key, r.value), pos, r.tstamp)]
    else if r.flag == FLAG_TOMBSTONE then [Item(Delete(r.key), pos, r.tstamp)]
    else if DecodeBody(r.value).Some? then
      OpsItems(DecodeBody(r.value).value, off + HEADER_SIZE + BATCH_COUNT_SIZE, r.tstamp)
    else []
  }

  ghost function LogItems(log: Log): seq<Item> {
    if log == [] then [] else
      var k := |log| - 1;
      LogItems(log[..k]) + RecordItems(log[k], LogSize(log[..k]))
  }

  lemma Append(log: Log, r: Record)
    ensures LogSize(log + [r]) == LogSize(log) + RecordSize(r)
    ensures LogItems(log + [r]) == LogItems(log) + RecordItems(r, LogSize(log))
    ensures ValidLog(log) && ValidRecord(r) ==>
      ValidLog(log + [r]) && Print(log + [r]) == Print(log) + RecordBytes(r)
  {
    assert (log + [r])[..|log + [r]| - 1] == log;
  }

  /** Items lie in order inside [lo, hi], each one's value ending before the next one's begins. */
  ghost predicate Ordered(items: seq<Item>, lo: nat, hi: nat) {
    && (forall i :: 0 <= i < |items| ==> lo < items[i].pos && items[i].pos + |OpValue(items[i].op)| <= hi)
    && (forall i, j :: 0 <= i < j < |items| ==> items[i].pos + |OpValue(items[i].op)| < items[j].pos)
  }

  lemma {:induction false} OpsItemsOrdered(ops: seq<Op>, base: nat, t: int)
    requires ValidOps(ops)
    ensures Ordered(OpsItems(ops, base, t), base, base + OpsSize(ops))
  {
    if ops != [] {
      var k := |ops| - 1;
      OpsItemsOrdered(ops[..k], base, t);
    }
  }

  lemma RecordItemsOrdered(r: Record, off: nat)
    requires ValidRecord(r)
    ensures Ordered(RecordItems(r, off), off, off + RecordSize(r))
  {
    if r.flag == FLAG_BATCH {
      var ops := DecodeBody(r.value).value;
      OpsItemsOrdered(ops, off + HEADER_SIZE + BATCH_COUNT_SIZE, r.tstamp);
    }
  }

  /** No two operations of a log share a value position. */
  lemma {:induction false} LogItemsOrdered(log: Log)
    requires ValidLog(log)
    ensures Ordered(LogItems(log), 0, LogSize(log))
  {
    hide RecordItems, RecordSize;
    if log != [] {
      var k := |log| - 1;
      LogItemsOrdered(log[..k]);
      RecordItemsOrdered(log[k], LogSize(log[..k]));
    }
  }

  /** The bytes an item points at are its value. */
  ghost predicate Shows(b: seq<byte>, item: Item) {
    && item.pos + |OpValue(item.op)| <= |b|
    && b[item.pos..item.pos + |OpValue(item.op)|] == OpValue(item.op)
  }

  lemma ShowsLater(b: seq<byte>, c: seq<byte>, item: Item)
    requires Shows(b, item)
    ensures Shows(b + c, item)
  {
    SameFront(b + c, b, item.pos, item.pos + |OpValue(item.op)|);
  }

  lemma {:induction false} OpsItemsAt(ops: seq<Op>, base: nat, t: int, i: nat)
    requires i < |ops|
    ensures OpsItems(ops, base, t)[i] ==
      Item(ops[i], base + OpsSize(ops[..i]) + BATCH_ENTRY_HEADER_SIZE + |ops[i].key|, t)
  {
    var k := |ops| - 1;
    if i < k {
      OpsItemsAt(ops[..k], base, t, i);
      assert ops[..k][..i] == ops[..i];
    }
  }

  /** Entry i of a batch whose entries start at base. */
  lemma OpsItemsShown(ops: seq<Op>, base: nat, t: int, b: seq<byte>, i: nat)
    requires i < |ops|
    requires base + OpsSize(ops) <= |b| && b[base..base + OpsSize(ops)] == OpsBytes(ops)
    ensures Shows(b, OpsItems(ops, base, t)[i])
  {
    hide OpBytes, OpsBytes, OpsSize, OpsItems, LE32;
    OpsItemsAt(ops, base, t, i);
    OpAt(ops, i);
    var lo, hi := OpsSize(ops[..i]), OpsSize(ops[..i + 1]);
    SubSlice(b, base, OpsSize(ops), lo, hi);
    OpValueIn(ops[i], b, base + lo);
  }

  lemma OpValueIn(op: Op, b: seq<byte>, off: nat)
    requires off + OpSize(op) <= |b| && b[off..off + OpSize(op)] == OpBytes(op)
    ensures b[off + 9 + |op.key|..off + OpSize(op)] == OpValue(op)
  {
    hide OpBytes, LE32;
    OpLayout(op);
    SubSlice(b, off, OpSize(op), 9 + |op.key|, OpSize(op));
  }

  lemma RecordItemsShown(r: Record, off: nat, b: seq<byte>, i: nat)
    requires ValidRecord(r) && i < |RecordItems(r, off)|
    requires off + RecordSize(r) <= |b| && b[off..off + RecordSize(r)] == RecordBytes(r)
    ensures Shows(b, RecordItems(r, off)[i])
  {
    hide RecordBytes, ValidRecord, RecordItems, Shows;
    RecordIsInt64(r);
    BodyIn(r, off, b);
    if r.flag == FLAG_BATCH {
      BatchItemsShown(r, off, b, i);
    } else {
      SingleItemsShown(r, off, b, i);
    }
  }

  lemma BodyIn(r: Record, off: nat, b: seq<byte>)
    requires IsInt64(r.tstamp)
    requires off + RecordSize(r) <= |b| && b[off..off + RecordSize(r)] == RecordBytes(r)
    ensures b[off + HEADER_SIZE + |r.key|..off + RecordSize(r)] == r.value
  {
    hide RecordBytes, LE32, LE64, Tail, Crc32c.Checksum;
    RecordLayout(r);
    SubSlice(b, off, RecordSize(r), HEADER_SIZE + |r.key|, RecordSize(r));
  }

  lemma SingleItemsShown(r: Record, off: nat, b: seq<byte>, i: nat)
    requires (r.flag == FLAG_PUT || r.flag == FLAG_TOMBSTONE) && i < |RecordItems(r, off)|
    requires off + RecordSize(r) <= |b| && b[off + HEADER_SIZE + |r.key|..off + RecordSize(r)] == r.value
    ensures Shows(b, RecordItems(r, off)[i])
  {
  }

  lemma RecordIsInt64(r: Record)
    requires ValidRecord(r)
    ensures IsInt64(r.tstamp) && (r.flag == FLAG_BATCH ==> |r.key| == 0 && DecodeBody(r.value).Some?)
    ensures r.flag == FLAG_PUT || r.flag == FLAG_TOMBSTONE || r.flag == FLAG_BATCH
  {
  }

  lemma BatchItemsShown(r: Record, off: nat, b: seq<byte>, i: nat)
    requires ValidRecord(r) && r.flag == FLAG_BATCH && i < |RecordItems(r, off)|
    requires off + RecordSize(r) <= |b| && b[off + HEADER_SIZE + |r.key|..off + RecordSize(r)] == r.value
    ensures Shows(b, RecordItems(r, off)[i])
  {
    hide LE32, OpsBytes, ValidRecord, Shows;
    RecordIsInt64(r);
    var ops := DecodeBody(r.value).value;
    var base := off + HEADER_SIZE + BATCH_COUNT_SIZE;
    assert r.value[4..] == OpsBytes(ops);
    SubSlice(b, off + HEADER_SIZE, |r.value|, 4, |r.value|);
    OpsItemsShown(ops, base, r.tstamp, b, i);
  }

  /** Reading at an item's position gives its value, whatever has been appended behind it since. */
  lemma {:induction false} LogItemsShown(log: Log, i: nat)
    requires ValidLog(log) && i < |LogItems(log)|
    ensures Shows(Print(log), LogItems(log)[i])
  {
    hide RecordItems, RecordSize, RecordBytes, Shows, ValidRecord;
    var k := |log| - 1;
    var front := log[..k];
    assert IsInt64(log[k].tstamp) by { RecordIsInt64(log[k]); }
    if i < |LogItems(front)| {
      LogItemsShown(front, i);
      ShowsLater(Print(front), RecordBytes(log[k]), LogItems(front)[i]);
    } else {
      var off := LogSize(front);
      assert Print(log)[off..off + RecordSize(log[k])] == RecordBytes(log[k]);
      RecordItemsShown(log[k], off, Print(log), i - |LogItems(front)|);
    }
  }

  /** What each kind of record the engine writes contributes. */
  lemma WrittenItems(t: int, k: Key, v: Value, ops: seq<Op>, off: nat)
    ensures RecordItems(PutRecord(t, k, v), off) == [Item(Put(k, v), off + HEADER_SIZE + |k|, t)]
    ensures RecordItems(TombstoneRecord(t, k), off) == [Item(Delete(k), off + HEADER_SIZE + |k|, t)]
    ensures |ops| <= MAX_BATCH_ENTRIES && ValidOps(ops) ==>
      RecordItems(BatchRecord(t, ops), off) == OpsItems(ops, off + HEADER_SIZE + BATCH_COUNT_SIZE, t)
  {
    if |ops| <= MAX_BATCH_ENTRIES && ValidOps(ops) {
      DecodeBodyOfBatchBody(ops);
    }
  }
}
