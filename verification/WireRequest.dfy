/** The request codec, request.go. */
module WireRequest {
  import opened Bytes
  import opened Wrappers
  import opened Order
  import opened Lists
  import opened WireFields
  import opened WireFrame

  const OP_PUT: byte := 1
  const OP_GET: byte := 2
  const OP_DELETE: byte := 3
  const OP_BATCH: byte := 4
  const OP_RANGE: byte := 5
  const OP_PING: byte := 6
  const OP_STATS: byte := 7

  const BATCH_PUT: byte := 0
  const BATCH_DELETE: byte := 1

  const MAX_BATCH_ENTRIES := 65_536
  const MIN_BATCH_ENTRY_BYTES := 10

  datatype BatchEntry = BatchEntry(delete: bool, key: seq<byte>, value: seq<byte>)

  /** In a range request, None is a nil bound: open. */
  datatype Request =
    | PutReq(key: seq<byte>, value: seq<byte>)
    | GetReq(key: seq<byte>)
    | DeleteReq(key: seq<byte>)
    | BatchReq(entries: seq<BatchEntry>)
    | RangeReq(start: Option<seq<byte>>, end: Option<seq<byte>>)
    | PingReq
    | StatsReq

  function OpOf(q: Request): byte {
    match q
    case PutReq(_, _) => OP_PUT
    case GetReq(_) => OP_GET
    case DeleteReq(_) => OP_DELETE
    case BatchReq(_) => OP_BATCH
    case RangeReq(_, _) => OP_RANGE
    case PingReq => OP_PING
    case StatsReq => OP_STATS
  }

  // ---------------------------------------------------------------- what a body is

  predicate KeyOk(k: seq<byte>) {
    1 <= |k| <= MAX_KEY_LEN
  }

  function EntryBytes(e: BatchEntry): seq<byte> {
    [if e.delete then BATCH_DELETE else BATCH_PUT] + (Field(e.key) + Field(e.value))
  }

  predicate EntryOk(e: BatchEntry) {
    KeyOk(e.key) && |e.value| <= MAX_VAL_LEN && (e.delete ==> e.value == [])
  }

  function BoundBytes(b: Option<seq<byte>>): seq<byte> {
    if b.Some? then b.value else []
  }

  ghost function BodyOf(q: Request): seq<byte> {
    match q
    case PutReq(k, v) => Field(k) + Field(v)
    case GetReq(k) => Field(k)
    case DeleteReq(k) => Field(k)
    case BatchReq(entries) => BE32(|entries|) + EncAll(EntryBytes, entries)
    case RangeReq(start, end) => Field(BoundBytes(start)) + Field(BoundBytes(end))
    case PingReq => []
    case StatsReq => []
  }

  predicate BoundsOk(start: seq<byte>, end: seq<byte>) {
    |start| <= MAX_KEY_LEN && |end| <= MAX_KEY_LEN && (start != [] && end != [] ==> !Less(end, start))
  }

  /** The limits of the protocol. */
  ghost predicate WithinLimits(q: Request) {
    match q
    case PutReq(k, v) => KeyOk(k) && |v| <= MAX_VAL_LEN
    case GetReq(k) => KeyOk(k)
    case DeleteReq(k) => KeyOk(k)
    case BatchReq(entries) => 1 <= |entries| <= MAX_BATCH_ENTRIES && AllValid(EntryOk, entries)
    case RangeReq(start, end) => BoundsOk(BoundBytes(start), BoundBytes(end))
    case _ => true
  }

  /** A bound that is present but empty cannot be told from an open one on the wire. */
  predicate NoEmptyBound(q: Request) {
    q.RangeReq? ==> q.start != Some([]) && q.end != Some([])
  }

  /** The requests a body can stand for. */
  ghost predicate Stands(op: byte, body: seq<byte>, q: Request) {
    OpOf(q) == op && WithinLimits(q) && NoEmptyBound(q) && BodyOf(q) == body
  }

  // ---------------------------------------------------------------- bodies of fields

  /** The body is one field and nothing else. */
  lemma OneField(body: seq<byte>, x: seq<byte>)
    requires |x| < U32_LIMIT
    ensures body == Field(x) <==> FieldAt(body, 0, x) && |body| == 4 + |x|
  {
    FieldAtBytes(body, 0, x);
    assert body[0..] == body;
  }

  /** The body is two fields and nothing else. */
  lemma TwoFieldBody(body: seq<byte>, x: seq<byte>, y: seq<byte>)
    requires |x| < U32_LIMIT && |y| < U32_LIMIT
    ensures body == Field(x) + Field(y) <==>
      FieldAt(body, 0, x) && FieldAt(body, 4 + |x|, y) && |body| == 8 + |x| + |y|
  {
    hide FieldAt, Field;
    assert body[0..] == body;
    TwoFields(body, 0, x, Field(y));
    if 4 + |x| <= |body| {
      FieldAtBytes(body, 4 + |x|, y);
    }
    ShortForField(body, x);
  }

  lemma ShortForField(body: seq<byte>, x: seq<byte>)
    ensures FieldAt(body, 0, x) ==> 4 + |x| <= |body|
  {
  }

  method DecodeKeyOnly(body: seq<byte>) returns (r: Option<seq<byte>>)
    ensures r.Some? ==> KeyOk(r.value) && body == Field(r.value)
    ensures r.None? ==> forall k :: KeyOk(k) ==> body != Field(k)
  {
    hide Field, FieldAt;
    var key := TakeField(body, 0, MAX_KEY_LEN);
    forall k | KeyOk(k) ensures body == Field(k) <==> FieldAt(body, 0, k) && |body| == 4 + |k| {
      OneField(body, k);
    }
    if key.None? {
      return None;
    }
    FieldIs(body, 0, key.value);
    if |key.value| == 0 || |body| != 4 + |key.value| {
      return None;
    }
    return key;
  }

  /** The body is two fields within their caps. */
  ghost predicate TwoIn(body: seq<byte>, x: seq<byte>, y: seq<byte>, cap1: nat, cap2: nat) {
    |x| <= cap1 && |y| <= cap2 && body == Field(x) + Field(y)
  }

  /** Two fields, each within its cap, and nothing behind them. */
  method DecodeTwo(body: seq<byte>, cap1: nat, cap2: nat) returns (r: Option<(seq<byte>, seq<byte>)>)
    requires cap1 < U32_LIMIT && cap2 < U32_LIMIT
    ensures r.Some? ==> TwoIn(body, r.value.0, r.value.1, cap1, cap2) && |r.value.0| <= cap1 && |r.value.1| <= cap2
    ensures forall x, y :: TwoIn(body, x, y, cap1, cap2) ==> r == Some((x, y))
  {
    hide Field, FieldAt;
    forall x, y | TwoIn(body, x, y, cap1, cap2)
      ensures FieldAt(body, 0, x) && FieldAt(body, 4 + |x|, y) && |body| == 8 + |x| + |y|
    {
      TwoFieldBody(body, x, y);
    }
    var first := TakeField(body, 0, cap1);
    if first.None? {
      return None;
    }
    FieldIs(body, 0, first.value);
    var off := 4 + |first.value|;
    var second := TakeField(body, off, cap2);
    if second.None? {
      return None;
    }
    FieldIs(body, off, second.value);
    if |body| != off + 4 + |second.value| {
      return None;
    }
    TwoFieldBody(body, first.value, second.value);
    return Some((first.value, second.value));
  }

  // ---------------------------------------------------------------- batches

  ghost predicate EntryAt(b: seq<byte>, off: nat, e: BatchEntry) {
    && off < |b| && b[off] == (if e.delete then BATCH_DELETE else BATCH_PUT)
    && FieldAt(b, off + 1, e.key) && FieldAt(b, off + 5 + |e.key|, e.value)
  }

  lemma EntryAtBytes(b: seq<byte>, off: nat, e: BatchEntry)
    requires EntryOk(e) && off <= |b|
    ensures EntryAt(b, off, e) <==> EntryBytes(e) <= b[off..]
    ensures |EntryBytes(e)| == 9 + |e.key| + |e.value| >= MIN_BATCH_ENTRY_BYTES
  {
    hide Field, FieldAt;
    var tail := Field(e.key) + Field(e.value);
    if off < |b| {
      TwoFields(b, off + 1, e.key, Field(e.value));
      if off + 5 + |e.key| <= |b| {
        FieldAtBytes(b, off + 5 + |e.key|, e.value);
      }
      assert b[off..] == [b[off]] + b[off + 1..];
      FieldFits(b, off + 1, e.key);
    }
  }

  lemma FieldFits(b: seq<byte>, off: nat, x: seq<byte>)
    ensures FieldAt(b, off, x) ==> off + 4 + |x| <= |b|
  {
  }

  lemma EntryUnique(b: seq<byte>, off: nat, x: BatchEntry, y: BatchEntry)
    requires EntryAt(b, off, x) && EntryAt(b, off, y)
    ensures x == y
  {
    hide FieldAt;
    FieldUnique(b, off + 1, x.key, y.key);
    FieldUnique(b, off + 5 + |x.key|, x.value, y.value);
  }

  lemma EntriesPrefixFree()
    ensures PrefixFree(EntryBytes, EntryOk) && NonEmpty(EntryBytes, EntryOk)
  {
    hide EntryBytes, EntryAt, EntryOk;
    forall e | EntryOk(e) ensures EntryBytes(e) != [] {
      EntryAtBytes([], 0, e);
    }
    forall x, y, b: seq<byte> | EntryOk(x) && EntryOk(y) && Begins(b, EntryBytes(x)) && Begins(b, EntryBytes(y))
      ensures x == y
    {
      assert b[0..] == b;
      EntryAtBytes(b, 0, x);
      EntryAtBytes(b, 0, y);
      EntryUnique(b, 0, x, y);
    }
  }

  lemma {:induction false} EntriesSize(entries: seq<BatchEntry>)
    requires AllValid(EntryOk, entries)
    ensures |EncAll(EntryBytes, entries)| >= MIN_BATCH_ENTRY_BYTES * |entries|
  {
    hide EntryBytes, EntryOk;
    if entries != [] {
      var n := |entries| - 1;
      EntriesSize(entries[..n]);
      EntryAtBytes([], 0, entries[n]);
    }
  }

  /** One entry of the decoder's loop. */
  method TakeEntry(b: seq<byte>, off: nat) returns (r: Option<BatchEntry>)
    requires off <= |b|
    ensures r.Some? ==> EntryOk(r.value) && EntryAt(b, off, r.value)
    ensures r.None? ==> forall e :: EntryOk(e) ==> !EntryAt(b, off, e)
  {
    hide FieldAt;
    if off + 1 + 4 > |b| {
      forall e ensures !EntryAt(b, off, e) {
        FieldFits(b, off + 1, e.key);
      }
      return None;
    }
    var op := b[off];
    var key := TakeField(b, off + 1, MAX_KEY_LEN);
    if key.None? {
      return None;
    }
    FieldIs(b, off + 1, key.value);
    if |key.value| < 1 {
      return None;
    }
    var value := TakeField(b, off + 5 + |key.value|, MAX_VAL_LEN);
    if value.None? {
      return None;
    }
    FieldIs(b, off + 5 + |key.value|, value.value);
    if op == BATCH_PUT {
      return Some(BatchEntry(false, key.value, value.value));
    }
    if op != BATCH_DELETE || |value.value| != 0 {
      return None;
    }
    return Some(BatchEntry(true, key.value, []));
  }

  ghost predicate StandsForBatch(body: seq<byte>, entries: seq<BatchEntry>) {
    && 1 <= |entries| <= MAX_BATCH_ENTRIES && AllValid(EntryOk, entries)
    && body == BE32(|entries|) + EncAll(EntryBytes, entries)
  }

  method DecodeBatch(body: seq<byte>) returns (r: Option<seq<BatchEntry>>)
    ensures r.Some? ==> StandsForBatch(body, r.value)
    ensures r.None? ==> forall entries :: !StandsForBatch(body, entries)
  {
    hide FromBE, StandsForBatch;
    if |body| < 4 {
      NoHeader(body);
      return None;
    }
    var count := FromBE(body[0..4]);
    var remaining := body[4..];
    forall entries: seq<BatchEntry> | StandsForBatch(body, entries)
      ensures 1 <= |entries| == count <= MAX_BATCH_ENTRIES && Holds(remaining, count, entries)
      ensures |remaining| >= MIN_BATCH_ENTRY_BYTES * count
    {
      BatchHeader(body, entries);
    }
    if count == 0 || count > MAX_BATCH_ENTRIES {
      return None;
    }
    if count * MIN_BATCH_ENTRY_BYTES > |remaining| {
      return None;
    }
    r := DecodeEntries(remaining, count);
    if r.Some? {
      BatchRead(body, r.value);
    }
  }

  /** Exactly these entries, and nothing behind them. */
  ghost predicate Holds(remaining: seq<byte>, count: nat, entries: seq<BatchEntry>) {
    |entries| == count && AllValid(EntryOk, entries) && remaining == EncAll(EntryBytes, entries)
  }

  /** The entries read so far. */
  ghost predicate Front(remaining: seq<byte>, off: nat, entries: seq<BatchEntry>) {
    AllValid(EntryOk, entries) && off <= |remaining| && remaining[..off] == EncAll(EntryBytes, entries)
  }

  /** The loop of decodeBatch. */
  method DecodeEntries(remaining: seq<byte>, count: nat) returns (r: Option<seq<BatchEntry>>)
    ensures r.Some? ==> Holds(remaining, count, r.value)
    ensures r.None? ==> forall entries :: !Holds(remaining, count, entries)
  {
    hide Holds, Front, EntryAt, EntryOk;
    var entries: seq<BatchEntry> := [];
    var off: nat := 0;
    NoneRead(remaining);
    for i := 0 to count
      invariant |entries| == i && off <= |remaining| && Front(remaining, off, entries)
    {
      forall es: seq<BatchEntry> | Holds(remaining, count, es)
        ensures i < |es| && EntryOk(es[i]) && EntryAt(remaining, off, es[i])
      {
        NextEntry(remaining, count, es, entries, off);
      }
      var e := TakeEntry(remaining, off);
      if e.None? {
        return None;
      }
      EntryTaken(remaining, entries, off, e.value);
      entries := entries + [e.value];
      off := off + 9 + |e.value.key| + |e.value.value|;
    }
    AllRead(remaining, count, entries, off);
    if off != |remaining| {
      return None;
    }
    return Some(entries);
  }

  lemma NoneRead(remaining: seq<byte>)
    ensures Front(remaining, 0, [])
  {
  }

  lemma AllRead(remaining: seq<byte>, count: nat, done: seq<BatchEntry>, off: nat)
    requires Front(remaining, off, done) && |done| == count
    ensures if off == |remaining| then Holds(remaining, count, done) else forall es :: !Holds(remaining, count, es)
  {
    hide EntryBytes, EntryOk, PrefixFree, NonEmpty;
    EntriesPrefixFree();
    assert remaining[..off] <= remaining && (off == |remaining| ==> remaining[..off] == remaining);
    forall es: seq<BatchEntry> | Holds(remaining, count, es) ensures off == |remaining| {
      DeterminedAll(EntryBytes, EntryOk, es, done);
    }
  }

  lemma NoHeader(body: seq<byte>)
    requires |body| < 4
    ensures forall entries :: !StandsForBatch(body, entries)
  {
    hide BE32;
  }

  lemma BatchRead(body: seq<byte>, entries: seq<BatchEntry>)
    requires 4 <= |body| && 1 <= FromBE(body[0..4]) == |entries| <= MAX_BATCH_ENTRIES
    requires Holds(body[4..], |entries|, entries)
    ensures StandsForBatch(body, entries)
  {
    hide BE32, FromBE, EntryBytes, EntryOk;
    FromBE32Bound(body[0..4]);
    assert body == body[0..4] + body[4..];
  }

  lemma BatchHeader(body: seq<byte>, entries: seq<BatchEntry>)
    requires StandsForBatch(body, entries)
    ensures 4 <= |body| && 1 <= FromBE(body[0..4]) == |entries| <= MAX_BATCH_ENTRIES
    ensures Holds(body[4..], |entries|, entries)
    ensures |body[4..]| >= MIN_BATCH_ENTRY_BYTES * |entries|
  {
    hide BE32, FromBE, EntryBytes, EntryOk;
    EntriesSize(entries);
    BE32RoundTrip(|entries|);
    assert body[0..4] == BE32(|entries|);
  }

  lemma NextEntry(remaining: seq<byte>, count: nat, es: seq<BatchEntry>, done: seq<BatchEntry>, off: nat)
    requires Holds(remaining, count, es) && Front(remaining, off, done) && |done| < count
    ensures |done| < |es| && EntryOk(es[|done|]) && EntryAt(remaining, off, es[|done|])
  {
    hide EntryBytes, EntryAt, EntryOk, PrefixFree, NonEmpty;
    EntriesPrefixFree();
    assert remaining[..off] <= remaining;
    NextElement(EntryBytes, EntryOk, remaining, es, done);
    EntryAtBytes(remaining, off, es[|done|]);
  }

  lemma EntryTaken(remaining: seq<byte>, done: seq<BatchEntry>, off: nat, e: BatchEntry)
    requires Front(remaining, off, done) && EntryOk(e) && EntryAt(remaining, off, e)
    ensures var n := off + 9 + |e.key| + |e.value|; n <= |remaining| && Front(remaining, n, done + [e])
  {
    hide EntryBytes, EntryAt, EntryOk;
    EntryAtBytes(remaining, off, e);
    EncAppend(EntryBytes, done, e);
    var n := off + |EntryBytes(e)|;
    Glue(remaining, 0, off, n);
    assert remaining[off..n] == remaining[off..][..|EntryBytes(e)|];
    assert remaining[0..off] == remaining[..off] && remaining[0..n] == remaining[..n];
  }

  // ---------------------------------------------------------------- the bytes of a body

  /** How many bytes the entries of a batch take. */
  function EntriesLength(entries: seq<BatchEntry>): nat {
    if entries == [] then 0 else
      var n := |entries| - 1;
      EntriesLength(entries[..n]) + 9 + |entries[n].key| + |entries[n].value|
  }

  /** Entry e stands at off: a tag, its key and its value. */
  ghost predicate EntryLaid(b: seq<byte>, off: nat, e: BatchEntry) {
    && off < |b| && b[off] == (if e.delete then 1 else 0)
    && FieldAt(b, off + 1, e.key) && FieldAt(b, off + 5 + |e.key|, e.value)
  }

  /** Where entry i of a batch starts. */
  function EntryOff(entries: seq<BatchEntry>, i: nat): nat
    requires i <= |entries|
  {
    4 + EntriesLength(entries[..i])
  }

  /** A count, and that many entries one behind the other. */
  ghost predicate BatchLaid(body: seq<byte>, entries: seq<BatchEntry>) {
    && |body| == 4 + EntriesLength(entries) && FromBE(body[0..4]) == |entries|
    && forall i :: 0 <= i < |entries| ==> EntryLaid(body, EntryOff(entries, i), entries[i])
  }

  /** What the protocol says of each opcode, as numbers: which bytes a request is, and within which limits. */
  ghost predicate IsBody(op: byte, body: seq<byte>, q: Request) {
    match q
    case PutReq(k, v) =>
      && op == 1 && 1 <= |k| <= 65_536 && |v| <= 16_777_216
      && FieldAt(body, 0, k) && FieldAt(body, 4 + |k|, v) && |body| == 8 + |k| + |v|
    case GetReq(k) => op == 2 && 1 <= |k| <= 65_536 && FieldAt(body, 0, k) && |body| == 4 + |k|
    case DeleteReq(k) => op == 3 && 1 <= |k| <= 65_536 && FieldAt(body, 0, k) && |body| == 4 + |k|
    case BatchReq(es) =>
      && op == 4 && 1 <= |es| <= 65_536 && BatchLaid(body, es)
      && forall i :: 0 <= i < |es| ==>
           1 <= |es[i].key| <= 65_536 && |es[i].value| <= 16_777_216 && (es[i].delete ==> es[i].value == [])
    case RangeReq(start, end) =>
      var s, e := BoundBytes(start), BoundBytes(end);
      && op == 5 && |s| <= 65_536 && |e| <= 65_536 && FieldAt(body, 0, s) && FieldAt(body, 4 + |s|, e)
      && |body| == 8 + |s| + |e| && (start.Some? ==> s != []) && (end.Some? ==> e != [])
      && (start.Some? && end.Some? ==> s == e || Less(s, e))
    case PingReq => op == 6 && body == []
    case StatsReq => op == 7 && body == []
  }

  lemma {:induction false} EntriesStart(entries: seq<BatchEntry>)
    ensures |EncAll(EntryBytes, entries)| == EntriesLength(entries)
  {
    if entries != [] {
      EntriesStart(entries[..|entries| - 1]);
    }
  }

  /** An entry is laid out in its place exactly when its bytes stand there. */
  lemma EntryPlaced(body: seq<byte>, entries: seq<BatchEntry>, i: nat)
    requires i < |entries| && EntryOk(entries[i]) && |body| == 4 + EntriesLength(entries)
    ensures Placed(EntryBytes, body[4..], entries, i) <==> EntryLaid(body, EntryOff(entries, i), entries[i])
  {
    hide EntryBytes, EntryOk, FieldAt;
    var off := EntriesLength(entries[..i]);
    EntriesStart(entries[..i]);
    EntriesGrow(entries, i);
    EntryAtBytes(body, 4 + off, entries[i]);
    assert body[4..][off..] == body[4 + off..];
  }

  lemma EntriesLaid(body: seq<byte>, entries: seq<BatchEntry>)
    requires AllValid(EntryOk, entries) && 4 <= |body|
    ensures body[4..] == EncAll(EntryBytes, entries) <==>
      |body| == 4 + EntriesLength(entries)
      && forall i :: 0 <= i < |entries| ==> EntryLaid(body, EntryOff(entries, i), entries[i])
  {
    hide EntryBytes, EntryLaid, EntryOk, Placed, EntryOff;
    LaidOut(EntryBytes, body[4..], entries);
    EntriesStart(entries);
    assert entries[..|entries|] == entries;
    if |body| == 4 + EntriesLength(entries) {
      forall i | 0 <= i < |entries|
        ensures Placed(EntryBytes, body[4..], entries, i) <==> EntryLaid(body, EntryOff(entries, i), entries[i])
      {
        EntryPlaced(body, entries, i);
      }
    }
  }

  lemma {:induction false} EntriesGrow(entries: seq<BatchEntry>, i: nat)
    requires i <= |entries|
    ensures EntriesLength(entries[..i]) <= EntriesLength(entries)
  {
    if i == |entries| {
      assert entries[..i] == entries;
    } else {
      EntriesGrow(entries[..|entries| - 1], i);
      assert entries[..|entries| - 1][..i] == entries[..i];
    }
  }

  lemma BatchMeans(body: seq<byte>, entries: seq<BatchEntry>)
    requires AllValid(EntryOk, entries) && 1 <= |entries| <= MAX_BATCH_ENTRIES
    ensures StandsForBatch(body, entries) <==> BatchLaid(body, entries)
  {
    hide EntryBytes, EntryLaid, EntryOk, EntryOff, BE32, FromBE;
    if StandsForBatch(body, entries) {
      BatchHeader(body, entries);
    }
    if 4 <= |body| {
      EntriesLaid(body, entries);
      BE32RoundTrip(|entries|);
      FromBE32Bound(body[0..4]);
      assert body == body[0..4] + body[4..];
    }
  }

  /** What an encoded body is, byte by byte. */
  lemma StandsMeans(op: byte, body: seq<byte>, q: Request)
    ensures Stands(op, body, q) <==> IsBody(op, body, q)
  {
    hide Field, FieldAt, EntryBytes, EntryLaid, BE32, FromBE, Less, BatchLaid;
    match q
    case PutReq(k, v) => BodyOfTwo(body, k, v);
    case GetReq(k) => BodyOfOne(body, k);
    case DeleteReq(k) => BodyOfOne(body, k);
    case BatchReq(es) =>
      if WithinLimits(q) {
        BatchMeans(body, es);
      }
    case RangeReq(start, end) =>
      BodyOfTwo(body, BoundBytes(start), BoundBytes(end));
      NotBehind(BoundBytes(start), BoundBytes(end));
    case _ =>
  }

  lemma BodyOfOne(body: seq<byte>, x: seq<byte>)
    ensures |x| <= MAX_KEY_LEN ==> (body == Field(x) <==> FieldAt(body, 0, x) && |body| == 4 + |x|)
  {
    hide Field, FieldAt;
    if |x| <= MAX_KEY_LEN {
      OneField(body, x);
    }
  }

  lemma BodyOfTwo(body: seq<byte>, x: seq<byte>, y: seq<byte>)
    ensures |x| <= MAX_KEY_LEN && |y| <= MAX_VAL_LEN ==>
      (body == Field(x) + Field(y) <==> FieldAt(body, 0, x) && FieldAt(body, 4 + |x|, y) && |body| == 8 + |x| + |y|)
  {
    hide Field, FieldAt;
    if |x| <= MAX_KEY_LEN && |y| <= MAX_VAL_LEN {
      TwoFieldBody(body, x, y);
    }
  }

  lemma NotBehind(start: seq<byte>, end: seq<byte>)
    ensures !Less(end, start) <==> start == end || Less(start, end)
  {
    hide Less;
    LessTotal(start, end);
    LessIrreflexive(start);
    if Less(start, end) && Less(end, start) {
      LessTransitive(start, end, start);
    }
  }

  // ---------------------------------------------------------------- decoding

  method DecodeRange(body: seq<byte>) returns (r: Option<Request>)
    ensures r.Some? ==> Stands(OP_RANGE, body, r.value)
    ensures r.None? ==> forall q :: !Stands(OP_RANGE, body, q)
  {
    hide TwoIn, Less, Stands;
    forall q | Stands(OP_RANGE, body, q)
      ensures q.RangeReq? && RangeOf(body, BoundBytes(q.start), BoundBytes(q.end))
    {
      RangeStands(body, q);
    }
    var bounds := DecodeTwo(body, MAX_KEY_LEN, MAX_KEY_LEN);
    if bounds.None? {
      return None;
    }
    var (start, end) := bounds.value;
    if |start| > 0 && |end| > 0 && Less(end, start) {
      return None;
    }
    var q := RangeReq(if |start| > 0 then Some(start) else None, if |end| > 0 then Some(end) else None);
    BoundsBack(q, start, end);
    RangeStands(body, q);
    return Some(q);
  }

  lemma BoundsBack(q: Request, start: seq<byte>, end: seq<byte>)
    requires q == RangeReq(if |start| > 0 then Some(start) else None, if |end| > 0 then Some(end) else None)
    ensures BoundBytes(q.start) == start && BoundBytes(q.end) == end && NoEmptyBound(q)
  {
  }

  ghost predicate RangeOf(body: seq<byte>, start: seq<byte>, end: seq<byte>) {
    BoundsOk(start, end) && TwoIn(body, start, end, MAX_KEY_LEN, MAX_KEY_LEN)
  }

  lemma RangeStands(body: seq<byte>, q: Request)
    ensures Stands(OP_RANGE, body, q) <==>
      q.RangeReq? && NoEmptyBound(q) && RangeOf(body, BoundBytes(q.start), BoundBytes(q.end))
  {
    hide Field, Less;
  }

  method DecodePut(body: seq<byte>) returns (r: Option<Request>)
    ensures r.Some? ==> Stands(OP_PUT, body, r.value)
    ensures r.None? ==> forall q :: !Stands(OP_PUT, body, q)
  {
    hide TwoIn, Stands;
    forall q ensures Stands(OP_PUT, body, q) <==> q.PutReq? && PutOf(body, q.key, q.value) {
      PutStands(body, q);
    }
    var fields := DecodeTwo(body, MAX_KEY_LEN, MAX_VAL_LEN);
    if fields.None? || |fields.value.0| < 1 {
      return None;
    }
    return Some(PutReq(fields.value.0, fields.value.1));
  }

  ghost predicate PutOf(body: seq<byte>, k: seq<byte>, v: seq<byte>) {
    KeyOk(k) && TwoIn(body, k, v, MAX_KEY_LEN, MAX_VAL_LEN)
  }

  lemma PutStands(body: seq<byte>, q: Request)
    ensures Stands(OP_PUT, body, q) <==> q.PutReq? && PutOf(body, q.key, q.value)
  {
    hide Field;
  }

  /** DecodeRequest: a body is accepted exactly when it is the encoding of a request within the limits, and it is
      decoded to that request. */
  method DecodeRequest(op: byte, body: seq<byte>) returns (r: Option<Request>)
    ensures r.Some? ==> Stands(op, body, r.value) && IsBody(op, body, r.value)
    ensures r.None? ==> forall q :: !Stands(op, body, q) && !IsBody(op, body, q)
    ensures r.Some? && op == 1 ==>
      r.value.PutReq? && FieldAt(body, 0, r.value.key) && FieldAt(body, 4 + |r.value.key|, r.value.value)
      && |body| == 8 + |r.value.key| + |r.value.value|
    ensures r.Some? && (op == 2 || op == 3) ==>
      (r.value.GetReq? || r.value.DeleteReq?) && (r.value.GetReq? <==> op == 2)
      && FieldAt(body, 0, r.value.key) && |body| == 4 + |r.value.key|
    ensures r.Some? && op == 4 ==> r.value.BatchReq? && BatchLaid(body, r.value.entries)
    ensures r.Some? && op == 5 ==>
      r.value.RangeReq? && FieldAt(body, 0, BoundBytes(r.value.start))
      && FieldAt(body, 4 + |BoundBytes(r.value.start)|, BoundBytes(r.value.end))
      && |body| == 8 + |BoundBytes(r.value.start)| + |BoundBytes(r.value.end)|
    ensures r.Some? ==> (r.value.PingReq? <==> op == 6) && (r.value.StatsReq? <==> op == 7) && 1 <= op <= 7
  {
    hide Stands, IsBody;
    r := DecodeBody(op, body);
    forall q ensures Stands(op, body, q) <==> IsBody(op, body, q) {
      StandsMeans(op, body, q);
    }
    if r.Some? {
      BodyLayout(op, body, r.value);
    }
  }

  /** What IsBody says of the bytes, opcode by opcode. */
  lemma BodyLayout(op: byte, body: seq<byte>, q: Request)
    requires IsBody(op, body, q)
    ensures 1 <= op <= 7
    ensures match q
      case PutReq(k, v) => op == 1 && FieldAt(body, 0, k) && FieldAt(body, 4 + |k|, v) && |body| == 8 + |k| + |v|
      case GetReq(k) => op == 2 && FieldAt(body, 0, k) && |body| == 4 + |k|
      case DeleteReq(k) => op == 3 && FieldAt(body, 0, k) && |body| == 4 + |k|
      case BatchReq(es) => op == 4 && BatchLaid(body, es)
      case RangeReq(start, end) =>
        var s, e := BoundBytes(start), BoundBytes(end);
        op == 5 && FieldAt(body, 0, s) && FieldAt(body, 4 + |s|, e) && |body| == 8 + |s| + |e|
      case PingReq => op == 6
      case StatsReq => op == 7
  {
    hide FieldAt, BatchLaid, Less;
  }

  /** The branch for the opcode. */
  method DecodeBody(op: byte, body: seq<byte>) returns (r: Option<Request>)
    ensures r.Some? ==> Stands(op, body, r.value)
    ensures r.None? ==> forall q :: !Stands(op, body, q)
  {
    hide Field, EntryBytes, EntryOk, BE32, Less;
    if op == OP_PUT {
      r := DecodePut(body);
    } else if op == OP_GET || op == OP_DELETE {
      var key := DecodeKeyOnly(body);
      if key.None? {
        return None;
      }
      return Some(if op == OP_GET then GetReq(key.value) else DeleteReq(key.value));
    } else if op == OP_BATCH {
      var entries := DecodeBatch(body);
      if entries.None? {
        forall q ensures !Stands(op, body, q) {
          assert q.BatchReq? ==> !StandsForBatch(body, q.entries);
        }
        return None;
      }
      return Some(BatchReq(entries.value));
    } else if op == OP_RANGE {
      r := DecodeRange(body);
    } else if op == OP_PING || op == OP_STATS {
      if |body| != 0 {
        return None;
      }
      return Some(if op == OP_PING then PingReq else StatsReq);
    } else {
      return None;
    }
  }

  /** No body stands for two requests. */
  lemma StandsUnique(op: byte, body: seq<byte>, p: Request, q: Request)
    requires Stands(op, body, p) && Stands(op, body, q)
    ensures p == q
  {
    hide Field, FieldAt, EntryBytes, EntryOk, BE32, Less, PrefixFree, NonEmpty, FromBE;
    match p
    case PutReq(k, v) =>
      SameTwo(body, k, v, q.key, q.value);
    case GetReq(k) =>
      SameOne(body, k, q.key);
    case DeleteReq(k) =>
      SameOne(body, k, q.key);
    case BatchReq(es) =>
      BatchHeader(body, es);
      BatchHeader(body, q.entries);
      EntriesPrefixFree();
      EncSame(EntryBytes, EntryOk, es, q.entries);
    case RangeReq(s, e) =>
      SameTwo(body, BoundBytes(s), BoundBytes(e), BoundBytes(q.start), BoundBytes(q.end));
    case _ =>
  }

  lemma SameOne(body: seq<byte>, x: seq<byte>, y: seq<byte>)
    requires body == Field(x) == Field(y) && |x| < U32_LIMIT && |y| < U32_LIMIT
    ensures x == y
  {
    hide Field, FieldAt;
    OneField(body, x);
    OneField(body, y);
    FieldUnique(body, 0, x, y);
  }

  lemma SameTwo(body: seq<byte>, x: seq<byte>, y: seq<byte>, u: seq<byte>, v: seq<byte>)
    requires body == Field(x) + Field(y) == Field(u) + Field(v)
    requires |x| < U32_LIMIT && |y| < U32_LIMIT && |u| < U32_LIMIT && |v| < U32_LIMIT
    ensures x == u && y == v
  {
    hide Field, FieldAt;
    TwoFieldBody(body, x, y);
    TwoFieldBody(body, u, v);
    FieldUnique(body, 0, x, u);
    FieldUnique(body, 4 + |x|, y, v);
  }

  // ---------------------------------------------------------------- encoding

  /** What encodeRequestBody accepts: a batch must also fit a frame. */
  ghost predicate Encodable(q: Request) {
    WithinLimits(q) && (q.BatchReq? ==> Fits(BodyOf(q)))
  }

  method CheckKey(k: seq<byte>) returns (ok: bool)
    ensures ok <==> KeyOk(k)
  {
    if |k| == 0 {
      return false;
    }
    return |k| <= MAX_KEY_LEN;
  }

  method EncodeKeyOnly(key: seq<byte>) returns (r: Option<array<byte>>)
    ensures r.Some? <==> KeyOk(key)
    ensures r.Some? ==> r.value[..] == Field(key)
  {
    hide Field;
    var ok := CheckKey(key);
    if !ok {
      return None;
    }
    var buf := new byte[4 + |key|];
    PutField(buf, 0, key);
    assert buf[0..4 + |key|] == buf[..];
    return Some(buf);
  }

  method EncodeTwo(x: seq<byte>, y: seq<byte>) returns (buf: array<byte>)
    ensures buf[..] == Field(x) + Field(y)
  {
    hide Field;
    buf := new byte[4 + |x| + 4 + |y|];
    PutField(buf, 0, x);
    PutField(buf, 4 + |x|, y);
    assert buf[0..8 + |x| + |y|] == buf[..];
  }

  lemma EntryHere(entries: seq<BatchEntry>, i: nat)
    requires i < |entries|
    ensures |EntryBytes(entries[i])| == 9 + |entries[i].key| + |entries[i].value|
    ensures EncAll(EntryBytes, entries[..i + 1]) == EncAll(EntryBytes, entries[..i]) + EntryBytes(entries[i])
    ensures |EncAll(EntryBytes, entries[..i + 1])| <= |EncAll(EntryBytes, entries)|
  {
    SplitAt(entries, i);
    EncAppend(EntryBytes, entries[..i], entries[i]);
    EncAt(EntryBytes, entries, i);
  }

  /** The checks of encodeBatch, and the size of what it will write: the frame cap holds before the buffer is made. */
  method MeasureBatch(entries: seq<BatchEntry>) returns (size: Option<nat>)
    ensures size.Some? <==> Encodable(BatchReq(entries))
    ensures size.Some? ==> size.value == |BodyOf(BatchReq(entries))|
  {
    hide EntryBytes, BE32;
    if |entries| == 0 || |entries| > MAX_BATCH_ENTRIES {
      return None;
    }
    var n := 4;
    for i := 0 to |entries|
      invariant forall j :: 0 <= j < i ==> EntryOk(entries[j])
      invariant n == 4 + |EncAll(EntryBytes, entries[..i])| <= MAX_FRAME_PAYLOAD - 1
    {
      var e := entries[i];
      EntryHere(entries, i);
      var ok := CheckKey(e.key);
      if !ok || (e.delete && |e.value| != 0) || (!e.delete && |e.value| > MAX_VAL_LEN) {
        return None;
      }
      var entrySize := 1 + 4 + |e.key| + 4 + |e.value|;
      if n + entrySize > MAX_FRAME_PAYLOAD - 1 {
        return None;
      }
      n := n + entrySize;
    }
    assert entries[..|entries|] == entries;
    return Some(n);
  }

  method PutEntry(buf: array<byte>, off: nat, e: BatchEntry)
    requires off + 9 + |e.key| + |e.value| <= buf.Length
    modifies buf
    ensures buf[0..off + 9 + |e.key| + |e.value|] == old(buf[0..off]) + EntryBytes(e)
  {
    hide Field;
    ghost var before := buf[0..off];
    var op := if e.delete then BATCH_DELETE else BATCH_PUT;
    LayOut(buf, 0, off, [op]);
    PutField(buf, off + 1, e.key);
    PutField(buf, off + 5 + |e.key|, e.value);
    assert before + [op] + Field(e.key) + Field(e.value) == before + ([op] + (Field(e.key) + Field(e.value)));
  }

  method EncodeBatch(entries: seq<BatchEntry>) returns (r: Option<array<byte>>)
    ensures r.Some? <==> Encodable(BatchReq(entries))
    ensures r.Some? ==> r.value[..] == BodyOf(BatchReq(entries))
  {
    hide Encodable, BodyOf;
    var size := MeasureBatch(entries);
    if size.None? {
      return None;
    }
    var buf := FillBatch(entries, size.value);
    return Some(buf);
  }

  method FillBatch(entries: seq<BatchEntry>, size: nat) returns (buf: array<byte>)
    requires size == |BodyOf(BatchReq(entries))|
    ensures buf[..] == BodyOf(BatchReq(entries))
  {
    hide EntryBytes, BE32, EncAll, Written, BodyOf;
    buf := new byte[size];
    assert 4 <= size by { BatchBodySize(entries); }
    LayOut(buf, 0, 0, BE32(|entries|));
    var off: nat := 4;
    NoEntries(entries, buf[..]);
    for i := 0 to |entries|
      invariant off <= buf.Length && Written(buf[..], off, entries, i)
    {
      off := PutNext(buf, off, entries, i);
    }
    AllWritten(buf[..], off, entries);
  }

  /** The count and the first i entries have been written, up to off. */
  ghost predicate Written(b: seq<byte>, off: nat, entries: seq<BatchEntry>, i: nat)
    requires i <= |entries|
  {
    && off == 4 + |EncAll(EntryBytes, entries[..i])| <= |b|
    && b[0..off] == BE32(|entries|) + EncAll(EntryBytes, entries[..i])
  }

  method PutNext(buf: array<byte>, off: nat, entries: seq<BatchEntry>, i: nat) returns (next: nat)
    requires i < |entries| && Written(buf[..], off, entries, i) && buf.Length == |BodyOf(BatchReq(entries))|
    modifies buf
    ensures next <= buf.Length && Written(buf[..], next, entries, i + 1)
  {
    hide EntryBytes, BE32, EncAll;
    EntryHere(entries, i);
    ghost var before := buf[..];
    assert before[0..off] == buf[0..off];
    PutEntry(buf, off, entries[i]);
    Regroup(BE32(|entries|), EncAll(EntryBytes, entries[..i]), EntryBytes(entries[i]));
    next := off + 9 + |entries[i].key| + |entries[i].value|;
    assert buf[..][0..next] == buf[0..next];
  }

  lemma AllWritten(b: seq<byte>, off: nat, entries: seq<BatchEntry>)
    requires Written(b, off, entries, |entries|) && |b| == |BodyOf(BatchReq(entries))|
    ensures b == BodyOf(BatchReq(entries))
  {
    hide EntryBytes, BE32, EncAll;
    assert entries[..|entries|] == entries && b[0..|b|] == b;
  }

  lemma BatchBodySize(entries: seq<BatchEntry>)
    ensures |BodyOf(BatchReq(entries))| == 4 + |EncAll(EntryBytes, entries)|
  {
    hide EntryBytes, BE32, EncAll;
  }

  lemma NoEntries(entries: seq<BatchEntry>, b: seq<byte>)
    requires 4 <= |b| && b[0..4] == BE32(|entries|)
    ensures Written(b, 4, entries, 0)
  {
    hide BE32;
    assert BE32(|entries|) + [] == BE32(|entries|);
  }

  method EncodeRange(start: seq<byte>, end: seq<byte>) returns (r: Option<array<byte>>)
    ensures r.Some? <==> BoundsOk(start, end)
    ensures r.Some? ==> r.value[..] == Field(start) + Field(end)
  {
    hide Field, Less;
    if |start| > MAX_KEY_LEN || |end| > MAX_KEY_LEN {
      return None;
    }
    if |start| > 0 && |end| > 0 && Less(end, start) {
      return None;
    }
    var buf := EncodeTwo(start, end);
    return Some(buf);
  }

  /** encodeRequestBody: the body of a request within the limits. */
  method EncodeRequestBody(q: Request) returns (r: Option<seq<byte>>)
    ensures r == if Encodable(q) then Some(BodyOf(q)) else None
    ensures r.Some? ==> IsBody(OpOf(q), r.value, OpenBounds(q))
    ensures r.Some? && q.PutReq? ==>
      OpOf(q) == 1 && FieldAt(r.value, 0, q.key) && FieldAt(r.value, 4 + |q.key|, q.value)
      && |r.value| == 8 + |q.key| + |q.value|
    ensures r.Some? && (q.GetReq? || q.DeleteReq?) ==>
      OpOf(q) == (if q.GetReq? then 2 else 3) && FieldAt(r.value, 0, q.key) && |r.value| == 4 + |q.key|
    ensures r.Some? && q.BatchReq? ==> OpOf(q) == 4 && BatchLaid(r.value, q.entries)
    ensures r.Some? && q.RangeReq? ==>
      OpOf(q) == 5 && FieldAt(r.value, 0, BoundBytes(q.start))
      && FieldAt(r.value, 4 + |BoundBytes(q.start)|, BoundBytes(q.end))
      && |r.value| == 8 + |BoundBytes(q.start)| + |BoundBytes(q.end)|
    ensures q.PingReq? || q.StatsReq? ==> r == Some([]) && OpOf(q) == if q.PingReq? then 6 else 7
  {
    hide FieldAt, BatchLaid, IsBody, Encodable, BodyOf;
    r := EncodeBody(q);
    NoBody(q);
    if r.Some? {
      EncodedIsBody(q);
      BodyLayout(OpOf(q), r.value, OpenBounds(q));
    }
  }

  lemma NoBody(q: Request)
    ensures q.PingReq? || q.StatsReq? ==> Encodable(q) && BodyOf(q) == []
  {
  }

  /** What encodes is a body that the decoder accepts. */
  lemma EncodedIsBody(q: Request)
    requires Encodable(q)
    ensures IsBody(OpOf(q), BodyOf(q), OpenBounds(q))
  {
    hide Stands, Encodable, BodyOf, IsBody;
    RoundTrips(q, OpenBounds(q));
    StandsMeans(OpOf(q), BodyOf(q), OpenBounds(q));
  }

  /** The limits of the protocol, as numbers; a batch must also fit a frame. */
  lemma EncodableMeans(q: Request)
    ensures Encodable(q) <==> match q
      case PutReq(k, v) => 1 <= |k| <= 65_536 && |v| <= 16_777_216
      case GetReq(k) => 1 <= |k| <= 65_536
      case DeleteReq(k) => 1 <= |k| <= 65_536
      case BatchReq(es) =>
        && 1 <= |es| <= 65_536 && 4 + EntriesLength(es) + 1 <= 33_554_432
        && forall i :: 0 <= i < |es| ==>
             1 <= |es[i].key| <= 65_536 && |es[i].value| <= 16_777_216 && (es[i].delete ==> es[i].value == [])
      case RangeReq(start, end) =>
        var s, e := BoundBytes(start), BoundBytes(end);
        |s| <= 65_536 && |e| <= 65_536 && (s != [] && e != [] ==> s == e || Less(s, e))
      case _ => true
  {
    hide BE32, EntryBytes, Less;
    if q.BatchReq? {
      BatchBodySize(q.entries);
      EntriesStart(q.entries);
    } else if q.RangeReq? {
      NotBehind(BoundBytes(q.start), BoundBytes(q.end));
    }
  }

  /** The branch for the request's kind. */
  method EncodeBody(q: Request) returns (r: Option<seq<byte>>)
    ensures r == if Encodable(q) then Some(BodyOf(q)) else None
  {
    hide Field, EntryBytes, EntryOk, BE32, Less;
    var buf: Option<array<byte>> := None;
    match q {
      case PutReq(k, v) =>
        var ok := CheckKey(k);
        if ok && |v| <= MAX_VAL_LEN {
          var b := EncodeTwo(k, v);
          buf := Some(b);
        }
      case GetReq(k) => buf := EncodeKeyOnly(k);
      case DeleteReq(k) => buf := EncodeKeyOnly(k);
      case BatchReq(entries) => buf := EncodeBatch(entries);
      case RangeReq(start, end) => buf := EncodeRange(BoundBytes(start), BoundBytes(end));
      case PingReq => return Some([]);
      case StatsReq => return Some([]);
    }
    return if buf.None? then None else Some(buf.value[..]);
  }

  // ---------------------------------------------------------------- the codec

  /** Bounds as the decoder gives them. */
  function OpenBounds(q: Request): Request {
    if q.RangeReq? then
      RangeReq(if q.start == Some([]) then None else q.start, if q.end == Some([]) then None else q.end)
    else q
  }

  /** Every request that encodes decodes back to itself, except that a bound that is present but empty comes back
      open; so a request round-trips exactly when it has no such bound. */
  lemma RoundTrips(q: Request, p: Request)
    requires Encodable(q)
    ensures Stands(OpOf(q), BodyOf(q), p) <==> p == OpenBounds(q)
    ensures Stands(OpOf(q), BodyOf(q), q) <==> NoEmptyBound(q)
  {
    hide Field, EntryBytes, EntryOk, BE32, Less;
    var o := OpenBounds(q);
    assert Stands(OpOf(q), BodyOf(q), o);
    if Stands(OpOf(q), BodyOf(q), p) {
      StandsUnique(OpOf(q), BodyOf(q), p, o);
    }
  }

  /** Every body that the decoder accepts and that fits a frame encodes back to the same bytes; only a batch can be
      too long for one. */
  lemma Reencodes(op: byte, body: seq<byte>, q: Request)
    requires Stands(op, body, q)
    ensures Encodable(q) <==> op != OP_BATCH || Fits(body)
    ensures op != OP_BATCH ==> Fits(body)
  {
    hide BE32, EntryBytes, EntryOk, Less;
  }

  /** EncodeRequest: what the body encoder accepts always fits a frame. */
  method EncodeRequest(q: Request) returns (r: Option<seq<byte>>)
    ensures r == if Encodable(q) then Some(FrameBytes(OpOf(q), BodyOf(q))) else None
  {
    hide Field, EntryBytes, EntryOk, BE32, Less, FrameBytes, Encodable, BodyOf;
    var body := EncodeRequestBody(q);
    if body.None? {
      return None;
    }
    EncodableFits(q);
    var frame := EncodeFrame(OpOf(q), body.value);
    return if frame.None? then None else Some(frame.value[..]);
  }

  lemma EncodableFits(q: Request)
    requires Encodable(q)
    ensures Fits(BodyOf(q))
  {
    hide BE32, EntryBytes, EntryOk, Less;
  }

  /** The stream begins with an encoded request. */
  ghost predicate Brings(r: seq<byte>, q: Request, rest: seq<byte>) {
    Encodable(q) && NoEmptyBound(q) && r == FrameBytes(OpOf(q), BodyOf(q)) + rest
  }

  datatype Received = NoFrame | BadRequest(rest: seq<byte>) | Got(req: Request, rest: seq<byte>)

  /** ReadRequest: off a stream that begins with an encoded request comes that request, and the rest is left for the
      next one; a body that is no request leaves the stream in step all the same. */
  method ReadRequest(r: seq<byte>) returns (f: Received)
    ensures forall q, rest :: Brings(r, q, rest) ==> f == Got(q, rest)
    ensures f.Got? ==> r == FrameBytes(OpOf(f.req), BodyOf(f.req)) + f.rest && WithinLimits(f.req)
    ensures f.BadRequest? ==> exists tag, body :: Fits(body) && r == FrameBytes(tag, body) + f.rest
  {
    hide FrameBytes, Encodable, BodyOf, Stands, WithinLimits;
    var frame := ReadFrame(r);
    if !frame.Frame? {
      forall q, rest ensures !Brings(r, q, rest) {
        if Brings(r, q, rest) {
          EncodableFits(q);
        }
      }
      return NoFrame;
    }
    var req := DecodeRequest(frame.tag, frame.body);
    forall q, rest | Brings(r, q, rest)
      ensures req == Some(q) && frame.rest == rest
    {
      EncodableFits(q);
      FrameUnique(frame.tag, frame.body, frame.rest, OpOf(q), BodyOf(q), rest);
      RoundTrips(q, q);
      if req.Some? {
        StandsUnique(frame.tag, frame.body, req.value, q);
      }
    }
    if req.None? {
      return BadRequest(frame.rest);
    }
    StandsFacts(frame.tag, frame.body, req.value);
    return Got(req.value, frame.rest);
  }

  lemma StandsFacts(op: byte, body: seq<byte>, q: Request)
    requires Stands(op, body, q)
    ensures OpOf(q) == op && BodyOf(q) == body && WithinLimits(q)
  {
  }
}
