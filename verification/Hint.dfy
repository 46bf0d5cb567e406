/** hint.go: the sidecar of a merged segment, its byte layout, and its replay in place of a scan. */
module Hint {
  import opened Bytes
  import opened Wrappers
  import opened Record
  import opened Log
  import opened RecordCodec
  import opened Keydirs
  import opened KeydirIndex
  import opened View
  import opened Compaction
  import opened Reopen
  import opened Lists
  import opened Db
  import Crc32c

  const ENTRY_HEADER_SIZE := 24
  const FILE_HEADER_SIZE := 8
  const FILE_FOOTER_SIZE := 8
  const VERSION := 1
  const TOMBSTONE_POS := -1
  const MAGIC: seq<byte> := [72, 73, 78, 84]

  /** A value position of -1 marks a tombstone. */
  datatype HintEntry = HintEntry(key: Key, valuePos: int, valueLen: nat, tstamp: int)

  predicate ValidEntry(e: HintEntry) {
    ValidKey(e.key) && e.valueLen <= MAX_VAL_LEN && IsInt64(e.valuePos) && IsInt64(e.tstamp)
  }

  function EntryBytes(e: HintEntry): seq<byte> {
    if IsInt64(e.valuePos) && IsInt64(e.tstamp) then
      LE32(|e.key|) + LE32(e.valueLen) + LE64(e.valuePos) + LE64(e.tstamp) + e.key
    else []
  }

  /** data is a hint file that carries es. The two reserved bytes may be anything. */
  ghost predicate IsHintFile(data: seq<byte>, es: seq<HintEntry>) {
    && AllValid(ValidEntry, es)
    && FILE_HEADER_SIZE + FILE_FOOTER_SIZE <= |data|
    && var end := |data| - FILE_FOOTER_SIZE;
    && data[..4] == MAGIC && data[4..6] == LE(2, VERSION)
    && data[FILE_HEADER_SIZE..end] == EncAll(EntryBytes, es)
    && data[end..end + 4] == LE32(|es|)
    && data[end + 4..] == LE32(Crc32c.Checksum(data[..end + 4]))
  }

  /** A hint file begins with the four letters HINT and the version, the lower byte first. */
  lemma HeaderBytes(data: seq<byte>, es: seq<HintEntry>)
    requires IsHintFile(data, es)
    ensures 16 <= |data| && data[..4] == [72, 73, 78, 84] && data[4] == 1 && data[5] == 0
  {
    hide EntryBytes, LE32, Crc32c.Checksum;
    var v := data[4..6];
    assert LE(2, 1)[0] == 1 && LE(2, 1)[1] == 0;
    assert data[4] == v[0] && data[5] == v[1];
  }

  // ---------------------------------------------------------------- one entry

  lemma EntryLayout(e: HintEntry)
    requires ValidEntry(e)
    ensures var b := EntryBytes(e);
      |b| == ENTRY_HEADER_SIZE + |e.key| && b[..4] == LE32(|e.key|) && b[4..8] == LE32(e.valueLen)
      && b[8..16] == LE64(e.valuePos) && b[16..24] == LE64(e.tstamp) && b[24..] == e.key
  {
    hide LE32, LE64;
  }

  /** The fields a reader takes from off, when an entry stands there. */
  ghost predicate FieldsAt(b: seq<byte>, off: nat, e: HintEntry) {
    && off + ENTRY_HEADER_SIZE + |e.key| <= |b|
    && FromLE(b[off..off + 4]) == |e.key| && FromLE(b[off + 4..off + 8]) == e.valueLen
    && Int64At(b[off + 8..off + 16]) == e.valuePos && Int64At(b[off + 16..off + 24]) == e.tstamp
    && b[off + 24..off + 24 + |e.key|] == e.key
  }

  lemma FieldsOfEntry(b: seq<byte>, off: nat, e: HintEntry)
    requires ValidEntry(e) && off <= |b| && EntryBytes(e) <= b[off..]
    ensures FieldsAt(b, off, e)
  {
    hide LE32, LE64, FromLE, Int64At, EntryBytes;
    EntryLayout(e);
    var n := |EntryBytes(e)|;
    assert b[off..off + n] == b[off..][..n] == EntryBytes(e);
    SubSlice(b, off, n, 0, 4);
    SubSlice(b, off, n, 4, 8);
    SubSlice(b, off, n, 8, 16);
    SubSlice(b, off, n, 16, 24);
    SubSlice(b, off, n, 24, n);
    LE32RoundTrip(|e.key|);
    LE32RoundTrip(e.valueLen);
    LE64RoundTrip(e.valuePos);
    LE64RoundTrip(e.tstamp);
  }

  lemma EntriesPrefixFree()
    ensures PrefixFree(EntryBytes, ValidEntry) && NonEmpty(EntryBytes, ValidEntry)
  {
    hide EntryBytes, FieldsAt, ValidEntry;
    forall e | ValidEntry(e) ensures EntryBytes(e) != [] {
      EntryLayout(e);
    }
    forall x, y, b: seq<byte> | ValidEntry(x) && ValidEntry(y) && Begins(b, EntryBytes(x)) && Begins(b, EntryBytes(y))
      ensures x == y
    {
      assert b[0..] == b;
      FieldsOfEntry(b, 0, x);
      FieldsOfEntry(b, 0, y);
      SameFields(b, x, y);
    }
  }

  lemma SameFields(b: seq<byte>, x: HintEntry, y: HintEntry)
    requires FieldsAt(b, 0, x) && FieldsAt(b, 0, y)
    ensures x == y
  {
    hide FromLE, Int64At;
  }

  /** Bytes that passed the checks are the encoding of what was read. */
  lemma EntryRead(b: seq<byte>, off: nat, e: HintEntry)
    requires FieldsAt(b, off, e)
    ensures IsInt64(e.valuePos) && IsInt64(e.tstamp)
    ensures b[off..off + ENTRY_HEADER_SIZE + |e.key|] == EntryBytes(e)
  {
    hide LE32, LE64, FromLE, Int64At;
    FromLE32Bound(b[off..off + 4]);
    FromLE32Bound(b[off + 4..off + 8]);
    Int64AtInverse(b[off + 8..off + 16]);
    Int64AtInverse(b[off + 16..off + 24]);
    Glue(b, off, off + 4, off + 8);
    Glue(b, off, off + 8, off + 16);
    Glue(b, off, off + 16, off + 24);
    Glue(b, off, off + 24, off + 24 + |e.key|);
  }

  // ---------------------------------------------------------------- the file

  predicate InRanges(e: HintEntry) {
    IsInt64(e.valuePos) && IsInt64(e.tstamp)
  }

  lemma ValidSoFar(es: seq<HintEntry>, i: nat)
    requires i < |es| && AllValid(ValidEntry, es[..i]) && ValidEntry(es[i])
    ensures AllValid(ValidEntry, es[..i + 1])
  {
    assert es[..i + 1] == es[..i] + [es[i]];
  }

  /** writeHintFile: check every entry, then lay out header, entries and footer; the checksum covers all before it. */
  method WriteHintFile(entries: seq<HintEntry>) returns (r: Option<array<byte>>)
    requires forall i :: 0 <= i < |entries| ==> InRanges(entries[i])
    ensures r.Some? <==> AllValid(ValidEntry, entries) && |entries| < U32_LIMIT
    ensures r.Some? ==> fresh(r.value) && IsHintFile(r.value[..], entries)
  {
    hide LE32, EntryBytes, Crc32c.Checksum;
    if |entries| >= U32_LIMIT {
      return None;
    }
    var entriesBytes := 0;
    assert entries[..0] == [];
    for i := 0 to |entries|
      invariant AllValid(ValidEntry, entries[..i])
      invariant entriesBytes == |EncAll(EntryBytes, entries[..i])|
    {
      var e := entries[i];
      if |e.key| == 0 || |e.key| > MAX_KEY_LEN || e.valueLen > MAX_VAL_LEN {
        return None;
      }
      EntryLayout(e);
      ValidSoFar(entries, i);
      SplitAt(entries, i);
      EncAppend(EntryBytes, entries[..i], e);
      entriesBytes := entriesBytes + ENTRY_HEADER_SIZE + |e.key|;
    }
    assert entries[..|entries|] == entries;
    var total := FILE_HEADER_SIZE + entriesBytes + FILE_FOOTER_SIZE;
    var buf := new byte[total];
    FillHint(buf, entries);
    return Some(buf);
  }

  method FillHint(buf: array<byte>, entries: seq<HintEntry>)
    requires AllValid(ValidEntry, entries)
    requires buf.Length == FILE_HEADER_SIZE + |EncAll(EntryBytes, entries)| + FILE_FOOTER_SIZE
    modifies buf
    ensures IsHintFile(buf[..], entries)
  {
    hide LE32, EntryBytes, Crc32c.Checksum, ValidEntry, AllValid, EncAll, Written, Header;
    PutHeader(buf);
    var off: nat := FILE_HEADER_SIZE;
    NoEntries(entries, buf[..]);
    for i := 0 to |entries|
      invariant off <= buf.Length - FILE_FOOTER_SIZE && Written(buf[..], off, entries, i)
    {
      off := PutNext(buf, off, entries, i);
    }
    PutFooter(buf, off, entries);
  }

  function Header(): (b: seq<byte>)
    ensures |b| == FILE_HEADER_SIZE
  {
    MAGIC + LE(2, VERSION) + LE(2, 0)
  }

  /** The header and the first i entries have been written, up to off. */
  ghost predicate Written(b: seq<byte>, off: nat, entries: seq<HintEntry>, i: nat)
    requires i <= |entries|
  {
    && off == FILE_HEADER_SIZE + |EncAll(EntryBytes, entries[..i])| <= |b|
    && b[0..off] == Header() + EncAll(EntryBytes, entries[..i])
  }

  method PutHeader(buf: array<byte>)
    requires FILE_HEADER_SIZE <= buf.Length
    modifies buf
    ensures buf[0..FILE_HEADER_SIZE] == Header()
  {
    LayOut(buf, 0, 0, MAGIC);
    LayOut(buf, 0, 4, LE(2, VERSION));
    LayOut(buf, 0, 6, LE(2, 0));
  }

  lemma NoEntries(entries: seq<HintEntry>, b: seq<byte>)
    requires FILE_HEADER_SIZE <= |b| && b[0..FILE_HEADER_SIZE] == Header()
    ensures Written(b, FILE_HEADER_SIZE, entries, 0)
  {
    hide Header, EntryBytes;
    assert Header() + [] == Header();
  }

  method PutNext(buf: array<byte>, off: nat, entries: seq<HintEntry>, i: nat) returns (next: nat)
    requires AllValid(ValidEntry, entries) && i < |entries| && Written(buf[..], off, entries, i)
    requires buf.Length == FILE_HEADER_SIZE + |EncAll(EntryBytes, entries)| + FILE_FOOTER_SIZE
    modifies buf
    ensures next <= buf.Length - FILE_FOOTER_SIZE && Written(buf[..], next, entries, i + 1)
  {
    hide Header, EntryBytes, ValidEntry, AllValid, EncAll;
    EntryHere(entries, i);
    ghost var before := buf[..];
    assert before[0..off] == buf[0..off];
    PutEntry(buf, off, entries[i]);
    Regroup(Header(), EncAll(EntryBytes, entries[..i]), EntryBytes(entries[i]));
    next := off + ENTRY_HEADER_SIZE + |entries[i].key|;
    assert buf[..][0..next] == buf[0..next];
  }

  /** The count, and the checksum over everything before it. */
  method PutFooter(buf: array<byte>, off: nat, entries: seq<HintEntry>)
    requires AllValid(ValidEntry, entries) && Written(buf[..], off, entries, |entries|)
    requires buf.Length == FILE_HEADER_SIZE + |EncAll(EntryBytes, entries)| + FILE_FOOTER_SIZE
    modifies buf
    ensures IsHintFile(buf[..], entries)
  {
    hide LE32, EntryBytes, Crc32c.Checksum, ValidEntry, AllValid, EncAll;
    ghost var body := EncAll(EntryBytes, entries);
    assert entries[..|entries|] == entries;
    assert buf[0..off] == buf[..][0..off];
    LayOut(buf, 0, off, LE32(|entries|));
    var sum := Crc32c.Checksum(buf[..off + 4]);
    ghost var before := buf[..off + 4];
    assert before == buf[0..off + 4] == Header() + body + LE32(|entries|);
    Copy(buf, off + 4, LE32(sum));
    HintLaidOut(buf[..], entries, Header(), body);
  }

  lemma EntryHere(entries: seq<HintEntry>, i: nat)
    requires AllValid(ValidEntry, entries) && i < |entries|
    ensures ValidEntry(entries[i]) && |EntryBytes(entries[i])| == ENTRY_HEADER_SIZE + |entries[i].key|
    ensures EncAll(EntryBytes, entries[..i + 1]) == EncAll(EntryBytes, entries[..i]) + EntryBytes(entries[i])
    ensures |EncAll(EntryBytes, entries[..i + 1])| <= |EncAll(EntryBytes, entries)|
  {
    hide EntryBytes;
    EntryLayout(entries[i]);
    SplitAt(entries, i);
    EncAppend(EntryBytes, entries[..i], entries[i]);
    EncAt(EntryBytes, entries, i);
  }

  lemma HintLaidOut(data: seq<byte>, es: seq<HintEntry>, header: seq<byte>, body: seq<byte>)
    requires AllValid(ValidEntry, es) && header == MAGIC + LE(2, VERSION) + LE(2, 0) && body == EncAll(EntryBytes, es)
    requires |data| == 8 + |body| + 8 && data[..8 + |body| + 4] == header + body + LE32(|es|)
    requires data[8 + |body| + 4..] == LE32(Crc32c.Checksum(data[..8 + |body| + 4]))
    ensures IsHintFile(data, es)
  {
    hide LE32, EntryBytes, Crc32c.Checksum, ValidEntry, AllValid;
    var end := 8 + |body|;
    var p := data[..end + 4];
    assert p[..8] == header && p[8..end] == body && p[end..] == LE32(|es|);
    SubSlice(data, 0, end + 4, 0, 8);
    SubSlice(data, 0, end + 4, 8, end);
    SubSlice(data, 0, end + 4, end, end + 4);
    SubSlice(data, 0, 8, 0, 4);
    SubSlice(data, 0, 8, 4, 6);
    assert data[..8] == data[0..8] == p[..8] && p == data[0..end + 4];
  }

  method PutEntry(buf: array<byte>, off: nat, e: HintEntry)
    requires ValidEntry(e) && off + ENTRY_HEADER_SIZE + |e.key| <= buf.Length
    modifies buf
    ensures buf[0..off + ENTRY_HEADER_SIZE + |e.key|] == old(buf[0..off]) + EntryBytes(e)
  {
    hide LE32, LE64;
    ghost var b0 := buf[..];
    LayOut(buf, off, off, LE32(|e.key|));
    ghost var b1 := buf[..];
    LayOut(buf, off, off + 4, LE32(e.valueLen));
    ghost var b2 := buf[..];
    LayOut(buf, off, off + 8, LE64(e.valuePos));
    ghost var b3 := buf[..];
    LayOut(buf, off, off + 16, LE64(e.tstamp));
    ghost var b4 := buf[..];
    LayOut(buf, off, off + 24, e.key);
    assert buf[off..off + 24 + |e.key|] == EntryBytes(e);
    assert buf[..off] == b0[..off];
    Glue(buf[..], 0, off, off + 24 + |e.key|);
    assert buf[0..off] == buf[..off] && b0[0..off] == b0[..off];
  }

  /** readHintFile: nothing unless the bytes are a hint file, and then the entries it carries. */
  method ReadHintFile(data: seq<byte>) returns (r: Option<seq<HintEntry>>)
    ensures r.Some? ==> IsHintFile(data, r.value)
    ensures r.None? ==> forall es :: !IsHintFile(data, es)
  {
    hide LE32, FromLE, EntryBytes, Crc32c.Checksum;
    if |data| < FILE_HEADER_SIZE + FILE_FOOTER_SIZE {
      return None;
    }
    if data[0..4] != MAGIC {
      return None;
    }
    if FromLE(data[4..6]) != VERSION {
      VersionField(data);
      return None;
    }
    VersionField(data);
    var crcOff := |data| - 4;
    if FromLE(data[crcOff..]) != Crc32c.Checksum(data[..crcOff]) {
      LE32RoundTrip(Crc32c.Checksum(data[..crcOff]));
      return None;
    }
    FromLE32Bound(data[crcOff..]);
    var declaredCount := FromLE(data[crcOff - 4..crcOff]);
    r := ReadEntries(data, declaredCount);
    forall es: seq<HintEntry> ensures IsHintFile(data, es) <==> Carries(data, es) {
      FileCarries(data, es);
    }
  }

  lemma FileCarries(data: seq<byte>, es: seq<HintEntry>)
    requires FILE_HEADER_SIZE + FILE_FOOTER_SIZE <= |data| && data[0..4] == MAGIC && data[4..6] == LE(2, VERSION)
    requires data[|data| - 4..] == LE32(Crc32c.Checksum(data[..|data| - 4]))
    ensures IsHintFile(data, es) <==> Carries(data, es)
  {
    hide LE32, EntryBytes, Crc32c.Checksum, ValidEntry;
    assert data[0..4] == data[..4];
  }

  lemma VersionField(data: seq<byte>)
    requires 6 <= |data|
    ensures FromLE(data[4..6]) == VERSION <==> data[4..6] == LE(2, VERSION)
  {
    Widths();
    FromLEOfLE(2, VERSION);
    LEOfFromLE(data[4..6]);
  }

  /** What the parse loop sees of a hint file. */
  ghost predicate Carries(data: seq<byte>, es: seq<HintEntry>)
    requires FILE_HEADER_SIZE + FILE_FOOTER_SIZE <= |data|
  {
    && AllValid(ValidEntry, es) && data[FILE_HEADER_SIZE..|data| - FILE_FOOTER_SIZE] == EncAll(EntryBytes, es)
    && data[|data| - 8..|data| - 4] == LE32(|es|)
  }

  method ReadEntries(data: seq<byte>, declaredCount: nat) returns (r: Option<seq<HintEntry>>)
    requires FILE_HEADER_SIZE + FILE_FOOTER_SIZE <= |data| && declaredCount == FromLE(data[|data| - 8..|data| - 4])
    ensures r.Some? ==> Carries(data, r.value)
    ensures r.None? ==> forall es :: !Carries(data, es)
  {
    hide LE32, FromLE, EntryBytes, Int64At, ValidEntry, PrefixFree;
    EntriesPrefixFree();
    var entriesEnd := |data| - FILE_FOOTER_SIZE;
    var entries: seq<HintEntry> := [];
    var off := FILE_HEADER_SIZE;
    while off < entriesEnd
      invariant FILE_HEADER_SIZE <= off <= entriesEnd
      invariant AllValid(ValidEntry, entries) && data[FILE_HEADER_SIZE..off] == EncAll(EntryBytes, entries)
    {
      forall es: seq<HintEntry> | Carries(data, es)
        ensures |entries| < |es| && ValidEntry(es[|entries|]) && FieldsAt(data, off, es[|entries|])
        ensures off + ENTRY_HEADER_SIZE + |es[|entries|].key| <= entriesEnd
      {
        NextField(data, es, entries, off);
      }
      if entriesEnd - off < ENTRY_HEADER_SIZE {
        return None;
      }
      var keyLen := FromLE(data[off..off + 4]);
      var valLen := FromLE(data[off + 4..off + 8]);
      var valPos := Int64At(data[off + 8..off + 16]);
      var tstamp := Int64At(data[off + 16..off + 24]);
      if keyLen == 0 || keyLen > MAX_KEY_LEN || valLen > MAX_VAL_LEN {
        assert forall es: seq<HintEntry> | Carries(data, es) :: |entries| < |es| && IsValidShape(es[|entries|]) by {
          ValidShapes();
        }
        return None;
      }
      var bodyStart := off + ENTRY_HEADER_SIZE;
      var bodyEnd := bodyStart + keyLen;
      if bodyEnd > entriesEnd {
        return None;
      }
      var e := HintEntry(data[bodyStart..bodyEnd], valPos, valLen, tstamp);
      EntryRead(data, off, e);
      ShapeIsValid(e);
      ReadOneMore(data, entries, off, e);
      entries := entries + [e];
      off := bodyEnd;
    }
    CountsAgree(data, entries);
    if |entries| % U32_LIMIT != declaredCount {
      return None;
    }
    return Some(entries);
  }

  predicate IsValidShape(e: HintEntry) {
    0 < |e.key| <= MAX_KEY_LEN && e.valueLen <= MAX_VAL_LEN
  }

  lemma ShapeIsValid(e: HintEntry)
    requires IsValidShape(e) && IsInt64(e.valuePos) && IsInt64(e.tstamp)
    ensures ValidEntry(e)
  {
  }

  lemma ValidShapes()
    ensures forall e :: ValidEntry(e) ==> IsValidShape(e)
  {
  }

  lemma NextField(data: seq<byte>, es: seq<HintEntry>, done: seq<HintEntry>, off: nat)
    requires FILE_HEADER_SIZE + FILE_FOOTER_SIZE <= |data| && Carries(data, es) && AllValid(ValidEntry, done)
    requires FILE_HEADER_SIZE <= off < |data| - FILE_FOOTER_SIZE
    requires data[FILE_HEADER_SIZE..off] == EncAll(EntryBytes, done)
    ensures |done| < |es| && ValidEntry(es[|done|]) && FieldsAt(data, off, es[|done|])
    ensures off + ENTRY_HEADER_SIZE + |es[|done|].key| <= |data| - FILE_FOOTER_SIZE
  {
    hide EntryBytes, FieldsAt, LE32, ValidEntry, PrefixFree;
    EntriesPrefixFree();
    var end := |data| - FILE_FOOTER_SIZE;
    var body := data[FILE_HEADER_SIZE..end];
    SubSlice(data, FILE_HEADER_SIZE, end - FILE_HEADER_SIZE, 0, off - FILE_HEADER_SIZE);
    assert EncAll(EntryBytes, done) <= body;
    MoreLeft(EntryBytes, ValidEntry, es, done);
    NextElement(EntryBytes, ValidEntry, body, es, done);
    var e := es[|done|];
    EntryLayout(e);
    SubSlice(data, FILE_HEADER_SIZE, end - FILE_HEADER_SIZE, off - FILE_HEADER_SIZE, end - FILE_HEADER_SIZE);
    assert body[off - FILE_HEADER_SIZE..] == body[off - FILE_HEADER_SIZE..|body|];
    var here := data[off..end];
    assert EntryBytes(e) <= here;
    assert data[off..][..|here|] == here;
    FieldsOfEntry(data, off, e);
  }

  lemma ReadOneMore(data: seq<byte>, entries: seq<HintEntry>, off: nat, e: HintEntry)
    requires FILE_HEADER_SIZE <= off && off + ENTRY_HEADER_SIZE + |e.key| <= |data|
    requires AllValid(ValidEntry, entries) && data[FILE_HEADER_SIZE..off] == EncAll(EntryBytes, entries)
    requires ValidEntry(e) && data[off..off + ENTRY_HEADER_SIZE + |e.key|] == EntryBytes(e)
    ensures AllValid(ValidEntry, entries + [e])
    ensures data[FILE_HEADER_SIZE..off + ENTRY_HEADER_SIZE + |e.key|] == EncAll(EntryBytes, entries + [e])
  {
    hide EntryBytes, ValidEntry;
    EncAppend(EntryBytes, entries, e);
    Glue(data, FILE_HEADER_SIZE, off, off + ENTRY_HEADER_SIZE + |e.key|);
  }

  /** Once all the bytes are read, the only list the file can carry is the one read. */
  lemma CountsAgree(data: seq<byte>, entries: seq<HintEntry>)
    requires FILE_HEADER_SIZE + FILE_FOOTER_SIZE <= |data| && AllValid(ValidEntry, entries)
    requires data[FILE_HEADER_SIZE..|data| - FILE_FOOTER_SIZE] == EncAll(EntryBytes, entries)
    ensures FromLE(data[|data| - 8..|data| - 4]) == |entries| % U32_LIMIT ==> Carries(data, entries)
    ensures forall es :: Carries(data, es) ==> FromLE(data[|data| - 8..|data| - 4]) == |entries| % U32_LIMIT
  {
    hide EntryBytes, ValidEntry, FromLE, LE32, AllValid;
    EntriesPrefixFree();
    LE32Truncates(|entries|);
    var count := data[|data| - 8..|data| - 4];
    FromLE32Bound(count);
    FromLE32Bound(LE32(|entries|));
    forall es | Carries(data, es) ensures FromLE(count) == |entries| % U32_LIMIT {
      EncSame(EntryBytes, ValidEntry, es, entries);
    }
  }

  /** Reading back what was written gives the entries that went in. */
  lemma HintRoundTrip(data: seq<byte>, es: seq<HintEntry>, fs: seq<HintEntry>)
    requires IsHintFile(data, es) && IsHintFile(data, fs)
    ensures es == fs
  {
    hide EntryBytes, ValidEntry;
    EntriesPrefixFree();
    EncSame(EntryBytes, ValidEntry, es, fs);
  }

  // ---------------------------------------------------------------- replay

  predicate InBounds(e: HintEntry, size: nat) {
    e.valuePos == TOMBSTONE_POS || (0 <= e.valuePos <= size && e.valueLen <= size - e.valuePos)
  }

  /** The keydir update of one entry. */
  function Replay(kd: Keydir, id: nat, e: HintEntry): Keydir {
    if e.key in kd && e.tstamp < kd[e.key].tstamp then kd
    else if e.valuePos == TOMBSTONE_POS then kd - {e.key}
    else if e.valuePos >= 0 then kd[e.key := Entry(id, e.valuePos, e.valueLen, e.tstamp)]
    else kd
  }

  function ReplayAll(kd: Keydir, id: nat, es: seq<HintEntry>): Keydir {
    if es == [] then kd else Replay(ReplayAll(kd, id, es[..|es| - 1]), id, es[|es| - 1])
  }

  function HintClock(last: int, es: seq<HintEntry>): int {
    if es == [] then last else
      var before := HintClock(last, es[..|es| - 1]);
      if es[|es| - 1].tstamp > before then es[|es| - 1].tstamp else before
  }

  datatype Outcome = Missing | Unusable | Used

  /** tryRecoverFromHint: all entries are checked against the segment before the first one is applied, so a hint that
      is not used changes nothing. */
  method TryRecoverFromHint(db: DB, id: nat, file: Option<seq<byte>>) returns (r: Outcome, ghost es: seq<HintEntry>)
    requires id in db.segments
    modifies db`lastTstamp, db.keydir
    ensures r.Missing? <==> file.None?
    ensures r.Used? ==> IsHintFile(file.value, es) && forall i :: 0 <= i < |es| ==> InBounds(es[i], |db.segments[id]|)
    ensures r.Used? ==> forall i :: 0 <= i < |es| ==>
      es[i].valuePos == -1 || (0 <= es[i].valuePos && es[i].valuePos + es[i].valueLen <= |db.segments[id]|)
    ensures r.Used? ==> db.keydir.index == ReplayAll(old(db.keydir.index), id, es)
    ensures r.Used? ==> db.lastTstamp == HintClock(old(db.lastTstamp), es)
    ensures !r.Used? ==> db.keydir.index == old(db.keydir.index) && db.lastTstamp == old(db.lastTstamp)
    ensures r.Unusable? ==> forall fs :: IsHintFile(file.value, fs) ==>
      exists i :: 0 <= i < |fs| && !InBounds(fs[i], |db.segments[id]|)
  {
    hide IsHintFile;
    es := [];
    if file.None? {
      return Missing, es;
    }
    var entries := ReadHintFile(file.value);
    if entries.None? {
      return Unusable, es;
    }
    es := entries.value;
    var segSize := |db.segments[id]|;
    for i := 0 to |entries.value|
      invariant forall j :: 0 <= j < i ==> InBounds(es[j], segSize)
    {
      var e := entries.value[i];
      if e.valuePos != TOMBSTONE_POS {
        if e.valuePos < 0 || e.valuePos > segSize || e.valueLen > segSize - e.valuePos {
          forall fs | IsHintFile(file.value, fs) ensures fs == es {
            HintRoundTrip(file.value, fs, es);
          }
          assert !InBounds(es[i], segSize);
          return Unusable, es;
        }
      }
    }
    for i := 0 to |entries.value|
      invariant db.keydir.index == ReplayAll(old(db.keydir.index), id, es[..i])
      invariant db.lastTstamp == HintClock(old(db.lastTstamp), es[..i])
    {
      var e := entries.value[i];
      assert es[..i + 1][..i] == es[..i];
      if e.valuePos == TOMBSTONE_POS {
        var existing := db.keydir.Get(e.key);
        if existing.None? || e.tstamp >= existing.value.tstamp {
          db.keydir.Delete(e.key);
        }
      } else {
        assert InBounds(e, segSize);
        db.keydir.PutIfNewer(e.key, Entry(id, e.valuePos, e.valueLen, e.tstamp));
      }
      if e.tstamp > db.lastTstamp {
        db.lastTstamp := e.tstamp;
      }
    }
    assert es[..|es|] == es;
    return Used, es;
  }

  /** The operation an entry stands for; of a value it gives the length only. */
  function ItemOf(id: nat, e: HintEntry): TItem
  {
    TItem(id, Item(if e.valuePos < 0 then Delete(e.key) else Put(e.key, seq(e.valueLen, _ => 0)),
                   if e.valuePos < 0 then 0 else e.valuePos, e.tstamp))
  }

  /** Replaying entries in bounds is recovering the operations they stand for, by the same rule as in a scan. */
  lemma {:induction false} ReplayIsRecovery(kd: Keydir, id: nat, es: seq<HintEntry>, size: nat)
    requires forall i :: 0 <= i < |es| ==> InBounds(es[i], size)
    ensures ReplayAll(kd, id, es) == Recover(kd, seq(|es|, i requires 0 <= i < |es| => ItemOf(id, es[i])))
  {
    var items := seq(|es|, i requires 0 <= i < |es| => ItemOf(id, es[i]));
    if es != [] {
      var n := |es| - 1;
      ReplayIsRecovery(kd, id, es[..n], size);
      assert items[..n] == seq(n, i requires 0 <= i < n => ItemOf(id, es[..n][i]));
    }
  }

  // ---------------------------------------------------------------- the hint of a merged segment

  function EntryOfRewrite(r: Rewrite): HintEntry {
    HintEntry(r.key, r.newEntry.pos, r.newEntry.len, r.newEntry.tstamp)
  }

  function HintOf(rewrites: seq<Rewrite>): (es: seq<HintEntry>)
    ensures |es| == |rewrites| && forall i :: 0 <= i < |es| ==> es[i] == EntryOfRewrite(rewrites[i])
  {
    seq(|rewrites|, i requires 0 <= i < |rewrites| => EntryOfRewrite(rewrites[i]))
  }

  /** Hint replay refines scanning: from any keydir and clock, the hint built from the rewrites of a pass leads where a
      scan of the merged segment leads. */
  lemma {:induction false} HintRefinesScan(kd: Keydir, last: int, v: View, c: Pass, n: nat)
    requires Copies(v, c) && Split(v, c) && n <= |c.merged|
    ensures ReplayAll(kd, c.mid, HintOf(c.rewrites)[..n]) == Recover(kd, Tag(c.mid, LogItems(c.merged[..n])))
    ensures HintClock(last, HintOf(c.rewrites)[..n]) == LogClock(last, c.merged[..n])
  {
    hide LogItems, Copied, Split, LogSize, Replay, Recover1, Tag;
    if n > 0 {
      HintRefinesScan(kd, last, v, c, n - 1);
      var es := HintOf(c.rewrites);
      assert es[..n][..n - 1] == es[..n - 1];
      assert c.merged[..n][..n - 1] == c.merged[..n - 1];
      NextCopy(v, c, n);
      OneEntry(Recover(kd, Tag(c.mid, LogItems(c.merged[..n - 1]))), v, c, n);
      CopyStamp(v, c, n - 1);
    } else {
      NoCopies(c);
    }
  }

  lemma NoCopies(c: Pass)
    ensures c.merged[..0] == [] && LogItems([]) == [] && HintOf(c.rewrites)[..0] == []
  {
  }

  /** One more copy is one more operation in the merged segment. */
  lemma NextCopy(v: View, c: Pass, n: nat)
    requires Copies(v, c) && 0 < n <= |c.merged|
    ensures var items := Tag(c.mid, LogItems(c.merged[..n]));
      && items != [] && items[..|items| - 1] == Tag(c.mid, LogItems(c.merged[..n - 1]))
      && items[|items| - 1] == TItem(c.mid, CopyItem(c, n - 1))
  {
    hide LogItems, CopyItem, Copied, LogSize;
    CopyFlags(v, c);
    MergedItems(c, n);
    MergedItems(c, n - 1);
  }

  /** Its hint entry and its record do the same. */
  lemma OneEntry(kd: Keydir, v: View, c: Pass, n: nat)
    requires Copies(v, c) && Split(v, c) && 0 < n <= |c.merged|
    ensures Replay(kd, c.mid, HintOf(c.rewrites)[n - 1]) == Recover1(kd, TItem(c.mid, CopyItem(c, n - 1)))
  {
    hide LogItems, CopyItem, Copied, LogSize;
    CopyOf(v, c, n - 1);
  }

  lemma CopyStamp(v: View, c: Pass, i: int)
    requires Copies(v, c) && 0 <= i < |c.merged|
    ensures c.merged[i].tstamp == c.rewrites[i].newEntry.tstamp
  {
    hide LogItems, LogSize, ValidRecord, At;
    assert Copied(v.segs, c, i);
  }

  /** That hint passes the bounds check against the segment it describes, and can be written. */
  lemma HintOfPassFits(v: View, last: int, c: Pass, i: nat)
    requires Dated(v, last) && PassCore(v, c) && i < |c.rewrites|
    ensures var e := HintOf(c.rewrites)[i];
      InBounds(e, LogSize(c.merged)) && ValidKey(e.key) && e.valueLen <= MAX_VAL_LEN && IsInt64(e.tstamp)
  {
    hide LogItems, Located, Timed, ScannedOnce, Settled, TodoOk, Copied, LogSize, CopyItem;
    CommitTimed(v, last, c);
    CopyFlags(v, c);
    MergedItems(c, |c.merged|);
    assert c.merged[..|c.merged|] == c.merged;
    MergedValid(v, c);
    LogItemsOrdered(c.merged);
    CopyOf(v, c, i);
    CopyStamp(v, c, i);
    assert ValidRecord(c.merged[i]);
    CopyKey(v, c, i);
  }

  lemma MergedValid(v: View, c: Pass)
    requires Copies(v, c)
    ensures ValidLog(c.merged)
  {
    hide LogItems, LogSize, ValidRecord, At;
    forall i | 0 <= i < |c.merged| ensures ValidRecord(c.merged[i]) {
      assert Copied(v.segs, c, i);
    }
  }

  lemma CopyKey(v: View, c: Pass, i: int)
    requires Copies(v, c) && 0 <= i < |c.merged|
    ensures c.merged[i].key == c.rewrites[i].key && c.merged[i].flag == FLAG_PUT
  {
    hide LogItems, LogSize, ValidRecord, At;
    assert Copied(v.segs, c, i);
  }
}
