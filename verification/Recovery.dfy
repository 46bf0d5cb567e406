/** recovery.go: rebuilding the keydir and the clock from the segment files. */
module Recovery {
  import opened Bytes
  import opened Wrappers
  import opened Record
  import opened Log
  import opened RecordCodec
  import opened Keydirs
  import opened KeydirIndex
  import opened View
  import opened Compaction
  import opened Reopen
  import opened Scan
  import opened Db
  import Crc32c

  lemma TagConcat(id: nat, a: seq<Item>, b: seq<Item>)
    ensures Tag(id, a + b) == Tag(id, a) + Tag(id, b)
  {
  }

  /** What one more record does to the keydir and the clock. */
  lemma OneMore(id: nat, done: Log, r: Record, kd: Keydir, last: int)
    ensures Recover(kd, Tag(id, LogItems(done + [r]))) ==
      Recover(Recover(kd, Tag(id, LogItems(done))), Tag(id, RecordItems(r, LogSize(done))))
    ensures LogClock(last, done + [r]) ==
      if r.tstamp > LogClock(last, done) then r.tstamp else LogClock(last, done)
  {
    hide RecordItems;
    Append(done, r);
    TagConcat(id, LogItems(done), RecordItems(r, LogSize(done)));
    RecoverSplit(kd, Tag(id, LogItems(done)), Tag(id, RecordItems(r, LogSize(done))));
    assert (done + [r])[..|done + [r]| - 1] == done;
  }

  /** The outcome of parsing one record, as the code decides it. */
  datatype Step = AtEnd | TornHere | Invalid | Next(rec: Record)

  /** Header, bounds, flag, lengths, checksum: the checks of recoverSegment on the record at off, in its order, with
      the checksum fed the header tail and the body one after the other. */
  method ReadAt(b: seq<byte>, off: nat) returns (s: Step)
    requires off <= |b|
    ensures match ParseAt(b, off)
      case End => s == AtEnd
      case Torn => s == TornHere
      case Corrupt => s == Invalid
      case Good(r) => s == Next(r)
  {
    hide FromLE, Int64At, Crc32c.Checksum, Crc32c.Update;
    var nh := if |b| - off < HEADER_SIZE then |b| - off else HEADER_SIZE;
    if nh == 0 {
      return AtEnd;
    }
    if nh < HEADER_SIZE {
      return TornHere;
    }
    var expectedCRC := FromLE(b[off..off + 4]);
    var tstamp := Int64At(b[off + 4..off + 12]);
    var flag := b[off + 12];
    var keyLen := FromLE(b[off + 13..off + 17]);
    var valLen := FromLE(b[off + 17..off + 21]);
    if off + HEADER_SIZE + keyLen + valLen > |b| {
      return TornHere;
    }
    var bodyStart, end := off + HEADER_SIZE, off + HEADER_SIZE + keyLen + valLen;
    var r := Record(tstamp, flag, b[bodyStart..bodyStart + keyLen], b[bodyStart + keyLen..end]);
    if flag != FLAG_PUT && flag != FLAG_TOMBSTONE && flag != FLAG_BATCH {
      return Invalid;
    }
    if flag == FLAG_BATCH {
      if keyLen != 0 || valLen < BATCH_COUNT_SIZE || valLen > MAX_BATCH_BODY_LEN {
        return Invalid;
      }
    } else if keyLen == 0 || keyLen > MAX_KEY_LEN || valLen > MAX_VAL_LEN {
      return Invalid;
    }
    var sum := Crc32c.Update(Crc32c.INIT, b[off + 4..bodyStart]);
    sum := Crc32c.Update(sum, b[bodyStart..end]);
    SplitSum(b, off + 4, bodyStart, end);
    if Crc32c.Sum32(sum) != expectedCRC {
      return Invalid;
    }
    if flag == FLAG_BATCH {
      var entries := DecodeBatchBody(r.value, off);
      if entries.None? {
        return Invalid;
      }
    }
    return Next(r);
  }

  /** The encoder sums header tail and body at once, recovery in two pieces: the sums agree. */
  lemma SplitSum(b: seq<byte>, i: nat, j: nat, k: nat)
    requires i <= j <= k <= |b|
    ensures Crc32c.Sum32(Crc32c.Update(Crc32c.Update(Crc32c.INIT, b[i..j]), b[j..k])) == Crc32c.Checksum(b[i..k])
  {
    Crc32c.UpdateSplit(Crc32c.INIT, b[i..j], b[j..k]);
    Glue(b, i, j, k);
  }

  /** applyRecordOnRecovery, and applyBatchEntryOnRecovery for each entry of a batch. */
  method ApplyRecord(keydir: Index, id: nat, off: nat, r: Record)
    requires ValidRecord(r)
    modifies keydir
    ensures keydir.index == Recover(old(keydir.index), Tag(id, RecordItems(r, off)))
  {
    if r.flag != FLAG_BATCH {
      var pos := off + HEADER_SIZE + |r.key|;
      ghost var items := RecordItems(r, off);
      assert Tag(id, items)[..0] == [];
      Replay1(keydir,
              TItem(id, Item(if r.flag == FLAG_PUT then Op.Put(r.key, r.value) else Delete(r.key), pos, r.tstamp)));
    } else {
      var entries := DecodeBatchBody(r.value, off);
      ghost var x := Tag(id, RecordItems(r, off));
      for i := 0 to |entries.value|
        invariant keydir.index == Recover(old(keydir.index), x[..i])
      {
        var e := entries.value[i];
        EntryPosition(r, off, entries.value, i);
        assert x[..i + 1][..i] == x[..i];
        Replay1(keydir, TItem(id, Item(e.op, e.valuePos, r.tstamp)));
      }
      assert x[..|x|] == x;
    }
  }

  /** The decoder and the log agree on every entry's operation and value position. */
  lemma EntryPosition(r: Record, off: nat, entries: seq<Decoded>, i: nat)
    requires ValidRecord(r) && r.flag == FLAG_BATCH
    requires IsDecoding(entries, DecodeBody(r.value).value, off) && i < |entries|
    ensures i < |RecordItems(r, off)| == |entries|
    ensures RecordItems(r, off)[i] == Item(entries[i].op, entries[i].valuePos, r.tstamp)
  {
    hide OpsSize, OpsItems, DecodeBody;
    var ops := DecodeBody(r.value).value;
    OpsItemsAt(ops, off + HEADER_SIZE + BATCH_COUNT_SIZE, r.tstamp, i);
  }

  /** recoverSegment: scan one file from its first byte, applying each record; only the active segment may have a torn
      tail, which is cut off. On any bytes at all, the keydir and the clock take in exactly the records of the scan. */
  method RecoverSegment(db: DB, id: nat, allowTornTail: bool) returns (ok: bool)
    requires id in db.segments
    modifies db`segments, db`lastTstamp, db.keydir
    ensures var b := old(db.segments[id]); var f := ScanFrom(b, 0);
      && (ok <==> f.rest.Clean? || (f.rest.TornTail? && allowTornTail))
      && db.segments == (if ok then old(db.segments)[id := b[..f.good]] else old(db.segments))
      && db.keydir.index == Recover(old(db.keydir.index), Tag(id, LogItems(f.recs)))
      && db.lastTstamp == LogClock(old(db.lastTstamp), f.recs)
  {
    hide ParseAt, RecordItems, LogItems, Recover, LogClock, ValidRecord, ValidLog, ScanFrom, Scanned, Tag;
    var b := db.segments[id];
    var off: nat := 0;
    var lastGoodOffset := 0;
    ghost var done: Log := [];
    ScanStart(b, id, db.keydir.index, db.lastTstamp);
    while true
      invariant off <= |b| && Scanned(b, done, off) && db.segments == old(db.segments)
      invariant db.keydir.index == Recover(old(db.keydir.index), Tag(id, LogItems(done)))
      invariant db.lastTstamp == LogClock(old(db.lastTstamp), done)
      decreases |b| - off
    {
      var s := ReadAt(b, off);
      if !s.Next? {
        ScanStop(b, done, off);
        if s == AtEnd {
          lastGoodOffset := off;
          break;
        }
        if s == Invalid || !allowTornTail {
          return false;
        }
        lastGoodOffset := off;
        break;
      }
      ScanMore(b, done, off);
      ApplyRecord(db.keydir, id, off, s.rec);
      if s.rec.tstamp > db.lastTstamp {
        db.lastTstamp := s.rec.tstamp;
      }
      OneMore(id, done, s.rec, old(db.keydir.index), old(db.lastTstamp));
      done := done + [s.rec];
      off := off + RecordSize(s.rec);
    }
    if lastGoodOffset < |b| {
      db.segments := db.segments[id := b[..lastGoodOffset]];
    } else {
      assert b[..|b|] == b && db.segments[id := b] == db.segments;
    }
    return true;
  }

  /** The records of done have been read, up to off, and the scan goes on from there. */
  ghost predicate Scanned(b: seq<byte>, done: Log, off: nat) {
    && ValidLog(done) && off == LogSize(done) <= |b| && b[..off] == Print(done)
    && ScanFrom(b, 0) == Found(done + ScanFrom(b, off).recs, ScanFrom(b, off).good, ScanFrom(b, off).rest)
  }

  lemma ScanMore(b: seq<byte>, done: Log, off: nat)
    requires off <= |b| && Scanned(b, done, off) && ParseAt(b, off).Good?
    ensures var r := ParseAt(b, off).rec;
      ValidRecord(r) && off == LogSize(done) && off + RecordSize(r) <= |b| && RecordSize(r) > 0
      && Scanned(b, done + [r], off + RecordSize(r))
  {
    hide ParseAt, RecordBytes, ValidRecord, LogItems, Print, LogSize;
    var r := ParseAt(b, off).rec;
    MoreRead(b, done);
    ScanStep(b, off);
    var rest := ScanFrom(b, off + RecordSize(r)).recs;
    assert done + ([r] + rest) == (done + [r]) + rest;
  }

  lemma ScanStart(b: seq<byte>, id: nat, kd: Keydir, last: int)
    ensures Scanned(b, [], 0)
    ensures Recover(kd, Tag(id, LogItems([]))) == kd && LogClock(last, []) == last
  {
    hide ScanFrom, ParseAt;
    assert [] + ScanFrom(b, 0).recs == ScanFrom(b, 0).recs;
  }

  /** What the scan has found when it stops. */
  lemma ScanStop(b: seq<byte>, done: Log, off: nat)
    requires off <= |b| && Scanned(b, done, off) && !ParseAt(b, off).Good?
    ensures ScanFrom(b, 0) == Found(done, off,
      if ParseAt(b, off).End? then Clean else if ParseAt(b, off).Torn? then TornTail else Bad)
  {
    hide ParseAt, Print, ValidLog;
    assert done + [] == done;
  }
}
