/** The readers of engine.go. Each looks the keydir up and reads the segment files under one hold of segmentsMu. That
    keeps the segment table as it is, but not the writer from appending and publishing, nor the compactor from
    looking entries up: between the lookup and each read the machine may have moved on. */
module Reader {
  import opened Bytes
  import opened Wrappers
  import opened Record
  import opened Log
  import opened Keydirs
  import opened KeydirIndex
  import opened View
  import opened Engine
  import opened Refinement
  import opened Order
  import opened Scan
  import opened Db

  datatype ReadError = EmptyKey | KeyNotFound | OutOfSync | ShortRead

  /** segment.readAt: exactly len bytes at pos, or an error. */
  method ReadBytes(seg: seq<byte>, pos: nat, len: nat) returns (r: Result<Value, ReadError>)
    ensures r == if pos + len <= |seg| then Ok(seg[pos..pos + len]) else Err(ShortRead)
  {
    if pos + len > |seg| {
      return Err(ShortRead);
    }
    return Ok(seg[pos..pos + len]);
  }

  // ---------------------------------------------------------------- what may happen between lookup and read

  /** A step that does not take segmentsMu for writing. */
  predicate Unlocked(l: Label) {
    !l.FinishRotation? && !l.FinishCommit? && !l.FinishCommitUncertain? && !Reopens(l)
  }

  /** labels lead from s to t while a reader holds segmentsMu. */
  ghost predicate Meanwhile(s: Sys, labels: seq<Label>, t: Sys) {
    Leads(s, labels, t) && forall i :: 0 <= i < |labels| ==> Unlocked(labels[i])
  }

  /** The segment files at the moment of state t. */
  ghost predicate Files(files: map<nat, seq<byte>>, t: Sys) {
    && files.Keys == t.cur.segs.Keys
    && forall i :: i in files ==> ValidLog(t.cur.segs[i]) && files[i] == Print(t.cur.segs[i])
  }

  ghost predicate Grown(a: Segs, b: Segs) {
    a.Keys == b.Keys && forall i :: i in a ==> a[i] <= b[i]
  }

  lemma UnlockedStep(s: Sys, l: Label)
    requires MemInv(s) && Enabled(s, l) && Unlocked(l)
    ensures Grown(s.cur.segs, Next(s, l).cur.segs)
  {
    hide Sound, PassOk, PickOk, PhaseOk, RecordItems, PublishAll, ApplyAll;
  }

  lemma {:induction false} SegmentsGrow(s: Sys, labels: seq<Label>, t: Sys)
    requires Meanwhile(s, labels, t)
    ensures Grown(s.cur.segs, t.cur.segs)
    decreases |labels|
  {
    hide MemInv, Enabled, Next;
    if labels != [] {
      RunStep(s, labels);
      MemStep(s, labels[0]);
      UnlockedStep(s, labels[0]);
      SegmentsGrow(Next(s, labels[0]), labels[1..], t);
    }
  }

  /** What the keydir held at k, and what is found there however much has been written since. */
  lemma EntryFound(db: DB, k: Key, labels: seq<Label>, t: Sys, files: map<nat, seq<byte>>)
    requires db.Valid() && Meanwhile(db.sys, labels, t) && Files(files, t)
    ensures k in db.keydir.index <==> k in Replay(db.sys.hist)
    ensures k in db.keydir.index ==>
      var e := db.keydir.index[k];
      && e.fileID in files && e.pos + e.len <= |files[e.fileID]|
      && files[e.fileID][e.pos..e.pos + e.len] == Replay(db.sys.hist)[k]
  {
    hide Timed, LogItems, Print, ValidRecord, PassOk, PickOk, PhaseOk, Replay, Leads, At;
    var v := db.sys.cur;
    assert LocatedAt(v, k);
    if k in db.keydir.index {
      var e := v.kd[k];
      EntryReads(v, db.sys.last, k);
      SegmentsGrow(db.sys, labels, t);
      ReadInPrefix(v.segs[e.fileID], t.cur.segs[e.fileID], e.pos, e.len);
    }
  }

  lemma ReadInPrefix(a: Log, b: Log, pos: nat, len: nat)
    requires ValidLog(b) && a <= b && ValidLog(a) && pos + len <= |Print(a)|
    ensures pos + len <= |Print(b)| && Print(b)[pos..pos + len] == Print(a)[pos..pos + len]
  {
    hide Print, LogSize, ValidLog;
    assert b[..|a|] == a;
    PrintPrefix(b, |a|);
    assert Print(b)[..LogSize(a)][pos..pos + len] == Print(b)[pos..pos + len];
  }

  // ---------------------------------------------------------------- the readers

  /** Get answers as the plain map did when the keydir was looked up. files are the segment files when the value is
      read. */
  method Get(db: DB, key: Key, files: map<nat, seq<byte>>, ghost labels: seq<Label>, ghost t: Sys)
    returns (r: Result<Value, ReadError>)
    requires db.Valid() && Meanwhile(db.sys, labels, t) && Files(files, t)
    ensures r ==
      if key == [] then Err(EmptyKey)
      else if key in Replay(db.sys.hist) then Ok(Replay(db.sys.hist)[key])
      else Err(KeyNotFound)
  {
    hide MemInv, Mirror, Replay, Meanwhile, Files;
    if |key| == 0 {
      return Err(EmptyKey);
    }
    EntryFound(db, key, labels, t, files);
    var entry := db.keydir.Get(key);
    if entry.None? {
      return Err(KeyNotFound);
    }
    if entry.value.fileID !in files {
      return Err(KeyNotFound);
    }
    if entry.value.len > 0 {
      r := ReadBytes(files[entry.value.fileID], entry.value.pos, entry.value.len);
    } else {
      r := Ok([]);
    }
  }

  datatype KeyValue = KeyValue(key: Key, value: Value)

  ghost predicate AscendingKeys(out: seq<KeyValue>) {
    forall i, j :: 0 <= i < j < |out| ==> Less(out[i].key, out[j].key)
  }

  /** out is the part of store between start and end, in key order, each key once. */
  ghost predicate RangeOf(store: Store, start: Option<Key>, end: Option<Key>, out: seq<KeyValue>) {
    && AscendingKeys(out)
    && forall p :: p in out <==> p.key in store && p.value == store[p.key] && InRange(p.key, start, end)
  }

  /** No key lies in an inverted range. */
  lemma Inverted(start: Key, end: Key, k: Key)
    requires !Less(start, end)
    ensures !InRange(k, Some(start), Some(end))
  {
    if !Less(k, start) && Less(k, end) {
      LessTotal(start, k);
      if start != k {
        LessTransitive(start, k, end);
      }
    }
  }

  /** A moment while a reader holds segmentsMu: the state reached, the steps that led there, and the segment files. */
  datatype Moment = Moment(files: map<nat, seq<byte>>, ghost labels: seq<Label>, ghost t: Sys)

  ghost predicate Reached(s: Sys, m: Moment) {
    Meanwhile(s, m.labels, m.t) && Files(m.files, m.t)
  }

  /** The pairs the callback of ReadKeyRange is given, were it never to stop: the range of the plain map at the moment
      of the snapshot, although the values are read one by one afterwards, the i-th at the moment moments(i). A batch
      published in between is not seen at all, one published before is seen whole. */
  method ReadKeyRange(db: DB, start: Option<Key>, end: Option<Key>, moments: nat -> Moment)
    returns (r: Result<seq<KeyValue>, ReadError>)
    requires db.Valid() && forall i :: Reached(db.sys, moments(i))
    ensures r.Ok? && RangeOf(Replay(db.sys.hist), start, end, r.value)
  {
    hide MemInv, Mirror, Replay, Less, Meanwhile, Files;
    if start.Some? && end.Some? && !Less(start.value, end.value) {
      forall k ensures !InRange(k, start, end) {
        Inverted(start.value, end.value, k);
      }
      return Ok([]);
    }
    var pairs := db.keydir.SnapshotRange(start, end);
    assert Reached(db.sys, moments(0));
    forall k {:trigger k in db.keydir.index} {:trigger k in Replay(db.sys.hist)} | true
      ensures k in db.keydir.index <==> k in Replay(db.sys.hist)
    {
      EntryFound(db, k, moments(0).labels, moments(0).t, moments(0).files);
    }
    var out: seq<KeyValue> := [];
    for i := 0 to |pairs|
      invariant |out| == i
      invariant forall j :: 0 <= j < i ==> Reads(db.sys, pairs[j], out[j])
    {
      assert pairs[i] in pairs;
      var e := pairs[i].entry;
      var m := moments(i);
      EntryFound(db, pairs[i].key, m.labels, m.t, m.files);
      if e.fileID !in m.files {
        return Err(OutOfSync);
      }
      var val := [];
      if e.len > 0 {
        var read := ReadBytes(m.files[e.fileID], e.pos, e.len);
        if read.Err? {
          return Err(ShortRead);
        }
        val := read.value;
      }
      out := out + [KeyValue(pairs[i].key, val)];
    }
    RangeRead(db.keydir.index, db.sys, start, end, pairs, out);
    return Ok(out);
  }

  ghost predicate Reads(s: Sys, p: Pair, q: KeyValue) {
    q.key == p.key && q.key in Replay(s.hist) && q.value == Replay(s.hist)[q.key]
  }

  lemma RangeRead(kd: Keydir, s: Sys, start: Option<Key>, end: Option<Key>, pairs: seq<Pair>, out: seq<KeyValue>)
    requires Ascending(pairs) && |out| == |pairs| && forall j :: 0 <= j < |out| ==> Reads(s, pairs[j], out[j])
    requires forall p :: p in pairs <==> p.key in kd && p.entry == kd[p.key] && InRange(p.key, start, end)
    requires kd.Keys == Replay(s.hist).Keys
    ensures RangeOf(Replay(s.hist), start, end, out)
  {
    hide Replay, Less, InRange;
    var store := Replay(s.hist);
    forall p: KeyValue ensures p in out <==> p.key in store && p.value == store[p.key] && InRange(p.key, start, end) {
      if p in out {
        var j :| 0 <= j < |out| && out[j] == p;
        assert Reads(s, pairs[j], out[j]) && pairs[j] in pairs;
      }
      if p.key in store && p.value == store[p.key] && InRange(p.key, start, end) {
        var q := Pair(p.key, kd[p.key]);
        assert q in pairs;
        var j :| 0 <= j < |pairs| && pairs[j] == q;
        assert Reads(s, pairs[j], out[j]);
        assert out[j] == p;
      }
    }
    forall i, j | 0 <= i < j < |out| ensures Less(out[i].key, out[j].key) {
      assert Reads(s, pairs[i], out[i]) && Reads(s, pairs[j], out[j]);
    }
  }
}
