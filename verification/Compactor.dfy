/** The compactor goroutine of compact.go: its loops over the input files, against a keydir that the writer changes
    between any two lookups. kds[i] is the keydir when operation i is looked at. */
module Compactor {
  import opened Bytes
  import opened Wrappers
  import opened Record
  import opened Log
  import opened RecordCodec
  import opened Keydirs
  import opened KeydirIndex
  import opened View
  import opened Compaction
  import opened Reopen
  import opened Scan
  import opened Recovery
  import opened RecordReader
  import opened Manifest
  import opened Writer
  import opened Engine
  import opened Refinement
  import Hint
  import Opening

  /** A pass whose next lookups see these keydirs. */
  function ScanAll(kds: seq<Keydir>, c: Pass): (d: Pass)
    requires |kds| <= |c.todo|
    ensures d.todo == c.todo[|kds|..]
  {
    if kds == [] then c else
      var n := |kds| - 1;
      ScanOne(kds[n], ScanAll(kds[..n], c))
  }

  /** Equal but for the marks that only the proofs about crashes need. */
  ghost predicate SameScan(c: Pass, d: Pass) {
    c == d.(seen := c.seen, ready := c.ready)
  }

  // ---------------------------------------------------------------- a pass in a run of the machine

  /** A step after which the pass in flight is still there. */
  predicate KeepsPass(l: Label) {
    !l.AbortPass? && !l.FailCommit? && !l.FinishCommit? && !l.FinishCommitUncertain? && !Reopens(l)
  }

  /** The keydirs the lookups of a run see, one for each scan step. */
  ghost function Lookups(s: Sys, labels: seq<Label>): (kds: seq<Keydir>)
    decreases |labels|
  {
    if labels == [] then []
    else
      (if labels[0].Scan? then [s.cur.kd] else [])
      + if Enabled(s, labels[0]) && (forall v :: v in s.survivors ==> v.count <= |s.hist|) then
          Lookups(Engine.Next(s, labels[0]), labels[1..])
        else []
  }

  lemma {:induction false} ScanAllFront(kds: seq<Keydir>, c: Pass)
    requires kds != [] && |kds| <= |c.todo|
    ensures ScanAll(kds, c) == ScanAll(kds[1..], ScanOne(kds[0], c))
  {
    hide ScanOne;
    var n := |kds| - 1;
    if n > 0 {
      ScanAllFront(kds[..n], c);
      assert kds[..n][1..] == kds[1..][..n - 1];
      assert ScanOne(kds[0], c).todo == c.todo[1..] by { ScanTakes(kds[0], c); }
    } else {
      assert kds[..0] == [] && kds[1..] == [];
      assert ScanAll([], c) == c;
    }
  }

  lemma ScanTakes(kd: Keydir, c: Pass)
    requires c.todo != []
    ensures ScanOne(kd, c).todo == c.todo[1..]
  {
  }

  /** One step of the machine, seen from the pass: a scan is the next lookup, anything else leaves the pass alone. */
  lemma PassStep(s: Sys, l: Label, c: Pass)
    requires Enabled(s, l) && (forall v :: v in s.survivors ==> v.count <= |s.hist|) && KeepsPass(l)
    requires s.pass.Some? && SameScan(s.pass.value, c)
    ensures var t := Engine.Next(s, l); t.pass.Some?
    ensures var t := Engine.Next(s, l);
      if l.Scan? then c.todo != [] && SameScan(t.pass.value, ScanOne(s.cur.kd, c)) else SameScan(t.pass.value, c)
  {
    hide Write, Rotate, Commit, Start;
  }

  /** Whatever the writer and other steps do in between, the pass of a run is the one whose lookups see the keydirs of
      the run's scan steps. */
  lemma {:induction false} PassOfSteps(s: Sys, labels: seq<Label>, c: Pass)
    requires s.pass.Some? && SameScan(s.pass.value, c) && Run(s, labels).Some?
    requires forall i :: 0 <= i < |labels| ==> KeepsPass(labels[i])
    ensures |Lookups(s, labels)| <= |c.todo|
    ensures var t := Run(s, labels).value; t.pass.Some? && SameScan(t.pass.value, ScanAll(Lookups(s, labels), c))
    decreases |labels|
  {
    hide Enabled, Engine.Next, SameScan, ScanOne;
    if labels != [] {
      var l, t := labels[0], Engine.Next(s, labels[0]);
      RunStep(s, labels);
      PassStep(s, l, c);
      var kds := Lookups(s, labels);
      if l.Scan? {
        ScanTakes(s.cur.kd, c);
        PassOfSteps(t, labels[1..], ScanOne(s.cur.kd, c));
        assert kds == [s.cur.kd] + Lookups(t, labels[1..]);
        assert kds[1..] == Lookups(t, labels[1..]);
        ScanAllFront(kds, c);
      } else {
        PassOfSteps(t, labels[1..], c);
        assert kds == [] + Lookups(t, labels[1..]) == Lookups(t, labels[1..]);
      }
    }
  }

  /** Between the choice of the inputs and the id, nothing changes the choice. */
  lemma {:induction false} PickStays(s: Sys, labels: seq<Label>)
    requires s.picked.Some? && Run(s, labels).Some?
    requires forall i :: 0 <= i < |labels| ==> !labels[i].TakeId? && !Reopens(labels[i])
    ensures Run(s, labels).value.picked == s.picked
    decreases |labels|
  {
    hide Enabled, Engine.Next;
    if labels != [] {
      RunStep(s, labels);
      assert Engine.Next(s, labels[0]).picked == s.picked by { PickStep(s, labels[0]); }
      PickStays(Engine.Next(s, labels[0]), labels[1..]);
    }
  }

  lemma PickStep(s: Sys, l: Label)
    requires Enabled(s, l) && (forall v :: v in s.survivors ==> v.count <= |s.hist|) && s.picked.Some?
    requires !l.TakeId? && !Reopens(l)
    ensures Engine.Next(s, l).picked == s.picked
  {
    hide Write, Rotate, Commit, Start, ScanOne;
  }

  ghost predicate Counts(s: Sys) {
    forall v :: v in s.survivors ==> v.count <= |s.hist|
  }

  /** A pass in a run: the inputs are chosen at s, the id is taken at u, and t is reached with the pass still in
      flight. */
  ghost predicate Compacts(s: Sys, order: seq<nat>, before: seq<Label>, u: Sys, after: seq<Label>, t: Sys) {
    && Enabled(s, Snapshot(order)) && Counts(s)
    && (forall i :: 0 <= i < |before| ==> !before[i].TakeId? && !Reopens(before[i]))
    && Run(Engine.Next(s, Snapshot(order)), before) == Some(u) && Enabled(u, TakeId) && Counts(u)
    && (forall i :: 0 <= i < |after| ==> KeepsPass(after[i])) && Run(Engine.Next(u, TakeId), after) == Some(t)
  }

  lemma PassOfRun(s: Sys, order: seq<nat>, before: seq<Label>, u: Sys, after: seq<Label>, t: Sys)
    requires Compacts(s, order, before, u, after, t)
    ensures forall i :: 0 <= i < |order| ==> order[i] in s.cur.segs
    ensures var c := Start(s.cur, order, u.nextID); var kds := Lookups(Engine.Next(u, TakeId), after);
      |kds| <= |c.todo| && t.pass.Some? && SameScan(t.pass.value, ScanAll(kds, c))
  {
    hide Run, Lookups, Tagged, LogItems;
    PickStays(Engine.Next(s, Snapshot(order)), before);
    var c := Start(s.cur, order, u.nextID);
    assert Engine.Next(u, TakeId).pass == Some(c);
    PassOfSteps(Engine.Next(u, TakeId), after, c);
  }

  /** The merged segment being written and the rewrites collected for it. */
  class Merged {
    const id: nat
    var bytes: seq<byte>
    var rewrites: seq<Rewrite>
    var encBuf: array<byte>
    ghost var pass: Pass

    /** The bytes are the records the pass has copied, one after the other. */
    ghost predicate Valid()
      reads this
    {
      ValidLog(pass.merged) && bytes == Print(pass.merged) && rewrites == pass.rewrites && id == pass.mid
    }

    constructor (id: nat, ghost pass: Pass)
      requires pass.mid == id && pass.merged == [] && pass.rewrites == []
      ensures Valid() && this.pass == pass && this.id == id && fresh(encBuf)
    {
      this.id, this.pass := id, pass;
      bytes, rewrites := [], [];
      encBuf := new byte[0];
    }

    /** A live record goes to the end of the merged segment, and its rewrite to the end of the list. */
    method CopyRecord(fileID: nat, valuePos: nat, tstamp: int, key: Key, value: Value)
      requires Valid() && ValidKey(key) && |value| <= MAX_VAL_LEN && IsInt64(tstamp)
      modifies this, encBuf
      ensures encBuf == old(encBuf) || fresh(encBuf)
      ensures pass == old(pass) && ValidLog(pass.merged + [PutRecord(tstamp, key, value)])
      ensures bytes == Print(pass.merged + [PutRecord(tstamp, key, value)])
      ensures rewrites == pass.rewrites
        + [Rewrite(key, Entry(fileID, valuePos, |value|, tstamp),
                   Entry(id, LogSize(pass.merged) + HEADER_SIZE + |key|, |value|, tstamp))]
    {
      hide RecordBytes, Print, LogSize, LogItems;
      var rec := PutRecord(tstamp, key, value);
      assert ValidRecord(rec);
      var need := RecordSize(rec);
      if encBuf.Length < need {
        encBuf := new byte[need];
      }
      var n := Encode(rec, encBuf);
      var newOffset := |bytes|;
      Append(pass.merged, rec);
      bytes := bytes + encBuf[..need];
      rewrites := rewrites
        + [Rewrite(key, Entry(fileID, valuePos, |value|, tstamp),
                   Entry(id, newOffset + HEADER_SIZE + |key|, |value|, tstamp))];
    }

    /** One operation: tombstones and whatever the keydir no longer names are dropped. */
    method Consider(kd: Keydir, fileID: nat, valuePos: nat, tstamp: int, op: Op)
      requires Valid() && ValidOp(op) && IsInt64(tstamp)
      requires pass.todo != [] && pass.todo[0] == TItem(fileID, Item(op, valuePos, tstamp))
      modifies this, encBuf
      ensures Valid() && pass == ScanOne(kd, old(pass))
      ensures encBuf == old(encBuf) || fresh(encBuf)
    {
      hide Print, LogSize, ValidRecord;
      ghost var next := ScanOne(kd, pass);
      if op.Put? && op.key in kd {
        var cur := kd[op.key];
        if cur.fileID == fileID && cur.pos == valuePos && cur.len == |op.value| {
          CopyRecord(fileID, valuePos, tstamp, op.key, op.value);
        }
      }
      pass := next;
    }

    /** compactSegmentInto, on any bytes: the records that recovery would find are looked at in order; it fails where
        recovery would refuse the segment, except that a header with nothing behind it passes for the end. */
    method CompactSegmentInto(b: seq<byte>, fileID: nat, kds: seq<Keydir>, first: nat, ghost c0: Pass)
      returns (ok: bool, seen: nat)
      requires Valid() && Looked(b, fileID, kds, first, c0) && pass == ScanAll(kds[..first], c0)
      modifies this, encBuf
      ensures var f := ScanFrom(b, 0);
        && (ok <==> f.rest.Clean? || HeaderOnly(b, f.good))
        && Valid() && seen == first + |LogItems(f.recs)| && pass == ScanAll(kds[..seen], c0)
      ensures encBuf == old(encBuf) || fresh(encBuf)
    {
      hide Valid, LogItems, LogSize, RecordItems, ScanAll, ValidRecord, ParseAt, Tag;
      hide ScanFrom, Scanned, HeaderOnly, Looked;
      var off: nat := 0;
      seen := first;
      ghost var done: Log := [];
      NothingLooked(b, fileID, kds, first, c0);
      while true
        invariant Valid() && off <= |b| && Scanned(b, done, off)
        invariant seen == first + |LogItems(done)| <= |kds| <= |c0.todo| && pass == ScanAll(kds[..seen], c0)
        invariant encBuf == old(encBuf) || fresh(encBuf)
        decreases |b| - off
      {
        NextRecord(b, done, off, fileID, kds, first, c0);
        var r, n := ReadRecord(b, off);
        if r == Eof {
          return true, seen;
        }
        if !r.Rec? {
          return false, seen;
        }
        if ParseAt(b, off).Good? {
          StrippedItems(ParseAt(b, off).rec, off);
        }
        var decoded;
        decoded, seen := ConsiderRecord(fileID, off, r.rec, kds, seen, c0);
        if !decoded {
          return false, seen;
        }
        done := done + [ParseAt(b, off).rec];
        off := off + n;
      }
    }

    /** The operations of one record, a batch's one by one. */
    method ConsiderRecord(fileID: nat, off: nat, r: Record, kds: seq<Keydir>, first: nat, ghost c0: Pass)
      returns (ok: bool, seen: nat)
      requires Valid() && first <= |kds| <= |c0.todo| && pass == ScanAll(kds[..first], c0)
      requires Decodes(r) ==> ValidRecord(r) && first + |RecordItems(r, off)| <= |kds|
      requires Decodes(r) ==> c0.todo[first..first + |RecordItems(r, off)|] == Tag(fileID, RecordItems(r, off))
      modifies this, encBuf
      ensures ok <==> Decodes(r)
      ensures seen == first + if ok then |RecordItems(r, off)| else 0
      ensures Valid() && pass == ScanAll(kds[..seen], c0)
      ensures encBuf == old(encBuf) || fresh(encBuf)
    {
      hide Valid, RecordItems, ScanOne, ScanAll, ValidRecord, DecodeBody, IsDecoding, Tag;
      seen := first;
      if r.flag != FLAG_BATCH {
        RecordIsInt64(r);
        var pos := off + HEADER_SIZE + |r.key|;
        var op := if r.flag == FLAG_PUT then Op.Put(r.key, r.value) else Delete(r.key);
        SingleItem(r, off);
        NextTodo(kds, c0, first, fileID, RecordItems(r, off), 0);
        Consider(kds[seen], fileID, pos, r.tstamp, op);
        return true, seen + 1;
      }
      var entries := DecodeBatchBody(r.value, off);
      if entries.None? {
        return false, seen;
      }
      RecordIsInt64(r);
      for i := 0 to |entries.value|
        invariant Valid() && seen == first + i <= first + |RecordItems(r, off)| && pass == ScanAll(kds[..seen], c0)
        invariant encBuf == old(encBuf) || fresh(encBuf)
      {
        var e := entries.value[i];
        EntryPosition(r, off, entries.value, i);
        BatchOpValid(r, off, entries.value, i);
        NextTodo(kds, c0, first, fileID, RecordItems(r, off), i);
        Consider(kds[seen], fileID, e.valuePos, r.tstamp, e.op);
        seen := seen + 1;
      }
      BatchCount(r, off, entries.value);
      return true, seen;
    }
  }

  /** The pass is about to look at the operations of the records that a scan of b finds. */
  ghost predicate Looked(b: seq<byte>, id: nat, kds: seq<Keydir>, first: nat, c0: Pass) {
    var items := LogItems(ScanFrom(b, 0).recs);
    first + |items| <= |kds| <= |c0.todo| && c0.todo[first..first + |items|] == Tag(id, items)
  }

  lemma NothingLooked(b: seq<byte>, id: nat, kds: seq<Keydir>, first: nat, c0: Pass)
    requires Looked(b, id, kds, first, c0)
    ensures Scanned(b, [], 0) && LogItems([]) == [] && first <= |kds| <= |c0.todo|
  {
    ScanStart(b, 0, map[], 0);
  }

  /** What a reader finds behind the records of done, and which operations it holds. */
  lemma NextRecord(b: seq<byte>, done: Log, off: nat, id: nat, kds: seq<Keydir>, first: nat, c0: Pass)
    requires off <= |b| && Scanned(b, done, off) && Looked(b, id, kds, first, c0)
    ensures first + |LogItems(done)| <= |kds| <= |c0.todo|
    ensures ParseAt(b, off).Good? ==>
      var r := ParseAt(b, off).rec; var from := first + |LogItems(done)|; var items := RecordItems(r, off);
      && ValidRecord(r) && off + RecordSize(r) <= |b| && RecordSize(r) > 0
      && Scanned(b, done + [r], off + RecordSize(r))
      && from + |items| == first + |LogItems(done + [r])| <= |kds| && c0.todo[from..from + |items|] == Tag(id, items)
    ensures !ParseAt(b, off).Good? ==>
      var f := ScanFrom(b, 0); f.recs == done && f.good == off && (f.rest.Clean? <==> ParseAt(b, off).End?)
  {
    hide ParseAt, RecordItems, ValidRecord, Print, LogSize, LogItems, ScanFrom, Tag;
    var f := ScanFrom(b, 0);
    if ParseAt(b, off).Good? {
      var r := ParseAt(b, off).rec;
      ScanMore(b, done, off);
      Append(done, r);
      ScannedPrefix(b, done + [r], off + RecordSize(r));
      ItemsPrefix(f.recs, |done| + 1);
      TodoPart(c0, first, id, LogItems(f.recs), LogItems(done), RecordItems(r, off));
    } else {
      ScanStop(b, done, off);
    }
    ScannedPrefix(b, done, off);
    ItemsPrefix(f.recs, |done|);
  }

  lemma ScannedPrefix(b: seq<byte>, done: Log, off: nat)
    requires off <= |b| && Scanned(b, done, off)
    ensures |done| <= |ScanFrom(b, 0).recs| && ScanFrom(b, 0).recs[..|done|] == done && LogSize(done) == off
  {
    hide ScanFrom, Print, ValidLog, LogSize;
  }

  lemma SingleItem(r: Record, off: nat)
    requires ValidRecord(r) && r.flag != FLAG_BATCH
    ensures var op := if r.flag == FLAG_PUT then Op.Put(r.key, r.value) else Delete(r.key);
      RecordItems(r, off) == [Item(op, off + HEADER_SIZE + |r.key|, r.tstamp)] && ValidOp(op)
  {
  }

  lemma BatchOpValid(r: Record, off: nat, entries: seq<Decoded>, i: nat)
    requires ValidRecord(r) && r.flag == FLAG_BATCH
    requires IsDecoding(entries, DecodeBody(r.value).value, off) && i < |entries|
    ensures ValidOp(entries[i].op)
  {
    hide OpsSize, OpsBytes, BatchBody;
  }

  lemma BatchCount(r: Record, off: nat, entries: seq<Decoded>)
    requires ValidRecord(r) && r.flag == FLAG_BATCH
    requires IsDecoding(entries, DecodeBody(r.value).value, off)
    ensures |RecordItems(r, off)| == |entries|
  {
    hide OpsSize;
  }

  /** Operation i of the record is the next one the pass looks at. */
  lemma NextTodo(kds: seq<Keydir>, c0: Pass, first: nat, fileID: nat, items: seq<Item>, i: nat)
    requires |kds| <= |c0.todo| && first + |items| <= |kds| && i < |items|
    requires c0.todo[first..first + |items|] == Tag(fileID, items)
    ensures var d := ScanAll(kds[..first + i], c0);
      && d.todo != [] && d.todo[0] == TItem(fileID, items[i])
      && ScanAll(kds[..first + i + 1], c0) == ScanOne(kds[first + i], d)
  {
    assert kds[..first + i + 1][..first + i] == kds[..first + i];
    assert c0.todo[first..first + |items|][i] == c0.todo[first + i];
  }

  /** Nothing that the compactor needs of a record is dropped with a tombstone's value. */
  lemma StrippedItems(r: Record, off: nat)
    requires ValidRecord(r)
    ensures ValidRecord(Stripped(r)) && RecordItems(Stripped(r), off) == RecordItems(r, off) && Decodes(Stripped(r))
  {
    hide DecodeBody;
  }

  lemma {:induction false} ItemsPrefix(log: Log, j: nat)
    requires j <= |log|
    ensures |LogItems(log[..j])| <= |LogItems(log)|
    ensures LogItems(log)[..|LogItems(log[..j])|] == LogItems(log[..j])
  {
    hide RecordItems;
    if j == |log| {
      assert log[..j] == log;
    } else {
      var front := log[..|log| - 1];
      ItemsPrefix(front, j);
      assert front[..j] == log[..j];
    }
  }

  lemma TodoPart(c: Pass, from: nat, id: nat, all: seq<Item>, front: seq<Item>, items: seq<Item>)
    requires from + |all| <= |c.todo| && c.todo[from..from + |all|] == Tag(id, all)
    requires |front| + |items| <= |all| && all[..|front| + |items|] == front + items
    ensures c.todo[from + |front|..from + |front| + |items|] == Tag(id, items)
  {
    forall i | 0 <= i < |items| ensures c.todo[from + |front| + i] == TItem(id, items[i]) {
      assert c.todo[from..from + |all|][|front| + i] == TItem(id, all[|front| + i]);
      assert all[..|front| + |items|][|front| + i] == items[i];
    }
  }

  // ---------------------------------------------------------------- a whole pass

  /** The operations of the first n candidates come first. */
  lemma {:induction false} TaggedPrefix(order: seq<nat>, segs: Segs, n: nat)
    requires n < |order| && forall i :: 0 <= i < |order| ==> order[i] in segs
    ensures var all, front, next := Tagged(order, segs), Tagged(order[..n], segs), LogItems(segs[order[n]]);
      && |front| + |next| == |Tagged(order[..n + 1], segs)| <= |all|
      && all[|front|..|front| + |next|] == Tag(order[n], next)
  {
    hide LogItems, Tag;
    var k := |order| - 1;
    assert order[..n + 1][..n] == order[..n];
    if n == k {
      assert order[..n + 1] == order;
    } else {
      var front := order[..k];
      TaggedPrefix(front, segs, n);
      assert front[..n] == order[..n] && front[..n + 1] == order[..n + 1];
    }
  }

  ghost predicate Holds(segments: map<nat, seq<byte>>, v: View) {
    && segments.Keys == v.segs.Keys && v.active in v.segs
    && forall i :: i in segments ==> ValidLog(v.segs[i]) && segments[i] == Print(v.segs[i])
  }

  /** The commit carries what the pass has collected. */
  ghost predicate Carries(cc: CompactCommit, hint: seq<Hint.HintEntry>, c: Pass) {
    && c.todo == [] && cc.rewrites == c.rewrites && cc.oldSegs == c.cands && cc.newID == c.mid
    && (cc.newSeg.None? <==> c.rewrites == [])
    && (cc.newSeg.Some? ==> ValidLog(c.merged) && cc.newSeg.value == Print(c.merged))
    && hint == Hint.HintOf(c.rewrites)
  }

  /** The loops of compactOnce: scan the sealed segments in ascending order, and build the hint and the commit. Too few
      candidates are left alone. */
  method ScanCandidates(segments: map<nat, seq<byte>>, activeID: nat, newID: nat, kds: seq<Keydir>, ghost v: View,
                     ghost order: seq<nat>)
    returns (r: Option<CompactCommit>, hint: seq<Hint.HintEntry>, ghost c: Pass)
    requires Holds(segments, v) && activeID == v.active && Lists(order, v.segs.Keys - {v.active})
    requires |kds| == |Tagged(order, v.segs)|
    ensures r.None? <==> |order| < 2
    ensures r.Some? ==> c == ScanAll(kds, Start(v, order, newID)) && Carries(r.value, hint, c)
  {
    hide Tagged, ScanAll, LogItems, Print, Holds, Tag;
    ghost var c0 := Start(v, order, newID);
    c, hint := c0, [];
    var candidates := Opening.SortedIds(segments.Keys - {activeID});
    SameOrder(segments, v, candidates, order);
    if |candidates| < 2 {
      return None, hint, c;
    }
    var newSeg := new Merged(newID, c0);
    var seen := 0;
    NothingTagged(v.segs, kds, c0);
    assert order[..0] == [];
    for i := 0 to |candidates|
      invariant newSeg.Valid() && newSeg.id == newID && fresh(newSeg) && fresh(newSeg.encBuf)
      invariant seen == |Tagged(order[..i], v.segs)| <= |kds| && newSeg.pass == ScanAll(kds[..seen], c0)
    {
      TaggedPrefix(order, v.segs, i);
      SegmentHeld(segments, v, order, i);
      Opening.SealedScan(v.segs[order[i]]);
      var ok;
      ok, seen := newSeg.CompactSegmentInto(segments[candidates[i]], candidates[i], kds, seen, c0);
    }
    assert order[..|order|] == order && kds[..seen] == kds;
    c := newSeg.pass;
    PassDone(kds, c0, c);
    var cands := segments.Keys - {activeID};
    if |newSeg.rewrites| == 0 {
      return Some(CompactCommit(None, newID, [], cands)), hint, c;
    }
    hint := HintEntries(newSeg.rewrites);
    return Some(CompactCommit(Some(newSeg.bytes), newID, newSeg.rewrites, cands)), hint, c;
  }

  /** compactOnce up to the submission of its commit, in a run of the machine. The inputs are chosen at s, the id is
      taken at u, the commit is submitted at t, and each lookup sees the keydir that the writer has left it by then:
      what is submitted is the commit of the machine's pass, the one the writer will carry out. */
  method CompactOnce(segments: map<nat, seq<byte>>, activeID: nat, newID: nat, kds: seq<Keydir>, ghost order: seq<nat>,
                     ghost s: Sys, ghost before: seq<Label>, ghost u: Sys, ghost after: seq<Label>, ghost t: Sys)
    returns (r: Option<CompactCommit>, hint: seq<Hint.HintEntry>)
    requires MemInv(s) && Holds(segments, s.cur) && activeID == s.cur.active
    requires Lists(order, s.cur.segs.Keys - {s.cur.active})
    requires 2 <= |order| ==>
      && Compacts(s, order, before, u, after, t) && newID == u.nextID && t.pass.Some? && t.pass.value.ready
      && kds == Lookups(Engine.Next(u, TakeId), after)
    requires |order| < 2 ==> |kds| == |Tagged(order, s.cur.segs)|
    ensures r.None? <==> |order| < 2
    ensures r.Some? ==> CommitOk(t, r.value) && hint == Hint.HintOf(t.pass.value.rewrites)
    ensures forall file: seq<byte> :: r.Some? && Hint.IsHintFile(file, hint) ==>
      Opening.Faithful(file, newID, t.pass.value.merged)
  {
    hide Compacts, Holds, Tagged, ScanAll, LogItems, Lookups, Carries, CommitOk;
    hide MemInv, SameScan, Hint.IsHintFile, Opening.Faithful;
    ghost var c0 := Start(s.cur, order, newID);
    if 2 <= |order| {
      PassOfRun(s, order, before, u, after, t);
      RunMem(s, order, before, u, after, t);
      AllLookedUp(t, ScanAll(kds, c0), kds, c0);
    }
    ghost var c;
    r, hint, c := ScanCandidates(segments, activeID, newID, kds, s.cur, order);
    if r.Some? {
      CommitReady(t, r.value, hint, c);
      StartMid(kds, c0);
    }
  }

  lemma StartMid(kds: seq<Keydir>, c: Pass)
    requires |kds| <= |c.todo|
    ensures ScanAll(kds, c).mid == c.mid
  {
    ScanAllFields(kds, c);
  }

  /** A pass that is ready has looked at everything. */
  lemma AllLookedUp(t: Sys, c: Pass, kds: seq<Keydir>, c0: Pass)
    requires MemInv(t) && t.pass.Some? && t.pass.value.ready && SameScan(t.pass.value, c)
    requires |kds| <= |c0.todo| && c == ScanAll(kds, c0)
    ensures |kds| == |c0.todo|
  {
    hide Sound, PassInv, PickOk, PhaseOk;
  }

  lemma RunMem(s: Sys, order: seq<nat>, before: seq<Label>, u: Sys, after: seq<Label>, t: Sys)
    requires MemInv(s) && Compacts(s, order, before, u, after, t)
    ensures MemInv(t)
  {
    hide MemInv, Run, Enabled, Engine.Next;
    MemStep(s, Snapshot(order));
    RunKeeps(Engine.Next(s, Snapshot(order)), before);
    MemStep(u, TakeId);
    RunKeeps(Engine.Next(u, TakeId), after);
  }

  /** The inputs may be read any time after the snapshot: while the pass is in flight a sealed segment stays as it
      is. */
  lemma {:induction false} SealedStay(s: Sys, labels: seq<Label>, i: nat)
    requires MemInv(s) && Run(s, labels).Some? && i in s.cur.segs && i != s.cur.active
    requires forall j :: 0 <= j < |labels| ==> KeepsPass(labels[j])
    ensures var t := Run(s, labels).value; i in t.cur.segs && i != t.cur.active && t.cur.segs[i] == s.cur.segs[i]
    decreases |labels|
  {
    hide MemInv, Enabled, Engine.Next;
    if labels != [] {
      RunStep(s, labels);
      MemStep(s, labels[0]);
      SealedStep(s, labels[0], i);
      SealedStay(Engine.Next(s, labels[0]), labels[1..], i);
    }
  }

  lemma SealedStep(s: Sys, l: Label, i: nat)
    requires MemInv(s) && Enabled(s, l) && i in s.cur.segs && i != s.cur.active && KeepsPass(l)
    ensures var t := Engine.Next(s, l); i in t.cur.segs && i != t.cur.active && t.cur.segs[i] == s.cur.segs[i]
  {
    hide Sound, PassOk, PickOk, ScanOne, Start, RecordItems, PublishAll, ApplyAll;
  }

  method HintEntries(rewrites: seq<Rewrite>) returns (hint: seq<Hint.HintEntry>)
    ensures hint == Hint.HintOf(rewrites)
  {
    hint := [];
    for i := 0 to |rewrites|
      invariant |hint| == i && forall j :: 0 <= j < i ==> hint[j] == Hint.EntryOfRewrite(rewrites[j])
    {
      var e := rewrites[i].newEntry;
      hint := hint + [Hint.HintEntry(rewrites[i].key, e.pos, e.len, e.tstamp)];
    }
  }

  lemma SameOrder(segments: map<nat, seq<byte>>, v: View, candidates: seq<nat>, order: seq<nat>)
    requires Holds(segments, v) && Lists(candidates, segments.Keys - {v.active})
    requires Lists(order, v.segs.Keys - {v.active})
    ensures candidates == order
    ensures forall i :: 0 <= i < |order| ==> order[i] in v.segs
  {
    forall id ensures id in candidates <==> id in order {
      assert id in candidates <==> id in segments.Keys - {v.active};
      assert id in order <==> id in v.segs.Keys - {v.active};
    }
    CanonicalUnique(candidates, order);
  }

  lemma NothingTagged(segs: Segs, kds: seq<Keydir>, c: Pass)
    ensures Tagged([], segs) == [] && |kds[..0]| == 0 && ScanAll(kds[..0], c) == c
  {
  }

  lemma SegmentHeld(segments: map<nat, seq<byte>>, v: View, order: seq<nat>, i: nat)
    requires Holds(segments, v) && i < |order| && order[i] in v.segs
    ensures order[i] in segments && ValidLog(v.segs[order[i]]) && segments[order[i]] == Print(v.segs[order[i]])
  {
  }

  lemma PassDone(kds: seq<Keydir>, c0: Pass, c: Pass)
    requires |kds| == |c0.todo| && c == ScanAll(kds, c0)
    ensures c.todo == [] && c.cands == c0.cands && c.mid == c0.mid
  {
    ScanAllFields(kds, c0);
  }

  lemma {:induction false} ScanAllFields(kds: seq<Keydir>, c: Pass)
    requires |kds| <= |c.todo|
    ensures var d := ScanAll(kds, c); d.cands == c.cands && d.mid == c.mid
  {
    if kds != [] {
      ScanAllFields(kds[..|kds| - 1], c);
    }
  }

  /** The commit is the one the writer expects, and its hint stands for the merged segment. */
  lemma CommitReady(s: Sys, cc: CompactCommit, hint: seq<Hint.HintEntry>, c: Pass)
    requires MemInv(s) && s.pass.Some? && s.pass.value.ready && SameScan(s.pass.value, c) && Carries(cc, hint, c)
    ensures CommitOk(s, cc) && hint == Hint.HintOf(s.pass.value.rewrites)
    ensures forall file: seq<byte> :: Hint.IsHintFile(file, hint) ==> Opening.Faithful(file, c.mid, s.pass.value.merged)
  {
    hide PhaseOk, PickOk, Sound, Split, TodoOk, Copies, ScannedOnce;
    hide Settled, Reaches, Hint.IsHintFile, Opening.Faithful;
    forall file: seq<byte> | Hint.IsHintFile(file, hint) ensures Opening.Faithful(file, c.mid, c.merged) {
      Opening.PassHintFaithful(file, s.cur, s.pass.value);
    }
  }
}
