/** What every run guarantees about the running engine, and what the next Open makes of its segments. */
module Sessions {
  import opened Bytes
  import opened Wrappers
  import opened Record
  import opened Log
  import opened Keydirs
  import opened View
  import opened Compaction
  import opened Reopen
  import opened Engine
  import opened Refinement
  import opened Durability
  import opened CrashSafety

  /** No keydir entry dangles: after any run each one names a segment that is there, and in it a put of its key at
      that position, of that length, with that timestamp. */
  lemma NoEntryDangles(maxSize: nat, labels: seq<Label>, k: Key)
    requires Run(Init(maxSize), labels).Some? && k in Run(Init(maxSize), labels).value.cur.kd
    ensures var v := Run(Init(maxSize), labels).value.cur;
      k in v.store && At(v.segs, k, v.kd[k], v.store[k])
  {
    hide Run, Init, At, DiskInv, PassOk, PickOk, PhaseOk;
    Reached(maxSize, labels);
    assert LocatedAt(Run(Init(maxSize), labels).value.cur, k);
  }

  /** During a pass no key is copied twice, the merged segment is the copies one after the other, and each new entry
      points at the bytes of its value in it. */
  lemma OneCopyPerKey(maxSize: nat, labels: seq<Label>, i: nat)
    requires Run(Init(maxSize), labels).Some?
    requires var s := Run(Init(maxSize), labels).value;
      s.pass.Some? && i < |s.pass.value.rewrites|
    ensures var c := Run(Init(maxSize), labels).value.pass.value;
      && DistinctKeys(c.rewrites) && |c.merged| == |c.rewrites|
      && c.merged[i] == PutRecord(c.rewrites[i].newEntry.tstamp, c.rewrites[i].key, c.merged[i].value)
      && ReadEntry(map[c.mid := c.merged], c.rewrites[i].newEntry) == Some(c.merged[i].value)
  {
    hide Run, Init, Sound, LogItems, LogSize, ReadEntry, Reaches, Settled;
    hide CopyItem, ValidRecord, DiskInv, PickOk, PhaseOk;
    Reached(maxSize, labels);
    var s := Run(Init(maxSize), labels).value;
    var c := s.pass.value;
    assert Copied(s.cur.segs, c, i);
    CopyFlags(s.cur, c);
    CopyOf(s.cur, c, i);
    MergedItems(c, |c.merged|);
    assert c.merged[..|c.merged|] == c.merged;
    forall j | 0 <= j < |c.merged| ensures ValidRecord(c.merged[j]) {
      assert Copied(s.cur.segs, c, j);
    }
    ReadShown(c.mid, c.merged, i, c.rewrites[i].newEntry);
  }

  lemma ReadShown(id: nat, log: Log, i: nat, e: Entry)
    requires ValidLog(log) && i < |LogItems(log)| && LogItems(log)[i].op.Put?
    requires e == EntryOf(id, LogItems(log)[i])
    ensures ReadEntry(map[id := log], e) == Some(LogItems(log)[i].op.value)
  {
    hide LogItems, Print;
    LogItemsShown(log, i);
  }

  // ---------------------------------------------------------------- the next Open

  lemma AllKept(s: Sys)
    requires forall k :: Safe(s, k)
    ensures Inv(s) && ViewInv(s.cur, s.last)
  {
    hide MemInv, DiskInv, Abandoned, SolidFull, Apart, KeyInv, PassKey, Dated;
    assert Safe(s, []);
    CurrentSurvives(s);
    SurvivorFacts(s, s.cur);
    forall k ensures KeyInv(s.cur, k) {
      assert Safe(s, k);
    }
  }

  /** What an Open finds while the host stays up: the running engine, or what a publish in flight makes of it. */
  lemma FoundIs(s: Sys, v: View)
    requires Inv(s) && v in s.survivors && v.gen == s.gen && v.count == |s.hist|
    ensures v == s.cur || (s.phase.CommitRenamed? && s.pass.Some? && v == Commit(s.cur, s.pass.value))
            || exists n :: n !in s.cur.segs && v == Rotate(s.cur, n, s.last)
  {
    hide Sound, Dated, PassInv, Replay, SurvivorsOk, Commit, Lags;
    if s.gen != s.cur.gen && !s.phase.CommitRenamed? {
      var n: nat;
      if s.disabled {
        n := AbandonedId(s);
      } else {
        n := s.phase.next;
      }
      assert v == Rotate(s.cur, n, s.last) && n !in s.cur.segs;
    }
  }

  lemma FoundFull(s: Sys, v: View)
    requires Inv(s) && ViewInv(s.cur, s.last) && v in s.survivors && v.gen == s.gen && v.count == |s.hist|
    ensures ViewInv(v, s.last)
  {
    hide Sound, PassCore, Reaches, Settled, Replay, DiskInv, Abandoned, SolidFull, Apart, ViewInv, Commit, Rotate;
    FoundIs(s, v);
    if s.phase.CommitRenamed? && s.pass.Some? && v == Commit(s.cur, s.pass.value) {
      CommitKeeps(s.cur, s.last, s.pass.value);
    } else if v != s.cur {
      var n :| n !in s.cur.segs && v == Rotate(s.cur, n, s.last);
      RotateKeeps(s.cur, n, s.last);
    }
  }

  lemma FullExit(s: Sys, v: View, scan: seq<nat>, freshID: nat)
    requires Finds(s, v, scan) && forall u :: u in s.survivors ==> u.count <= |s.hist|
    requires Inv(s) && ViewInv(s.cur, s.last) && Enabled(s, ExitAndOpen(v, scan, freshID)) && NoneComesBack(v, scan)
    ensures var t := Next(s, ExitAndOpen(v, scan, freshID)); ViewInv(t.cur, t.last)
  {
    hide Inv, KeyInv, Dated, StaysGone, Opened, Resumed, Next, Enabled, Replay, Lists;
    Reopening(s, ExitAndOpen(v, scan, freshID));
    FoundFull(s, v);
    var t := Next(s, ExitAndOpen(v, scan, freshID));
    ResumedFields(s, v, scan, freshID);
    ResumedInv(s, v, scan, freshID);
    CurrentSurvives(t);
    SurvivorFacts(t, t.cur);
    forall k ensures KeyInv(t.cur, k) {
      OpenedKey(s, v, scan, freshID, k);
    }
  }

  lemma FullStep(s: Sys, l: Label)
    requires MemInv(s) && ViewInv(s.cur, s.last) && Enabled(s, l) && !Reopens(l)
    ensures ViewInv(Next(s, l).cur, Next(s, l).last)
  {
    hide ViewInv, Located, Dated, PassCore, Reaches, Settled, Replay, ValidRecord;
    hide Write, Rotate, Commit, ScanOne, Start;
    if l.WriteRecord? {
      WriteKeeps(s.cur, s.last, l.rec);
    } else if l.FinishRotation? {
      RotateKeeps(s.cur, s.phase.next, s.last);
    } else if l.FinishCommit? || l.FinishCommitUncertain? {
      CommitKeeps(s.cur, s.last, s.pass.value);
    }
  }

  /** No host crash, and no Open that brings a key back. */
  ghost predicate Uncrashed(labels: seq<Label>) {
    forall i :: 0 <= i < |labels| ==>
      !labels[i].CrashAndOpen? && (labels[i].ExitAndOpen? ==> BringsNothing(labels[i].found, labels[i].scan))
  }

  ghost predicate BringsNothing(v: View, scan: seq<nat>) {
    Lists(scan, v.segs.Keys) ==> NoneComesBack(v, scan)
  }

  lemma {:induction false} FullRun(s: Sys, labels: seq<Label>)
    requires Inv(s) && ViewInv(s.cur, s.last) && Uncrashed(labels) && Run(s, labels).Some?
    ensures var t := Run(s, labels).value; Inv(t) && ViewInv(t.cur, t.last)
    decreases |labels|
  {
    hide MemInv, DiskInv, Abandoned, SolidFull, Apart, ViewInv, Next, NoneComesBack, Enabled, Lists;
    if labels != [] {
      var l := labels[0];
      RunStep(s, labels);
      InvStep(s, l);
      if l.ExitAndOpen? {
        Reopening(s, l);
        FullExit(s, l.found, l.scan, l.freshID);
      } else {
        FullStep(s, l);
      }
      FullRun(Next(s, l), labels[1..]);
    }
  }

  lemma {:induction false} RunSplit(s: Sys, a: seq<Label>, b: seq<Label>)
    requires Run(s, a + b).Some?
    ensures Run(s, a).Some? && Run(Run(s, a).value, b) == Run(s, a + b)
    decreases |a|
  {
    hide Enabled, Next;
    if a == [] {
      assert a + b == b;
    } else {
      RunStep(s, a + b);
      assert (a + b)[1..] == a[1..] + b;
      RunSplit(Next(s, a[0]), a[1..], b);
    }
  }

  /** Close and Open after any run that spares every key, through any number of crashes, with any session behind it,
      prudent or not: the rebuilt keydir is the one that was running exactly when no put of a deleted key is scanned
      after all the tombstones that are not older than it. */
  lemma ReopenAfterRun(maxSize: nat, before: seq<Label>, labels: seq<Label>, order: seq<nat>)
    requires (forall k :: SparingRun(Init(maxSize), before, k)) && Uncrashed(labels)
    requires Run(Init(maxSize), before + labels).Some?
    requires Lists(order, Run(Init(maxSize), before + labels).value.cur.segs.Keys)
    ensures var v := Run(Init(maxSize), before + labels).value.cur;
      Reopened(order, v.segs) == v.kd <==> NoneComesBack(v, order)
  {
    hide Run, Init, Safe, Inv, ViewInv, Reopened, NoneComesBack, SparingRun, Uncrashed;
    RunSplit(Init(maxSize), before, labels);
    var t := Run(Init(maxSize), before).value;
    forall k ensures Safe(t, k) {
      InitSafe(maxSize, k);
      SafeRun(Init(maxSize), before, k);
    }
    AllKept(t);
    FullRun(t, labels);
    var s := Run(t, labels).value;
    ReopenExact(s.cur, s.last, order);
  }

  /** The same of one key, in every run that spares it, whatever that run does to others. */
  lemma ReopenKeyAfterRun(maxSize: nat, labels: seq<Label>, order: seq<nat>, k: Key)
    requires SparingRun(Init(maxSize), labels, k) && Run(Init(maxSize), labels).Some?
    requires Lists(order, Run(Init(maxSize), labels).value.cur.segs.Keys)
    ensures var v := Run(Init(maxSize), labels).value.cur; var kd := Reopened(order, v.segs);
      && (k in v.kd ==> k in kd && kd[k] == v.kd[k])
      && ((k in kd <==> k in v.kd) <==> StaysGone(v, order, k))
  {
    hide Run, Init, MemInv, DiskInv, Abandoned, SolidFull, Apart, PassKey;
    hide KeyInv, Dated, Reopened, StaysGone, SparingRun;
    InitSafe(maxSize, k);
    SafeRun(Init(maxSize), labels, k);
    var s := Run(Init(maxSize), labels).value;
    CurrentSurvives(s);
    SurvivorFacts(s, s.cur);
    ReopenKeyExact(s.cur, s.last, order, k);
  }

  // ---------------------------------------------------------------- runs that commit no compaction

  ghost predicate CommitsNothing(labels: seq<Label>) {
    forall i :: 0 <= i < |labels| ==> !labels[i].RenameForCommit?
  }

  /** Segments in id order are segments in time order, and the active one is the last. */
  ghost predicate Ordered(v: View) {
    Chronological(v.segs) && forall i :: i in v.segs ==> i <= v.active
  }

  /** So it is in every view that a crash may leave. */
  ghost predicate InTimeOrder(s: Sys) {
    && (forall v :: v in s.survivors ==> Ordered(v))
    && (s.phase.Rotating? || s.phase.RotationRenamed? ==> s.cur.active < s.phase.next)
    && !s.phase.CommitRenamed?
  }

  lemma OrderedWrite(v: View, last: int, r: Record)
    requires Dated(v, last) && Ordered(v) && last < r.tstamp
    ensures v.active in v.segs && Ordered(Write(v, r))
  {
    hide LogItems, PublishAll, ApplyAll, LogSize, ValidLog;
    var off := LogSize(v.segs[v.active]);
    forall i, item
      ensures Has(Write(v, r).segs, i, item) <==>
        Has(v.segs, i, item) || (i == v.active && item in RecordItems(r, off))
    {
      HasAfterWrite(v, r, i, item);
    }
    ItemsDated(r, off);
  }

  lemma ItemsDated(r: Record, off: nat)
    ensures forall item :: item in RecordItems(r, off) ==> item.tstamp == r.tstamp
  {
  }

  lemma OrderedRotate(v: View, next: nat, last: int)
    requires Ordered(v) && forall i :: i in v.segs ==> i < next
    ensures Ordered(Rotate(v, next, last))
  {
    hide LogItems;
    forall i, item ensures Has(Rotate(v, next, last).segs, i, item) <==> Has(v.segs, i, item) {
      HasAfterRotate(v, next, last, i, item);
    }
  }

  /** Open leaves the segments as they are, but for a new one. */
  lemma OrderedOpened(s: Sys, v: View, scan: seq<nat>, freshID: nat)
    requires Finds(s, v, scan) && Ordered(v)
    requires forall i :: i in v.segs ==> i < freshID
    ensures Ordered(Opened(s, v, scan, freshID).cur)
  {
    hide Chronological, Reopened, Contents, SegsClock, Repair, Replay, LogSize;
    var last := SegsClock(0, scan, v.segs);
    OrderedRotate(v, freshID, last);
    assert Opened(s, v, scan, freshID).cur.segs in {v.segs, Rotate(v, freshID, last).segs};
  }

  lemma OrderedReopen(s: Sys, l: Label)
    requires Inv(s) && InTimeOrder(s) && Enabled(s, l) && Reopens(l)
    ensures InTimeOrder(Next(s, l))
  {
    hide Inv, Ordered, Opened;
    var v, scan, freshID := l.found, l.scan, l.freshID;
    assert v.active in v.segs && Lists(scan, v.segs.Keys) && Ordered(v);
    SurvivorFacts(s, v);
    OrderedOpened(s, v, scan, freshID);
    if l.ExitAndOpen? {
      ResumedFields(s, v, scan, freshID);
      var t := Next(s, l);
      forall u | u in s.survivors ensures Ordered(u.(seal := t.cur.seal)) {
        OrderedSeal(u, t.cur.seal);
      }
    } else {
      OpenedFields(s, v, scan, freshID);
    }
  }

  lemma OpenedFields(s: Sys, v: View, scan: seq<nat>, freshID: nat)
    requires Finds(s, v, scan)
    ensures var t := Opened(s, v, scan, freshID);
      t.survivors == {t.cur} && t.phase == Idle && t.maxSize == s.maxSize && t.mergedIds == s.mergedIds * v.segs.Keys
  {
    hide Reopened, Contents, SegsClock, Repair, Replay, LogSize;
  }

  lemma OrderedSeal(v: View, seal: int)
    requires Ordered(v)
    ensures Ordered(v.(seal := seal))
  {
  }

  lemma OrderedWrites(s: Sys, r: Record)
    requires Inv(s) && InTimeOrder(s) && Enabled(s, WriteRecord(r))
    ensures InTimeOrder(Next(s, WriteRecord(r)))
  {
    hide Inv, Ordered, Dated, ValidRecord, Write;
    CurrentSurvives(s);
    forall v | v in s.survivors ensures v.active in v.segs && Ordered(Write(v, r)) {
      SurvivorFacts(s, v);
      OrderedWrite(v, s.last, r);
    }
    assert Write(s.cur, r).active == s.cur.active by { WriteActive(s.cur, r); }
  }

  lemma WriteActive(v: View, r: Record)
    requires v.active in v.segs
    ensures Write(v, r).active == v.active
  {
  }

  lemma OrderedRename(s: Sys)
    requires Inv(s) && InTimeOrder(s) && Enabled(s, RenameForRotation)
    ensures InTimeOrder(Next(s, RenameForRotation))
  {
    hide Sound, Dated, PassInv, Replay, SurvivorOk, Chronological, Lags, Abandoned, SolidFull, Apart;
    assert s.survivors == {s.cur};
    assert Ordered(s.cur);
    OrderedRotate(s.cur, s.phase.next, s.last);
    assert Next(s, RenameForRotation).survivors == {s.cur, Rotate(s.cur, s.phase.next, s.last)};
  }

  lemma OrderedQuiet(s: Sys, l: Label)
    requires Inv(s) && InTimeOrder(s) && Enabled(s, l) && !Reopens(l)
    requires !l.WriteRecord? && !l.RenameForRotation? && !l.RenameForCommit?
    ensures InTimeOrder(Next(s, l))
  {
    hide Sound, Dated, PassInv, Replay, SurvivorOk, Ordered, Lags, Abandoned, SolidFull, Apart, ScanOne, Start;
    hide PassFiles, ValidLog, Twins, SameActive;
    if l.BeginRotation? {
      assert s.cur.active in s.cur.segs;
    }
  }

  lemma InTimeOrderStep(s: Sys, l: Label)
    requires Inv(s) && InTimeOrder(s) && Enabled(s, l) && !l.RenameForCommit?
    ensures InTimeOrder(Next(s, l))
  {
    hide Inv, InTimeOrder, Enabled, Next;
    if Reopens(l) {
      OrderedReopen(s, l);
    } else {
      match l
      case WriteRecord(r) => OrderedWrites(s, r);
      case RenameForRotation => OrderedRename(s);
      case _ => OrderedQuiet(s, l);
    }
  }

  /** Without a compaction, no Open brings anything back. */
  lemma NothingBack(s: Sys, v: View, order: seq<nat>)
    requires (forall k :: Safe(s, k)) && InTimeOrder(s) && v in s.survivors && Lists(order, v.segs.Keys)
    ensures Reopened(order, v.segs) == v.kd && NoneComesBack(v, order)
  {
    hide Inv, PassKey, KeyInv, Dated, Reopened, Chronological, StaysGone;
    assert Safe(s, []);
    SurvivorFacts(s, v);
    forall k ensures KeyInv(v, k) {
      assert Safe(s, k);
    }
    assert Ordered(v);
    ChronologicalReopens(v, s.last, order);
    ReopenExact(v, s.last, order);
  }

  lemma UncompactedSpares(s: Sys, l: Label, k: Key)
    requires (forall k :: Safe(s, k)) && InTimeOrder(s) && Enabled(s, l) && !l.RenameForCommit?
    ensures Spares(s, l, k)
  {
    hide Safe, InTimeOrder, StaysGone, Reopened;
    if Reopens(l) {
      assert l.found in s.survivors && Lists(l.scan, l.found.segs.Keys);
      NothingBack(s, l.found, l.scan);
    }
  }

  lemma {:induction false} UncompactedRun(s: Sys, labels: seq<Label>)
    requires (forall k :: Safe(s, k)) && InTimeOrder(s) && CommitsNothing(labels) && Run(s, labels).Some?
    ensures (forall k :: Safe(Run(s, labels).value, k)) && InTimeOrder(Run(s, labels).value)
    decreases |labels|
  {
    hide Safe, Enabled, Next, InTimeOrder, Spares;
    if labels != [] {
      var t := Next(s, labels[0]);
      RunStep(s, labels);
      forall k ensures Safe(t, k) {
        UncompactedSpares(s, labels[0], k);
        SafeStep(s, labels[0], k);
      }
      assert Inv(s) by { AllKept(s); }
      InTimeOrderStep(s, labels[0]);
      UncompactedRun(t, labels[1..]);
    }
  }

  lemma InitFull(maxSize: nat)
    ensures (forall k :: Safe(Init(maxSize), k)) && InTimeOrder(Init(maxSize))
  {
    hide Safe;
    forall k ensures Safe(Init(maxSize), k) {
      InitSafe(maxSize, k);
    }
    assert LogItems([]) == [];
  }

  /** In every history without a compaction, crashes and restarts included, whichever survivor a crash leaves: Open
      rebuilds exactly the keydir of what it finds, and Close then Open the one that was running. */
  lemma ReopenWithoutCompaction(maxSize: nat, labels: seq<Label>, v: View, order: seq<nat>)
    requires CommitsNothing(labels) && Run(Init(maxSize), labels).Some?
    requires var s := Run(Init(maxSize), labels).value; v == s.cur || v in s.survivors
    requires Lists(order, v.segs.Keys)
    ensures Reopened(order, v.segs) == v.kd
  {
    hide Run, Safe, Inv, InTimeOrder, Init, Reopened, NoneComesBack;
    InitFull(maxSize);
    UncompactedRun(Init(maxSize), labels);
    var s := Run(Init(maxSize), labels).value;
    AllKept(s);
    CurrentSurvives(s);
    NothingBack(s, v, order);
  }

  // ---------------------------------------------------------------- segment sizes

  /** A segment the writer filled is over the threshold only with a single record in it. */
  ghost predicate SizesAt(s: Sys, v: View) {
    forall i :: i in v.segs && i !in s.mergedIds ==> LogSize(v.segs[i]) <= s.maxSize || |v.segs[i]| == 1
  }

  ghost predicate SizesOk(s: Sys) {
    && (forall v :: v in s.survivors ==> SizesAt(s, v))
    && (s.pass.Some? ==> s.pass.value.mid in s.mergedIds)
  }

  lemma SizesWrite(s: Sys, r: Record, v: View)
    requires Inv(s) && SizesOk(s) && Enabled(s, WriteRecord(r)) && v in s.survivors && v.count == |s.hist|
    ensures v.active in v.segs && SizesAt(s, Write(v, r))
  {
    hide Sound, Dated, PassInv, Replay, Lags, ValidRecord, RecordItems, PublishAll;
    hide ApplyAll, Abandoned, SolidFull, Apart;
    hide Named, LogSize, PassFiles, StageOk, Twins;
    assert SizesAt(s, v) && SurvivorOk(s, v);
    assert v.active == s.cur.active && v.segs[v.active] == s.cur.segs[v.active];
    Append(v.segs[v.active], r);
  }

  lemma SizesWrites(s: Sys, r: Record)
    requires Inv(s) && SizesOk(s) && Enabled(s, WriteRecord(r))
    ensures SizesOk(Next(s, WriteRecord(r))) && Next(s, WriteRecord(r)).maxSize == s.maxSize
  {
    hide Inv, ValidRecord, LogSize, Write;
    CurrentSurvives(s);
    forall v | v in s.survivors && v.count == |s.hist| ensures v.active in v.segs && SizesAt(s, Write(v, r)) {
      SizesWrite(s, r, v);
    }
  }

  lemma SizesRotate(s: Sys, v: View, next: nat, last: int)
    requires SizesAt(s, v)
    ensures SizesAt(s, Rotate(v, next, last))
  {
  }

  lemma SizesCommit(s: Sys, v: View, c: Pass)
    requires SizesAt(s, v) && c.mid in s.mergedIds
    ensures SizesAt(s, Commit(v, c))
  {
    hide LogSize;
    forall i | i in Commit(v, c).segs && i !in s.mergedIds
      ensures i in v.segs && Commit(v, c).segs[i] == v.segs[i]
    {
      CommitSegs(v, c, i);
    }
  }

  lemma SizesQuiet(s: Sys, l: Label)
    requires Inv(s) && SizesOk(s) && Enabled(s, l) && !Reopens(l) && !l.WriteRecord?
    ensures SizesOk(Next(s, l)) && Next(s, l).maxSize == s.maxSize
  {
    hide Sound, Dated, PassInv, DiskInv, Replay, LogSize, Commit, Rotate, ScanOne, Start, Abandoned, SolidFull, Apart;
    if l.RenameForCommit? {
      forall v | v in s.survivors ensures SizesAt(s, Commit(v, s.pass.value)) {
        SizesCommit(s, v, s.pass.value);
      }
    } else if l.RenameForRotation? {
      forall v | v in s.survivors ensures SizesAt(s, Rotate(v, s.phase.next, s.last)) {
        SizesRotate(s, v, s.phase.next, s.last);
      }
    } else if l.Scan? {
      ScanFields(s.cur.kd, s.pass.value);
    }
  }

  lemma SizesOpened(s: Sys, v: View, scan: seq<nat>, freshID: nat)
    requires Finds(s, v, scan) && SizesAt(s, v)
    ensures var t := Opened(s, v, scan, freshID); SizesAt(t, t.cur) && t.maxSize == s.maxSize && t.pass.None?
  {
    hide Reopened, Contents, SegsClock, Repair, Replay;
  }

  lemma SizesReopen(s: Sys, l: Label)
    requires Inv(s) && SizesOk(s) && Enabled(s, l) && Reopens(l)
    ensures SizesOk(Next(s, l)) && Next(s, l).maxSize == s.maxSize
  {
    hide Inv, SizesAt, Opened, LogSize;
    var v, scan, freshID := l.found, l.scan, l.freshID;
    assert v.active in v.segs && Lists(scan, v.segs.Keys) && SizesAt(s, v);
    SurvivorFacts(s, v);
    SizesOpened(s, v, scan, freshID);
    OpenedFields(s, v, scan, freshID);
    var t := Next(s, l);
    if l.ExitAndOpen? {
      ResumedFields(s, v, scan, freshID);
      FoundTwins(s, v);
      forall u | u in s.survivors && u.gen == s.gen ensures SizesAt(t, u.(seal := t.cur.seal)) {
        LagKeys(u, v);
        SizesCut(s, t, u, v.segs.Keys);
      }
      SizesSame(Opened(s, v, scan, freshID), t, t.cur);
    }
  }

  lemma LagKeys(u: View, v: View)
    requires Lags(u, v)
    ensures u.segs.Keys == v.segs.Keys
  {
  }

  lemma SizesCut(s: Sys, t: Sys, v: View, ids: set<nat>)
    requires SizesAt(s, v) && t.maxSize == s.maxSize && t.mergedIds == s.mergedIds * ids && v.segs.Keys == ids
    ensures SizesAt(t, v.(seal := t.cur.seal))
  {
    hide LogSize;
  }

  lemma SizesSame(s: Sys, t: Sys, v: View)
    requires SizesAt(s, v) && t.maxSize == s.maxSize && t.mergedIds == s.mergedIds
    ensures SizesAt(t, v)
  {
    hide LogSize;
  }

  lemma {:induction false} SizesRun(s: Sys, labels: seq<Label>)
    requires Inv(s) && SizesOk(s) && Run(s, labels).Some?
    ensures Inv(Run(s, labels).value) && SizesOk(Run(s, labels).value) && Run(s, labels).value.maxSize == s.maxSize
    decreases |labels|
  {
    hide Inv, Enabled, Next, SizesOk;
    if labels != [] {
      var l := labels[0];
      RunStep(s, labels);
      InvStep(s, l);
      if Reopens(l) {
        SizesReopen(s, l);
      } else if l.WriteRecord? {
        SizesWrites(s, l.rec);
      } else {
        SizesQuiet(s, l);
      }
      SizesRun(Next(s, l), labels[1..]);
    }
  }

  /** With a fixed threshold, in every run, crashes and restarts included: a segment that is not a compactor's exceeds
      it only when it holds exactly one record, in the running engine and in whatever a crash may leave. */
  lemma RotationBound(maxSize: nat, labels: seq<Label>, v: View, i: nat)
    requires Run(Init(maxSize), labels).Some?
    requires var s := Run(Init(maxSize), labels).value;
      (v == s.cur || v in s.survivors) && i in v.segs && i !in s.mergedIds
    ensures LogSize(v.segs[i]) <= maxSize || |v.segs[i]| == 1
  {
    hide Run, Inv, LogSize;
    InitInv(maxSize);
    SizesInit(maxSize);
    SizesRun(Init(maxSize), labels);
    var s := Run(Init(maxSize), labels).value;
    CurrentSurvives(s);
    assert SizesAt(s, v);
  }

  lemma SizesInit(maxSize: nat)
    ensures SizesOk(Init(maxSize)) && Init(maxSize).maxSize == maxSize
  {
  }
}
