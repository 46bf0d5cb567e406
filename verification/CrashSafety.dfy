/** What a host crash may lose, key by key: a key is recovered from every view a crash may leave as long as no commit
    drops its record and no crash brings it back, whatever becomes of other keys. */
module CrashSafety {
  import opened Bytes
  import opened Wrappers
  import opened Record
  import opened Log
  import opened Keydirs
  import opened View
  import opened Compaction
  import opened Reopen
  import opened Engine
  import opened Refinement
  import opened Durability

  /** Whatever a crash may leave of the running manifest, k is as the pass has copied it, if it has, and the pass has
      looked at its entry once it has been looked at since its last record. */
  ghost predicate CoversAt(s: Sys, c: Pass, k: Key) {
    forall v :: v in s.survivors && v.gen == s.cur.gen ==>
      SettledAt(v, c, k) && (c.seen <= v.count ==> ReachesAt(v, c, k))
  }

  ghost predicate PassKey(s: Sys, k: Key) {
    !s.disabled ==>
      && (s.pass.Some? ==> CoversAt(s, s.pass.value, k))
      && (s.picked.Some? ==> CoversAt(s, s.picked.value.(mid := s.nextID), k))
  }

  /** From every view that a crash may leave, k can be recovered. */
  ghost predicate Recoverable(s: Sys, k: Key) {
    forall v :: v in s.survivors ==> KeyInv(v, k)
  }

  ghost predicate Safe(s: Sys, k: Key) {
    Inv(s) && Recoverable(s, k) && PassKey(s, k)
  }

  /** The step does k no harm: a commit keeps it in every view that it makes, a crash does not bring it back. */
  ghost predicate Spares(s: Sys, l: Label, k: Key) {
    && (l.RenameForCommit? && s.pass.Some? ==>
          forall v :: v in s.survivors && v.gen == s.gen ==> Kept(v, s.pass.value, k))
    && (Reopens(l) && l.found.active in l.found.segs && Lists(l.scan, l.found.segs.Keys) ==>
          StaysGone(l.found, l.scan, k))
  }

  lemma InitSafe(maxSize: nat, k: Key)
    ensures Safe(Init(maxSize), k)
  {
    InitInv(maxSize);
    assert LogItems([]) == [];
  }

  // ---------------------------------------------------------------- the steps that change a view

  lemma WriteRecoverable(s: Sys, r: Record, k: Key)
    requires Safe(s, k) && Enabled(s, WriteRecord(r))
    ensures Recoverable(Next(s, WriteRecord(r)), k)
  {
    hide KeyInv, Dated, MemInv, PassKey, ValidRecord, RecordItems, PublishAll, ApplyAll, LogSize, Write;
    forall v | v in s.survivors ensures v.active in v.segs && KeyInv(Write(v, r), k) {
      assert SurvivorOk(s, v);
      WriteKeepsKey(v, s.last, r, k);
    }
  }

  lemma WriteCovers(s: Sys, r: Record, c: Pass, k: Key)
    requires Inv(s) && Enabled(s, WriteRecord(r)) && CoversAt(s, c, k) && PassInv(s.cur, c)
    ensures CoversAt(Next(s, WriteRecord(r)), c, k)
  {
    hide Located, Dated, PassCore, SettledAt, ReachesAt, Lags, Replay, ValidRecord;
    hide RecordItems, PublishAll, ApplyAll, LogSize;
    hide SurvivorOk, PassFiles, StageOk, SameActive;
    WritePassKeeps(s.cur, s.last, c, r);
    assert SettledAt(Write(s.cur, r), c, k) && ReachesAt(Write(s.cur, r), c, k);
  }

  lemma WritePasses(s: Sys, r: Record, k: Key)
    requires Safe(s, k) && Enabled(s, WriteRecord(r))
    ensures PassKey(Next(s, WriteRecord(r)), k)
  {
    hide Sound, PassInv, DiskInv, CoversAt, Replay, ValidRecord, Recoverable, Write;
    if s.pass.Some? && !s.disabled {
      WriteCovers(s, r, s.pass.value, k);
    }
    if s.picked.Some? && !s.disabled {
      WriteCovers(s, r, s.picked.value.(mid := s.nextID), k);
    }
  }

  lemma BeginRotationPasses(s: Sys, k: Key)
    requires Safe(s, k) && Enabled(s, BeginRotation)
    ensures PassKey(Next(s, BeginRotation), k)
  {
    hide Sound, DiskInv, PassInv, SettledAt, ReachesAt, Replay, Recoverable;
    if s.picked.Some? && !s.disabled {
      var c := s.picked.value.(mid := s.nextID);
      forall v | v in s.survivors && v.gen == s.cur.gen
        ensures SettledAt(v, c.(mid := s.nextID + 1), k)
        ensures c.seen <= v.count ==> ReachesAt(v, c.(mid := s.nextID + 1), k)
      {
        RenumberKey(v, c, s.nextID + 1, k);
      }
    }
  }

  lemma RenameForRotationRecoverable(s: Sys, k: Key)
    requires Safe(s, k) && Enabled(s, RenameForRotation)
    ensures Recoverable(Next(s, RenameForRotation), k)
  {
    hide KeyInv, Sound, Dated, PassInv, Lags, Replay, PassKey;
    var t := Next(s, RenameForRotation);
    RotateKeepsKey(s.cur, s.phase.next, s.last, k);
    assert s.survivors == {s.cur};
    assert t.survivors == {s.cur, Rotate(s.cur, s.phase.next, s.last)};
  }

  lemma FinishRotationPasses(s: Sys, k: Key)
    requires Safe(s, k) && Enabled(s, FinishRotation)
    ensures PassKey(Next(s, FinishRotation), k)
  {
    hide Sound, Dated, PassCore, SettledAt, ReachesAt, Lags, Replay, Recoverable;
    var t := Next(s, FinishRotation);
    var w := Rotate(s.cur, s.phase.next, s.last);
    assert t.survivors == {w};
    if s.pass.Some? {
      RotatePassKeeps(s.cur, s.last, s.pass.value, s.phase.next);
      assert SettledAt(w, s.pass.value, k) && ReachesAt(w, s.pass.value, k);
    }
    if s.picked.Some? {
      var c := s.picked.value.(mid := s.nextID);
      RotatePassKeeps(s.cur, s.last, c, s.phase.next);
      assert SettledAt(w, c, k) && ReachesAt(w, c, k);
    }
  }

  lemma SnapshotPasses(s: Sys, order: seq<nat>, k: Key)
    requires Safe(s, k) && Enabled(s, Snapshot(order))
    ensures PassKey(Next(s, Snapshot(order)), k)
  {
    hide Sound, Dated, PassCore, Replay, Start, Recoverable, ReachesAt, Lags;
    var c := Start(s.cur, order, s.nextID);
    SnapshotStarts(s, order);
    StartFields(s.cur, order, s.nextID);
    assert c.(mid := s.nextID) == c;
    assert ReachesAt(s.cur, c, k);
  }

  lemma ScanPasses(s: Sys, k: Key)
    requires Safe(s, k) && Enabled(s, Scan)
    ensures PassKey(Next(s, Scan), k)
  {
    hide Located, KeyInv, Dated, PassCore, SettledAt, ReachesAt, Replay, ScanOne, Lags, PassFiles, StageOk, SameActive;
    var c := s.pass.value;
    var d := ScanOne(s.cur.kd, c).(seen := s.cur.count);
    ScanKeeps(s.cur, s.last, c);
    ScanFields(s.cur.kd, c);
    MarksKeep(s.cur, ScanOne(s.cur.kd, c), s.cur.count, c.ready);
    assert SettledAt(s.cur, d, k) && ReachesAt(s.cur, d, k);
    forall v | !s.disabled && v in s.survivors && v.gen == s.cur.gen ensures SettledAt(v, d, k) {
      assert SurvivorOk(s, v);
      LagScan(v, s.cur, s.last, c, k);
      MarksKeepKey(v, ScanOne(s.cur.kd, c), s.cur.count, c.ready, k);
    }
  }

  lemma SyncMergedPasses(s: Sys, k: Key)
    requires Safe(s, k) && Enabled(s, SyncMerged)
    ensures PassKey(Next(s, SyncMerged), k)
  {
    hide Inv, Recoverable, SettledAt, ReachesAt;
    var c := s.pass.value;
    forall v | v in s.survivors
      ensures SettledAt(v, c, k) ==> SettledAt(v, c.(ready := true), k)
      ensures ReachesAt(v, c, k) ==> ReachesAt(v, c.(ready := true), k)
    {
      MarksKeepKey(v, c, c.seen, true, k);
    }
  }

  /** k can be recovered from the view behind the new manifest, for each prefix of the unsynced records a crash may
      keep. */
  lemma RenameForCommitRecoverable(s: Sys, k: Key)
    requires Safe(s, k) && Enabled(s, RenameForCommit) && Spares(s, RenameForCommit, k)
    ensures Recoverable(Next(s, RenameForCommit), k)
  {
    hide Located, KeyInv, Dated, PassCore, SettledAt, ReachesAt, Lags, Replay, Commit, Kept;
    var c := s.pass.value;
    forall v | v in s.survivors && v.gen == s.gen ensures KeyInv(Commit(v, c), k) {
      assert SurvivorOk(s, v);
      LagCore(v, s.cur, c);
      CommitKeepsKey(v, s.last, c, k);
    }
  }

  // ---------------------------------------------------------------- crash and open

  /** A key that does not come back is in the engine Open brings up as it was in the view found. */
  lemma OpenedKey(s: Sys, v: View, scan: seq<nat>, freshID: nat, k: Key)
    requires Finds(s, v, scan)
    requires Inv(s) && Enabled(s, CrashAndOpen(v, scan, freshID)) && KeyInv(v, k) && StaysGone(v, scan, k)
    ensures var u := Opened(s, v, scan, freshID).cur;
      && KeyInv(u, k) && (k in u.kd <==> k in v.kd) && (k in u.store <==> k in v.store)
      && (k in v.kd ==> u.kd[k] == v.kd[k] && u.store[k] == v.store[k])
  {
    hide Inv, Dated, At, LogSize, StaysGone, Reopened, Replay, SegsClock, ReadEntry, NewestAt, Hidden;
    SurvivorFacts(s, v);
    ReopenKeyExact(v, s.last, scan, k);
    if k in v.kd {
      DatedValid(v, s.last);
      AtReads(v.segs, k, v.kd[k], v.store[k]);
    }
    var kd := Reopened(scan, v.segs);
    var w := v.(kd := kd, store := Contents(v.segs, kd));
    assert NewestAt(w, k) by { SameNewest(v, w, k); }
    var clock := SegsClock(0, scan, v.segs);
    RotateKeepsKey(w, freshID, clock, k);
    OpenedCur(s, v, scan, freshID, k);
  }

  lemma SameNewest(v: View, w: View, k: Key)
    requires NewestAt(v, k) && w.segs == v.segs && (k in w.kd <==> k in v.kd) && (k in v.kd ==> w.kd[k] == v.kd[k])
    ensures NewestAt(w, k)
  {
  }

  /** What KeyInv sees of the engine that Open brings up. */
  lemma OpenedCur(s: Sys, v: View, scan: seq<nat>, freshID: nat, k: Key)
    requires Finds(s, v, scan) && freshID !in v.segs
    ensures var kd := Reopened(scan, v.segs); var w := v.(kd := kd, store := Contents(v.segs, kd));
      var u := Opened(s, v, scan, freshID).cur;
      && u.kd == w.kd && u.store == w.store
      && (KeyInv(w, k) && KeyInv(Rotate(w, freshID, SegsClock(0, scan, v.segs)), k) ==> KeyInv(u, k))
  {
    hide Reopened, Contents, Replay, SegsClock, At, Has, Hidden;
  }

  lemma OpenedSafe(s: Sys, v: View, scan: seq<nat>, freshID: nat, k: Key)
    requires Finds(s, v, scan)
    requires Safe(s, k) && Enabled(s, CrashAndOpen(v, scan, freshID)) && StaysGone(v, scan, k)
    ensures var t := Opened(s, v, scan, freshID); Recoverable(t, k) && PassKey(t, k)
  {
    hide KeyInv, Inv, LogSize, StaysGone, Reopened, Contents, SegsClock, Replay, Repair, Rotate;
    OpenedKey(s, v, scan, freshID, k);
  }

  lemma ResumedSafe(s: Sys, v: View, scan: seq<nat>, freshID: nat, k: Key)
    requires Finds(s, v, scan)
    requires Safe(s, k) && Enabled(s, ExitAndOpen(v, scan, freshID)) && StaysGone(v, scan, k)
    ensures var t := Resumed(s, v, scan, freshID); Recoverable(t, k) && PassKey(t, k)
  {
    hide Inv, LogSize, StaysGone, Reopened, Contents, SegsClock, Replay, Repair, Opened, LocatedAt, NewestAt, DeletedAt;
    OpenedKey(s, v, scan, freshID, k);
    ResumedFields(s, v, scan, freshID);
    var t := Resumed(s, v, scan, freshID);
    forall u | u in s.survivors ensures KeyInv(u.(seal := t.cur.seal), k) {
      SealKeeps(u, t.cur.seal, k);
    }
  }

  lemma SealKeeps(v: View, seal: int, k: Key)
    requires KeyInv(v, k)
    ensures KeyInv(v.(seal := seal), k)
  {
  }

  // ---------------------------------------------------------------- every step, every run

  lemma QuietPasses(s: Sys, l: Label, k: Key)
    requires Safe(s, k) && Enabled(s, l)
    requires !l.WriteRecord? && !l.BeginRotation? && !l.FinishRotation? && !l.Snapshot? && !l.Scan? && !l.SyncMerged?
    requires !Reopens(l)
    ensures PassKey(Next(s, l), k)
  {
    hide Sound, Dated, PassInv, SettledAt, ReachesAt, Lags, Replay, Recoverable;
    hide SurvivorOk, PassFiles, SameActive, SwapAll;
  }

  lemma QuietRecoverable(s: Sys, l: Label, k: Key)
    requires Safe(s, k) && Enabled(s, l)
    requires !l.WriteRecord? && !l.RenameForRotation? && !l.RenameForCommit? && !Reopens(l)
    ensures Recoverable(Next(s, l), k)
  {
    hide KeyInv, MemInv, DiskInv, PassKey, Commit, Rotate, ScanOne, Start;
    assert forall v :: v in s.survivors ==> v.count <= |s.hist| by { InvCounts(s); }
  }

  lemma InvCounts(s: Sys)
    requires MemInv(s)
    ensures forall v :: v in s.survivors ==> v.count <= |s.hist|
  {
  }

  lemma SafeStep(s: Sys, l: Label, k: Key)
    requires Safe(s, k) && Enabled(s, l) && Spares(s, l, k)
    ensures Safe(Next(s, l), k)
  {
    hide MemInv, DiskInv, Abandoned, SolidFull, Apart, Recoverable, PassKey, Next, Opened, Resumed, StaysGone;
    InvStep(s, l);
    match l
    case WriteRecord(r) => WriteRecoverable(s, r, k); WritePasses(s, r, k);
    case BeginRotation => QuietRecoverable(s, l, k); BeginRotationPasses(s, k);
    case RenameForRotation => RenameForRotationRecoverable(s, k); QuietPasses(s, l, k);
    case FinishRotation => QuietRecoverable(s, l, k); FinishRotationPasses(s, k);
    case Snapshot(order) => QuietRecoverable(s, l, k); SnapshotPasses(s, order, k);
    case Scan => QuietRecoverable(s, l, k); ScanPasses(s, k);
    case SyncMerged => QuietRecoverable(s, l, k); SyncMergedPasses(s, k);
    case RenameForCommit => RenameForCommitRecoverable(s, k); QuietPasses(s, l, k);
    case CrashAndOpen(v, scan, freshID) =>
      CrashSpares(s, v, scan, freshID, k);
      OpenedSafe(s, v, scan, freshID, k);
    case ExitAndOpen(v, scan, freshID) =>
      ResumedFields(s, v, scan, freshID);
      ResumedSafe(s, v, scan, freshID, k);
    case _ => QuietRecoverable(s, l, k); QuietPasses(s, l, k);
  }

  lemma CrashSpares(s: Sys, v: View, scan: seq<nat>, freshID: nat, k: Key)
    requires Inv(s) && Enabled(s, CrashAndOpen(v, scan, freshID)) && Spares(s, CrashAndOpen(v, scan, freshID), k)
    ensures Lists(scan, v.segs.Keys) && v.active in v.segs && v.count <= |s.hist| && StaysGone(v, scan, k)
    ensures forall u :: u in s.survivors ==> u.count <= |s.hist|
    ensures Next(s, CrashAndOpen(v, scan, freshID)) == Opened(s, v, scan, freshID)
  {
    hide StaysGone, MemInv, Opened;
    SurvivorFacts(s, v);
  }

  /** Every step of the run spares k. */
  ghost predicate SparingRun(s: Sys, labels: seq<Label>, k: Key)
    decreases |labels|
  {
    labels != [] && Enabled(s, labels[0]) && (forall v :: v in s.survivors ==> v.count <= |s.hist|) ==>
      Spares(s, labels[0], k) && SparingRun(Next(s, labels[0]), labels[1..], k)
  }

  lemma {:induction false} SafeRun(s: Sys, labels: seq<Label>, k: Key)
    requires Safe(s, k) && SparingRun(s, labels, k) && Run(s, labels).Some?
    ensures Safe(Run(s, labels).value, k)
    decreases |labels|
  {
    hide Safe, Enabled, Next, Spares;
    if labels != [] {
      RunStep(s, labels);
      SafeStep(s, labels[0], k);
      SafeRun(Next(s, labels[0]), labels[1..], k);
    }
  }

  /** At every step of every run that spares k, whatever manifest and whatever prefix of the unsynced records a crash
      leaves: if k's last surviving write is a put, recovery in any order finds that put and reads its value. */
  lemma KeyRecovers(maxSize: nat, labels: seq<Label>, v: View, order: seq<nat>, k: Key)
    requires SparingRun(Init(maxSize), labels, k) && Run(Init(maxSize), labels).Some?
    requires v in Run(Init(maxSize), labels).value.survivors && Enumerates(order, v.segs.Keys)
    ensures v.count <= |Run(Init(maxSize), labels).value.hist|
    ensures var store := Replay(Run(Init(maxSize), labels).value.hist[..v.count]);
      k in store ==>
        k in Reopened(order, v.segs) && ReadEntry(v.segs, Reopened(order, v.segs)[k]) == Some(store[k])
  {
    hide MemInv, Run, Init, Replay, ReadEntry, Dated, NewestAt, DeletedAt, Reopened, PassKey, At;
    InitSafe(maxSize, k);
    SafeRun(Init(maxSize), labels, k);
    var s := Run(Init(maxSize), labels).value;
    SurvivorFacts(s, v);
    assert KeyInv(v, k);
    if k in v.store {
      PutsRecovered(v, s.last, order, k);
      DatedValid(v, s.last);
      AtReads(v.segs, k, v.kd[k], v.store[k]);
    }
  }

  // ---------------------------------------------------------------- prudence spares every key

  /** A commit is prudent when every record written before the pass last looked at the keydir has been synced, a crash
      when no deleted key comes back. */
  ghost predicate Prudent(s: Sys, l: Label) {
    && (l.RenameForCommit? && s.pass.Some? ==> s.pass.value.seen <= s.durable)
    && (Reopens(l) && l.found.active in l.found.segs && Lists(l.scan, l.found.segs.Keys) ==>
          NoneComesBack(l.found, l.scan))
  }

  lemma PrudentSpares(s: Sys, l: Label, k: Key)
    requires Safe(s, k) && Enabled(s, l) && Prudent(s, l)
    ensures Spares(s, l, k)
  {
    hide StaysGone, KeyInv, Sound, PassCore, Dated, Lags, Replay, Settled, SettledAt, ReachesAt, Reaches, Kept;
    if l.RenameForCommit? {
      forall v | v in s.survivors && v.gen == s.gen ensures Kept(v, s.pass.value, k) {
        assert SurvivorOk(s, v);
        PassKeeps(v, s.pass.value, k);
      }
    }
  }

  ghost predicate PrudentRun(s: Sys, labels: seq<Label>)
    decreases |labels|
  {
    labels != [] && Enabled(s, labels[0]) && (forall v :: v in s.survivors ==> v.count <= |s.hist|) ==>
      Prudent(s, labels[0]) && PrudentRun(Next(s, labels[0]), labels[1..])
  }

  lemma {:induction false} PrudentRunSpares(s: Sys, labels: seq<Label>, k: Key)
    requires Safe(s, k) && PrudentRun(s, labels) && Run(s, labels).Some?
    ensures SparingRun(s, labels, k)
    decreases |labels|
  {
    hide Safe, Enabled, Next, Prudent, Spares;
    if labels != [] {
      RunStep(s, labels);
      PrudentSpares(s, labels[0], k);
      SafeStep(s, labels[0], k);
      PrudentRunSpares(Next(s, labels[0]), labels[1..], k);
    }
  }

  /** So in a run whose commits are prudent and whose crashes bring nothing back, every key whose last surviving write
      is a put is recovered with its value, from every view a crash may leave. */
  lemma CrashRecovers(maxSize: nat, labels: seq<Label>, v: View, order: seq<nat>, k: Key)
    requires PrudentRun(Init(maxSize), labels) && Run(Init(maxSize), labels).Some?
    requires v in Run(Init(maxSize), labels).value.survivors && Enumerates(order, v.segs.Keys)
    ensures v.count <= |Run(Init(maxSize), labels).value.hist|
    ensures var store := Replay(Run(Init(maxSize), labels).value.hist[..v.count]);
      k in store ==>
        k in Reopened(order, v.segs) && ReadEntry(v.segs, Reopened(order, v.segs)[k]) == Some(store[k])
  {
    hide Safe, Run, Init, Replay, ReadEntry, Reopened, SparingRun, PrudentRun;
    InitSafe(maxSize, k);
    PrudentRunSpares(Init(maxSize), labels, k);
    KeyRecovers(maxSize, labels, v, order, k);
  }

  // ---------------------------------------------------------------- the conditions are exact

  /** A commit keeps a live key of a view exactly when its record is outside the inputs or has its rewrite. */
  lemma CommitLosesExactly(v: View, last: int, c: Pass, order: seq<nat>, k: Key)
    requires Dated(v, last) && PassCore(v, c) && KeyInv(v, k) && SettledAt(v, c, k) && k in v.kd
    requires Enumerates(order, Commit(v, c).segs.Keys)
    ensures k in Reopened(order, Commit(v, c).segs) <==> Kept(v, c, k)
  {
    hide LogItems, LogSize, ValidRecord, DeletedAt, ScannedOnce, SwapAll, TodoOk, CopyItem, Copied, Reopened;
    var w, e := Commit(v, c), v.kd[k];
    var item := Item(Put(k, v.store[k]), e.pos, e.tstamp);
    CommitTimed(v, last, c);
    forall s, x | Has(w.segs, s, x) && x.op.key == k && e.fileID in c.cands ensures Rewritten(c, k, e) {
      OthersAfterCommit(v, last, c, s, x);
      var i :| 0 <= i < |c.merged| && c.rewrites[i].key == k && e == c.rewrites[i].oldEntry;
      assert Matches(c.rewrites, k, e, i);
    }
    if e.fileID !in c.cands {
      HasAfterCommit(v, c, e.fileID, item);
      forall s, x | Has(w.segs, s, x) && x.op.key == k ensures NotNewer(s, x, e) {
        OthersAfterCommit(v, last, c, s, x);
      }
      DominantRecovered(w.segs, order, e.fileID, item);
    } else if Rewritten(c, k, e) {
      var i :| Matches(c.rewrites, k, e, i);
      CopyOf(v, c, i);
      HasAfterCommit(v, c, c.mid, CopyItem(c, i));
      forall s, x | Has(w.segs, s, x) && x.op.key == k ensures s == c.mid && x == CopyItem(c, i) {
        OthersAfterCommit(v, last, c, s, x);
      }
      DominantRecovered(w.segs, order, c.mid, CopyItem(c, i));
    } else {
      AbsentNotRecovered(w.segs, order, k);
    }
  }

  /** Where a record of a live key can be after a commit, and how old it is. */
  lemma OthersAfterCommit(v: View, last: int, c: Pass, s: nat, x: Item)
    requires Dated(v, last) && PassCore(v, c) && Has(Commit(v, c).segs, s, x) && x.op.key in v.kd
    requires KeyInv(v, x.op.key) && SettledAt(v, c, x.op.key)
    ensures var e := v.kd[x.op.key];
      if s == c.mid then
        exists i :: 0 <= i < |c.merged| && x == CopyItem(c, i) && c.rewrites[i].key == x.op.key && x.tstamp <= c.cut
          && (e == c.rewrites[i].oldEntry || e.fileID !in c.cands)
      else s !in c.cands && e.fileID !in c.cands && NotNewer(s, x, e)
    ensures v.kd[x.op.key].fileID !in c.cands ==> c.cut < v.kd[x.op.key].tstamp
  {
    hide LogItems, LogSize, ValidRecord, DeletedAt, ScannedOnce, SwapAll, TodoOk, CopyItem, Copied;
    HasAfterCommit(v, c, s, x);
    if s == c.mid {
      var i :| 0 <= i < |c.merged| && x == CopyItem(c, i);
      CopyOf(v, c, i);
    }
  }

  /** The condition on commits is exact, in every run that has spared k so far, whatever it has done to other keys: the
      view a crash may leave keeps k if and only if its record is outside the inputs or has its rewrite. A view that
      holds everything the pass has seen always does. */
  lemma CommitSafeExactly(maxSize: nat, labels: seq<Label>, v: View, order: seq<nat>, k: Key)
    requires SparingRun(Init(maxSize), labels, k) && Run(Init(maxSize), labels).Some?
    requires var s := Run(Init(maxSize), labels).value;
      Enabled(s, RenameForCommit) && v in s.survivors && v.gen == s.gen && v.count <= |s.hist|
      && Enumerates(order, Commit(v, s.pass.value).segs.Keys) && k in Replay(s.hist[..v.count])
    ensures var s := Run(Init(maxSize), labels).value;
      && (forall u :: u in s.survivors ==> u.count <= |s.hist|)
      && Commit(v, s.pass.value) in Next(s, RenameForCommit).survivors
      && (k in Reopened(order, Commit(v, s.pass.value).segs) <==> Kept(v, s.pass.value, k))
    ensures var s := Run(Init(maxSize), labels).value; s.pass.value.seen <= v.count ==> Kept(v, s.pass.value, k)
  {
    hide MemInv, Init, Run, Replay, Reopened, Dated, KeyInv, Commit, Kept, SettledAt, ReachesAt;
    InitSafe(maxSize, k);
    SafeRun(Init(maxSize), labels, k);
    var s := Run(Init(maxSize), labels).value;
    SurvivorFacts(s, v);
    CommitFacts(s, v, k);
    CommitLosesExactly(v, s.last, s.pass.value, order, k);
    if s.pass.value.seen <= v.count {
      PassKeeps(v, s.pass.value, k);
    }
  }

  lemma CommitFacts(s: Sys, v: View, k: Key)
    requires Safe(s, k) && Enabled(s, RenameForCommit) && v in s.survivors && v.gen == s.gen && k in v.store
    ensures s.pass.value.todo == [] && PassCore(v, s.pass.value) && KeyInv(v, k) && k in v.kd
    ensures SettledAt(v, s.pass.value, k) && (s.pass.value.seen <= v.count ==> ReachesAt(v, s.pass.value, k))
  {
    hide Dated, Located, PassCore, SettledAt, ReachesAt, Lags, Replay, NewestAt, DeletedAt, At;
    LagCore(v, s.cur, s.pass.value);
    assert LocatedAt(v, k);
  }

  /** The condition on crashes is exact as well: what recovery makes of a deleted key is what it was if and only if no
      put of it is scanned after all its tombstones. */
  lemma CrashExactly(maxSize: nat, labels: seq<Label>, v: View, scan: seq<nat>, freshID: nat, k: Key)
    requires SparingRun(Init(maxSize), labels, k) && Run(Init(maxSize), labels).Some?
    requires Enabled(Run(Init(maxSize), labels).value, CrashAndOpen(v, scan, freshID))
    ensures var s := Run(Init(maxSize), labels).value;
      && v.count <= |s.hist| && Lists(scan, v.segs.Keys) && v.active in v.segs
      && ((k in Opened(s, v, scan, freshID).cur.kd <==> k in Replay(s.hist[..v.count])) <==> StaysGone(v, scan, k))
  {
    hide MemInv, Init, Run, Replay, Reopened, Contents, SegsClock, Dated, NewestAt, DeletedAt, StaysGone, At, LogSize;
    InitSafe(maxSize, k);
    SafeRun(Init(maxSize), labels, k);
    var s := Run(Init(maxSize), labels).value;
    SurvivorFacts(s, v);
    assert KeyInv(v, k);
    ReopenKeyExact(v, s.last, scan, k);
  }

  // ---------------------------------------------------------------- group commit makes commits prudent

  ghost predicate Synced(s: Sys) {
    s.durable == |s.hist|
  }

  /** What the pass in flight has seen is synced. */
  ghost predicate SeenSynced(s: Sys) {
    && (s.pass.Some? ==> s.pass.value.seen <= s.durable)
    && (s.picked.Some? ==> s.picked.value.seen <= s.durable)
  }

  predicate Looks(l: Label) {
    l.Snapshot? || l.Scan?
  }

  /** The commits among these steps were submitted before the first of them: no pass that looks at the keydir here is
      committed here. */
  ghost predicate SubmittedBefore(labels: seq<Label>) {
    forall i, j :: 0 <= i < j < |labels| && Looks(labels[i]) ==> !labels[j].RenameForCommit?
  }

  lemma {:induction false} NoCommitPrudent(s: Sys, labels: seq<Label>)
    requires forall i :: 0 <= i < |labels| ==> !labels[i].RenameForCommit? && !Reopens(labels[i])
    ensures PrudentRun(s, labels)
    decreases |labels|
  {
    hide Enabled, Next;
    if labels != [] && Enabled(s, labels[0]) && (forall v :: v in s.survivors ==> v.count <= |s.hist|) {
      NoCommitPrudent(Next(s, labels[0]), labels[1..]);
    }
  }

  lemma SeenSyncedStep(s: Sys, l: Label)
    requires Inv(s) && Enabled(s, l) && SeenSynced(s) && !Looks(l) && !Reopens(l)
    ensures Prudent(s, l) && SeenSynced(Next(s, l))
  {
    hide Sound, PassInv, DiskInv, Write, Rotate, Commit, Replay;
  }

  lemma {:induction false} BurstPrudent(s: Sys, labels: seq<Label>)
    requires Inv(s) && SeenSynced(s) && SubmittedBefore(labels) && Session(labels) && Run(s, labels).Some?
    ensures PrudentRun(s, labels)
    decreases |labels|
  {
    hide Inv, Enabled, Next, Prudent, SeenSynced, SubmittedBefore;
    if labels != [] {
      var l, t := labels[0], Next(s, labels[0]);
      RunStep(s, labels);
      TailSubmitted(labels);
      if Looks(l) {
        NoCommitPrudent(t, labels[1..]);
        assert Prudent(s, l) by { LooksPrudent(s, l); }
      } else {
        SeenSyncedStep(s, l);
        InvStep(s, l);
        BurstPrudent(t, labels[1..]);
      }
    }
  }

  lemma TailSubmitted(labels: seq<Label>)
    requires labels != [] && SubmittedBefore(labels)
    ensures SubmittedBefore(labels[1..])
    ensures Looks(labels[0]) ==> forall j :: 0 <= j < |labels[1..]| ==> !labels[1..][j].RenameForCommit?
  {
    var tail := labels[1..];
    forall i, j | 0 <= i < j < |tail| && Looks(tail[i]) ensures !tail[j].RenameForCommit? {
      assert Looks(labels[i + 1]);
      assert tail[j] == labels[j + 1];
    }
    forall j | Looks(labels[0]) && 0 <= j < |tail| ensures !tail[j].RenameForCommit? {
      assert tail[j] == labels[j + 1];
    }
  }

  lemma LooksPrudent(s: Sys, l: Label)
    requires Looks(l)
    ensures Prudent(s, l)
  {
  }

  lemma SyncedSeen(s: Sys)
    requires Inv(s) && Synced(s)
    ensures SeenSynced(s)
  {
  }

  /** A run made of bursts, each starting with everything synced. */
  ghost predicate GroupCommits(s: Sys, bursts: seq<seq<Label>>)
    decreases |bursts|
  {
    bursts != [] ==>
      && Synced(s) && SubmittedBefore(bursts[0]) && Session(bursts[0]) && Run(s, bursts[0]).Some?
      && GroupCommits(Run(s, bursts[0]).value, bursts[1..])
  }

  function Joined(bursts: seq<seq<Label>>): seq<Label> {
    if bursts == [] then [] else bursts[0] + Joined(bursts[1..])
  }

  lemma {:induction false} PrudentConcat(s: Sys, a: seq<Label>, b: seq<Label>)
    requires Run(s, a).Some? && PrudentRun(s, a) && PrudentRun(Run(s, a).value, b)
    ensures PrudentRun(s, a + b)
    decreases |a|
  {
    hide Enabled, Next, Prudent;
    if a == [] {
      assert a + b == b;
    } else {
      RunStep(s, a);
      PrudentConcat(Next(s, a[0]), a[1..], b);
      assert (a + b)[1..] == a[1..] + b;
    }
  }

  /** With SyncOnPut, as long as no final sync of a burst fails, every commit is prudent: so after such a run,
      whatever a crash leaves recovers as CrashRecovers says. */
  lemma {:induction false} GroupCommitIsPrudent(s: Sys, bursts: seq<seq<Label>>)
    requires Inv(s) && GroupCommits(s, bursts)
    ensures PrudentRun(s, Joined(bursts)) && Run(s, Joined(bursts)).Some? && Inv(Run(s, Joined(bursts)).value)
    decreases |bursts|
  {
    hide Inv, Synced, SeenSynced, SubmittedBefore, Session, Enabled, Next, Prudent, Run, PrudentRun;
    if bursts == [] {
      EmptyRun(s);
    } else {
      var t := Run(s, bursts[0]).value;
      SyncedSeen(s);
      BurstPrudent(s, bursts[0]);
      InvRun(s, bursts[0]);
      GroupCommitIsPrudent(t, bursts[1..]);
      PrudentConcat(s, bursts[0], Joined(bursts[1..]));
      RunConcat(s, bursts[0], Joined(bursts[1..]));
    }
  }

  lemma EmptyRun(s: Sys)
    ensures Run(s, []) == Some(s) && PrudentRun(s, [])
  {
  }
}
