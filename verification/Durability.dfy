/** What a host crash may leave, at every step of every run, whatever was synced or not: each manifest names only files
    that are there for good, clocks never run behind, and the engine that Open brings up serves a plain map again. */
module Durability {
  import opened Bytes
  import opened Wrappers
  import opened Record
  import opened Log
  import opened Keydirs
  import opened View
  import opened Compaction
  import opened Reopen
  import opened Engine
  import opened Refinement

  /** The manifest of v names only files that are there for good: their entries durable, the content of all but the
      active one exactly as the view has it and synced, but for shaky ones, the active one holding at least the records
      of the view. */
  ghost predicate Named(s: Sys, v: View) {
    forall i :: i in v.segs ==>
      && i in s.files && i in s.dirents
      && (if i == v.active then v.segs[i] <= s.files[i] else s.files[i] == v.segs[i] && (i in s.solid || i in s.shaky))
  }

  ghost predicate SurvivorOk(s: Sys, v: View) {
    && Dated(v, s.last) && v.active in v.segs && Named(s, v) && v.gen <= s.gen
    && s.durable <= v.count <= |s.hist| && v.store == Replay(s.hist[..v.count])
  }

  ghost predicate SurvivorsOk(s: Sys) {
    forall v :: v in s.survivors ==> SurvivorOk(s, v)
  }

  ghost predicate CurrentOk(s: Sys) {
    && s.cur in s.survivors && s.cur.active in s.cur.segs
    && s.cur.active in s.files && s.files[s.cur.active] == s.cur.segs[s.cur.active]
    && (forall i :: i in s.files ==> i < s.nextID && ValidLog(s.files[i]))
    && (s.disabled ==> s.phase.Idle?)
    && s.gen == if s.disabled || s.phase.RotationRenamed? || s.phase.CommitRenamed? then s.cur.gen + 1 else s.cur.gen
  }

  /** Views with the running engine's manifest are the running engine, or lag behind it. */
  ghost predicate Twins(s: Sys) {
    forall v :: v in s.survivors && v.gen == s.cur.gen ==> Lags(v, s.cur) && (v.count == |s.hist| ==> v == s.cur)
  }

  ghost predicate SameActive(s: Sys) {
    !s.disabled && !s.phase.RotationRenamed? ==>
      forall v :: v in s.survivors ==>
        && v.active == s.cur.active
        && (v.count == |s.hist| && v.active in v.segs && v.active in s.cur.segs ==>
              v.segs[v.active] == s.cur.segs[v.active])
  }

  ghost predicate PassFiles(s: Sys) {
    && (s.picked.Some? ==> s.picked.value.seen <= |s.hist|)
    && (s.pass.Some? ==> PassFile(s, s.pass.value))
  }

  ghost predicate PassFile(s: Sys, c: Pass) {
    && c.seen <= |s.hist|
    && (forall v :: v in s.survivors && c.mid in v.segs ==> s.phase.CommitRenamed? && v.gen == s.gen)
    && (c.ready && c.rewrites == [] ==> c.mid !in s.files)
    && (!(c.ready && c.rewrites == []) ==> c.mid in s.files && s.files[c.mid] == c.merged)
    && (c.ready && c.rewrites != [] ==> c.mid in s.solid)
  }

  ghost predicate NewFile(s: Sys, n: nat) {
    n in s.files && s.files[n] == [] && n in s.solid && n < s.nextID && s.cur.active in s.solid
  }

  ghost predicate StageOk(s: Sys) {
    match s.phase
    case Idle => true
    case Rotating(n, synced) =>
      && NewFile(s, n) && (forall v :: v in s.survivors ==> v.count == |s.hist| && n !in v.segs)
      && (synced ==> n in s.dirents && forall v :: v in s.survivors ==> v.gen == s.gen)
    case RotationRenamed(n) =>
      NewFile(s, n) && n in s.dirents && s.survivors == {s.cur, Rotate(s.cur, n, s.last)}
    case Committing(synced) =>
      s.pass.Some? && s.pass.value.ready && (synced && s.pass.value.rewrites != [] ==> s.pass.value.mid in s.dirents)
    case CommitRenamed =>
      && s.pass.Some? && s.pass.value.ready && Commit(s.cur, s.pass.value) in s.survivors
      && forall v :: v in s.survivors && v.gen == s.gen ==>
           && v.segs.Keys !! s.pass.value.cands && Lags(v, Commit(s.cur, s.pass.value))
           && (v.count == |s.hist| ==> v == Commit(s.cur, s.pass.value))
    case Retiring(left) =>
      s.picked.None? && s.pass.None? && forall v :: v in s.survivors ==> v.segs.Keys !! left
  }

  ghost predicate DiskInv(s: Sys) {
    && SurvivorsOk(s) && CurrentOk(s) && Twins(s) && SameActive(s) && PassFiles(s) && StageOk(s)
  }

  /** After a rotation that was abandoned there are two views left, and all is synced. */
  ghost predicate Abandoned(s: Sys) {
    s.disabled ==> exists n :: Uncertain(s, n)
  }

  ghost predicate Uncertain(s: Sys, n: nat) {
    NewFile(s, n) && n in s.dirents && n !in s.cur.segs && s.survivors == {s.cur, Rotate(s.cur, n, s.last)}
  }

  /** Where an active segment is synced to its end, no record can be lost. */
  ghost predicate SolidFull(s: Sys) {
    forall v :: v in s.survivors && v.active in s.solid ==> v.count == |s.hist|
  }

  /** No manifest is followed by one that names as much and has the same active segment. */
  ghost predicate Apart(s: Sys) {
    forall v, w :: v in s.survivors && w in s.survivors && v.gen < w.gen ==>
      v.active != w.active || !(v.segs.Keys <= w.segs.Keys)
  }

  ghost predicate Inv(s: Sys) {
    MemInv(s) && DiskInv(s) && Abandoned(s) && SolidFull(s) && Apart(s)
  }

  lemma InitInv(maxSize: nat)
    ensures Inv(Init(maxSize))
  {
    InitMem(maxSize);
  }

  // ---------------------------------------------------------------- syncs and removals

  lemma SyncDirKeeps(s: Sys, v: View)
    requires SurvivorOk(s, v)
    ensures v.count == |s.hist| ==> SurvivorOk(SyncFile(s), v)
    ensures SurvivorOk(SyncDir(s), v)
  {
    hide Dated, Replay;
  }

  lemma RemoveKeeps(s: Sys, v: View, id: nat)
    requires SurvivorOk(s, v) && id !in v.segs
    ensures SurvivorOk(RemoveFile(s, id), v)
  {
    hide Dated, Replay;
  }

  /** What a view names has not been touched: only file x has changed, and no view names that. */
  lemma SurvivorsStay(s: Sys, t: Sys, x: nat)
    requires SurvivorsOk(s) && t.survivors <= s.survivors && forall v :: v in s.survivors ==> x !in v.segs
    requires t.last == s.last && t.hist == s.hist && t.durable == s.durable && t.gen == s.gen
    requires forall i :: i != x && i in s.files ==> i in t.files && t.files[i] == s.files[i]
    requires forall i :: i != x ==> (i in s.dirents ==> i in t.dirents) && (i in s.solid ==> i in t.solid)
    requires forall i :: i != x && i in s.shaky ==> i in t.shaky
    ensures SurvivorsOk(t)
  {
    hide Dated, Replay;
    forall v | v in t.survivors ensures SurvivorOk(t, v) {
      assert SurvivorOk(s, v);
    }
  }

  lemma NotNamed(s: Sys, x: nat)
    requires SurvivorsOk(s) && x !in s.files
    ensures forall v :: v in s.survivors ==> x !in v.segs
  {
    hide Dated, Replay;
    forall v | v in s.survivors ensures x !in v.segs {
      assert SurvivorOk(s, v);
    }
  }

  // ---------------------------------------------------------------- a write

  lemma WriteOld(s: Sys, r: Record, v: View)
    requires Inv(s) && Enabled(s, WriteRecord(r)) && v in s.survivors
    ensures v.count <= |s.hist| && SurvivorOk(Next(s, WriteRecord(r)), v)
  {
    hide Sound, Dated, PassInv, PassFiles, Twins, StageOk, Abandoned, SolidFull, Apart, Replay, ValidRecord, Write;
    assert SurvivorOk(s, v);
    DatedLater(v, s.last, r.tstamp);
    assert (s.hist + [r])[..v.count] == s.hist[..v.count];
    assert v.active == s.cur.active;
  }

  lemma WriteNew(s: Sys, r: Record, v: View)
    requires Inv(s) && Enabled(s, WriteRecord(r)) && v in s.survivors && v.count == |s.hist|
    ensures v.active in v.segs && SurvivorOk(Next(s, WriteRecord(r)), Write(v, r))
  {
    hide Sound, Dated, PassInv, PassFiles, Twins, StageOk, Abandoned, SolidFull, Apart, Replay, ValidRecord;
    hide RecordItems, PublishAll, ApplyAll, LogSize, ValidLog;
    assert SurvivorOk(s, v);
    WriteTimed(v, s.last, r);
    assert s.hist[..v.count] == s.hist && (s.hist + [r])[..v.count + 1] == s.hist + [r];
    WriteReplays(v, r, s.hist);
  }

  lemma WriteSurvivors(s: Sys, r: Record)
    requires Inv(s) && Enabled(s, WriteRecord(r))
    ensures SurvivorsOk(Next(s, WriteRecord(r)))
  {
    hide MemInv, DiskInv, Abandoned, SolidFull, Apart, SurvivorOk, Write, ValidRecord;
    CurrentSurvives(s);
    var t := Next(s, WriteRecord(r));
    forall v | v in s.survivors ensures SurvivorOk(t, v) {
      WriteOld(s, r, v);
    }
    forall v | v in s.survivors && v.count == |s.hist| ensures v.active in v.segs && SurvivorOk(t, Write(v, r)) {
      WriteNew(s, r, v);
    }
  }

  lemma WriteRest(s: Sys, r: Record)
    requires Inv(s) && Enabled(s, WriteRecord(r))
    ensures var t := Next(s, WriteRecord(r)); CurrentOk(t) && Twins(t) && SameActive(t) && PassFiles(t) && StageOk(t)
  {
    hide Dated, Sound, PassCore, Reaches, Lags, Replay, ValidRecord, RecordItems, PublishAll, ApplyAll, LogSize, Named;
    LagsSelf(Write(s.cur, r));
    forall v | v in s.survivors && v.gen == s.cur.gen ensures Lags(v, Write(s.cur, r)) {
      LagsWrite(v, s.cur, r);
    }
  }

  lemma DiskWrite(s: Sys, r: Record)
    requires Inv(s) && Enabled(s, WriteRecord(r))
    ensures DiskInv(Next(s, WriteRecord(r)))
  {
    hide Inv, Enabled, Next, SurvivorsOk, CurrentOk, Twins, SameActive, PassFiles, StageOk;
    WriteSurvivors(s, r);
    WriteRest(s, r);
  }

  // ---------------------------------------------------------------- the rotation

  lemma DiskSync(s: Sys)
    requires Inv(s) && Enabled(s, SyncActive)
    ensures DiskInv(Next(s, SyncActive))
  {
    hide Dated, Sound, PassCore, Reaches, Lags, Replay;
    var t := Next(s, SyncActive);
    forall v | v in t.survivors ensures SurvivorOk(t, v) {
      SyncDirKeeps(s, v);
    }
  }

  lemma DiskBeginRotation(s: Sys)
    requires Inv(s) && Enabled(s, BeginRotation)
    ensures DiskInv(Next(s, BeginRotation))
  {
    hide Dated, Sound, PassCore, Reaches, Lags, Replay;
    var t := Next(s, BeginRotation);
    assert s.nextID !in s.files;
    forall v | v in t.survivors ensures SurvivorOk(t, v) {
      assert SurvivorOk(s, v);
    }
  }

  lemma DiskSyncDirForRotation(s: Sys)
    requires Inv(s) && Enabled(s, SyncDirForRotation)
    ensures DiskInv(Next(s, SyncDirForRotation))
  {
    hide Dated, Sound, PassCore, Reaches, Lags, Replay;
    var t := Next(s, SyncDirForRotation);
    forall v | v in t.survivors ensures SurvivorOk(t, v) {
      SyncDirKeeps(s, v);
    }
  }

  lemma DiskFailRotation(s: Sys)
    requires Inv(s) && Enabled(s, FailRotation)
    ensures DiskInv(Next(s, FailRotation))
  {
    hide Dated, Sound, PassCore, Reaches, Lags, Replay;
    var t := Next(s, FailRotation);
    forall v | v in t.survivors ensures SurvivorOk(t, v) {
      RemoveKeeps(s, v, s.phase.next);
    }
  }

  lemma DiskRenameForRotation(s: Sys)
    requires Inv(s) && Enabled(s, RenameForRotation)
    ensures DiskInv(Next(s, RenameForRotation))
  {
    hide Dated, Sound, PassCore, Reaches, Lags, Replay;
    var t := Next(s, RenameForRotation);
    var w := Rotate(s.cur, s.phase.next, s.last);
    RotateDated(s.cur, s.phase.next, s.last);
    assert s.survivors == {s.cur};
    assert t.survivors == {s.cur, w};
    assert SurvivorOk(s, s.cur);
    assert SurvivorOk(t, w) && SurvivorOk(t, s.cur);
  }

  lemma DiskFinishRotation(s: Sys)
    requires Inv(s) && Enabled(s, FinishRotation)
    ensures DiskInv(Next(s, FinishRotation))
  {
    hide Dated, Sound, PassCore, Reaches, Lags, Replay;
    var t := Next(s, FinishRotation);
    var w := Rotate(s.cur, s.phase.next, s.last);
    assert t.survivors == {w};
    SyncDirKeeps(s, w);
    LagsSelf(w);
  }

  lemma DiskAbandonRotation(s: Sys)
    requires Inv(s) && Enabled(s, AbandonRotation)
    ensures DiskInv(Next(s, AbandonRotation))
  {
    hide Sound, PassInv, Lags, Replay, SurvivorsOk, ValidLog;
    NotNamed(s, s.nextID);
    SurvivorsStay(s, Next(s, AbandonRotation), s.nextID);
  }

  // ---------------------------------------------------------------- the compaction pass

  lemma DiskSnapshot(s: Sys, order: seq<nat>)
    requires Inv(s) && Enabled(s, Snapshot(order))
    ensures DiskInv(Next(s, Snapshot(order)))
  {
    hide Sound, PassInv, Lags, Replay, Start, SurvivorsOk;
    StartFields(s.cur, order, s.nextID);
    NotNamed(s, s.nextID);
    SurvivorsStay(s, Next(s, Snapshot(order)), s.nextID);
  }

  lemma DiskTakeId(s: Sys)
    requires Inv(s) && Enabled(s, TakeId)
    ensures DiskInv(Next(s, TakeId))
  {
    hide Sound, PassInv, Lags, Replay, SurvivorsOk;
    NotNamed(s, s.nextID);
    SurvivorsStay(s, Next(s, TakeId), s.nextID);
  }

  lemma MergedValid(v: View, c: Pass)
    requires PassInv(v, c)
    ensures ValidLog(c.merged)
  {
    hide LogItems, LogSize, ValidRecord, At, Split, TodoOk, ScannedOnce, Settled, Reaches;
    forall i | 0 <= i < |c.merged| ensures ValidRecord(c.merged[i]) {
      assert Copied(v.segs, c, i);
    }
  }

  lemma DiskScan(s: Sys)
    requires Inv(s) && Enabled(s, Scan)
    ensures DiskInv(Next(s, Scan))
  {
    hide Sound, PassInv, Lags, Replay, ScanOne, SurvivorsOk, ValidLog;
    var t := Next(s, Scan);
    ScanFields(s.cur.kd, s.pass.value);
    ScanKeeps(s.cur, s.last, s.pass.value);
    assert ValidLog(t.pass.value.merged) by { MergedValid(s.cur, ScanOne(s.cur.kd, s.pass.value)); }
    SurvivorsStay(s, t, s.pass.value.mid);
  }

  lemma DiskSyncMerged(s: Sys)
    requires Inv(s) && Enabled(s, SyncMerged)
    ensures DiskInv(Next(s, SyncMerged))
  {
    hide Sound, PassInv, Lags, Replay, SurvivorsOk, ValidLog;
    SurvivorsStay(s, Next(s, SyncMerged), s.pass.value.mid);
  }

  lemma DiskAbortPass(s: Sys)
    requires Inv(s) && Enabled(s, AbortPass)
    ensures DiskInv(Next(s, AbortPass))
  {
    hide Sound, PassCore, Settled, Reaches, Lags, Replay, SurvivorsOk, ValidLog;
    assert s.pass.value.mid !in s.cur.segs by { PassMid(s.cur, s.pass.value); }
    SurvivorsStay(s, Next(s, AbortPass), s.pass.value.mid);
  }

  lemma PassMid(v: View, c: Pass)
    requires PassCore(v, c)
    ensures c.mid !in v.segs && c.cands <= v.segs.Keys && v.active !in c.cands
  {
  }

  // ---------------------------------------------------------------- the commit

  lemma DiskBeginCommit(s: Sys)
    requires Inv(s) && Enabled(s, BeginCommit)
    ensures DiskInv(Next(s, BeginCommit))
  {
    hide Sound, PassInv, Lags, Replay, SurvivorsOk, ValidLog;
    NotNamed(s, s.nextID);
    SurvivorsStay(s, Next(s, BeginCommit), s.nextID);
  }

  lemma DiskSyncDirForCommit(s: Sys)
    requires Inv(s) && Enabled(s, SyncDirForCommit)
    ensures DiskInv(Next(s, SyncDirForCommit))
  {
    hide Dated, Sound, PassCore, Reaches, Lags, Replay;
    var t := Next(s, SyncDirForCommit);
    forall v | v in t.survivors ensures SurvivorOk(t, v) {
      SyncDirKeeps(s, v);
    }
  }

  lemma DiskFailCommit(s: Sys)
    requires Inv(s) && Enabled(s, FailCommit)
    ensures DiskInv(Next(s, FailCommit))
  {
    hide Sound, PassCore, Settled, Reaches, Lags, Replay, SurvivorsOk, ValidLog;
    assert s.pass.value.mid !in s.cur.segs by { PassMid(s.cur, s.pass.value); }
    SurvivorsStay(s, Next(s, FailCommit), s.pass.value.mid);
  }

  lemma CommitSegs(v: View, c: Pass, i: nat)
    ensures i in Commit(v, c).segs ==>
      if i == c.mid && c.rewrites != [] then Commit(v, c).segs[i] == c.merged
      else i in v.segs && i !in c.cands && Commit(v, c).segs[i] == v.segs[i]
  {
  }

  /** The manifest of a commit names only files that are there for good, whatever the commit keeps of the keys. */
  lemma CommitNamed(s: Sys, v: View)
    requires Inv(s) && Enabled(s, RenameForCommit) && v in s.survivors && v.gen == s.gen
    ensures Named(s, Commit(v, s.pass.value))
    ensures Commit(v, s.pass.value).segs.Keys !! s.pass.value.cands
    ensures CommitFields(v, s.pass.value)
  {
    hide Dated, Sound, PassCore, Reaches, Replay, Commit;
    var c := s.pass.value;
    assert SurvivorOk(s, v);
    PassMid(s.cur, c);
    CommitHasFields(v, c);
    forall i | i in Commit(v, c).segs
      ensures i !in c.cands && i in s.files && i in s.dirents
      ensures if i == v.active then Commit(v, c).segs[i] <= s.files[i]
              else s.files[i] == Commit(v, c).segs[i] && (i in s.solid || i in s.shaky)
    {
      CommitSegs(v, c, i);
    }
  }

  ghost predicate CommitFields(v: View, c: Pass) {
    var w := Commit(v, c);
    && w.gen == v.gen + 1 && w.count == v.count && w.active == v.active && w.store == v.store
    && (v.active in v.segs && v.active !in c.cands && v.active != c.mid ==>
          v.active in w.segs && w.segs[v.active] == v.segs[v.active])
  }

  lemma CommitHasFields(v: View, c: Pass)
    ensures CommitFields(v, c)
  {
  }

  lemma CommittedSurvivor(s: Sys, v: View)
    requires Enabled(s, RenameForCommit) && Inv(s) && v in s.survivors && v.gen == s.gen
    ensures Commit(v, s.pass.value).segs.Keys !! s.pass.value.cands
    ensures forall u :: u in s.survivors ==> u.count <= |s.hist|
    ensures SurvivorOk(Next(s, RenameForCommit), Commit(v, s.pass.value))
  {
    hide Dated, Sound, TodoOk, ScannedOnce, Settled, Split, Copies, Reaches, Lags, Replay, Commit, Named;
    var c := s.pass.value;
    assert SurvivorOk(s, v);
    LagCore(v, s.cur, c);
    CommitTimed(v, s.last, c);
    CommitNamed(s, v);
    CommitHasFields(v, c);
    PassMid(s.cur, c);
    LagActive(v, s.cur);
    SameFiles(s, Next(s, RenameForCommit), Commit(v, c));
  }

  lemma SameFiles(s: Sys, t: Sys, v: View)
    requires t.files == s.files && t.dirents == s.dirents && t.solid == s.solid && t.shaky == s.shaky
    ensures Named(s, v) <==> Named(t, v)
  {
  }

  lemma DiskRenameForCommit(s: Sys)
    requires Inv(s) && Enabled(s, RenameForCommit)
    ensures DiskInv(Next(s, RenameForCommit))
  {
    hide Dated, Sound, PassCore, Reaches, Lags, Replay, Commit;
    var t := Next(s, RenameForCommit);
    var c := s.pass.value;
    forall v | v in s.survivors ensures SurvivorOk(t, v) {
      assert SurvivorOk(s, v);
    }
    forall v | v in s.survivors && v.gen == s.gen
      ensures SurvivorOk(t, Commit(v, c)) && Commit(v, c).segs.Keys !! c.cands && CommitFields(v, c)
      ensures Lags(Commit(v, c), Commit(s.cur, c))
    {
      PassMid(s.cur, c);
      LagActive(v, s.cur);
      LagCommit(v, s.cur, c);
      CommittedSurvivor(s, v);
      assert SurvivorOk(s, v);
      CommitHasFields(v, c);
    }
  }

  lemma LagActive(v: View, u: View)
    requires Lags(v, u)
    ensures v.active == u.active
  {
  }

  lemma DiskFinishCommit(s: Sys, l: Label)
    requires Inv(s) && Enabled(s, l) && (l.FinishCommit? || l.FinishCommitUncertain?)
    ensures DiskInv(Next(s, l))
  {
    hide Dated, Sound, PassCore, Reaches, Lags, Replay, Commit;
    var t := Next(s, l);
    var c := s.pass.value;
    PassMid(s.cur, c);
    CommitHasFields(s.cur, c);
    assert SurvivorOk(s, s.cur);
    forall v | v in t.survivors ensures SurvivorOk(t, v) {
      SyncDirKeeps(s, v);
    }
  }

  lemma DiskUnlink(s: Sys, id: nat)
    requires Inv(s) && Enabled(s, Unlink(id))
    ensures DiskInv(Next(s, Unlink(id)))
  {
    hide Dated, Sound, PassCore, Reaches, Lags, Replay;
    var t := Next(s, Unlink(id));
    forall v | v in t.survivors ensures SurvivorOk(t, v) {
      RemoveKeeps(s, v, id);
    }
    assert SurvivorOk(s, s.cur);
  }

  // ---------------------------------------------------------------- crash and open

  lemma HasSegment(segs: Segs, s: nat, item: Item)
    requires Has(segs, s, item)
    ensures s in segs
  {
  }

  /** The clock recovery sets is not behind any record it has read. */
  lemma OpenDated(v: View, last: int, scan: seq<nat>)
    requires Dated(v, last) && Lists(scan, v.segs.Keys)
    ensures var clock := SegsClock(0, scan, v.segs);
      Dated(v.(seal := if v.seal < clock then v.seal else clock), clock)
  {
    hide LogItems, SegsClock, ValidSegs, Has;
    var clock := SegsClock(0, scan, v.segs);
    forall s, item | Has(v.segs, s, item) ensures item.tstamp <= clock {
      HasSegment(v.segs, s, item);
      SegsClockBounds(0, scan, v.segs, s, item);
    }
  }

  /** A freshly opened engine: one manifest, nothing unsynced, nothing in flight. */
  ghost function JustOpened(u: View, last: int, nextID: nat, hist: Log, mergedIds: set<nat>, maxSize: nat): Sys {
    Sys(u, last, nextID, hist, |hist|, u.gen, {u}, u.segs, u.segs.Keys, u.segs.Keys, false, Idle, None, None, mergedIds,
        maxSize, {}, {})
  }

  lemma JustOpenedInv(u: View, last: int, nextID: nat, hist: Log, mergedIds: set<nat>, maxSize: nat)
    requires Sound(u, last) && u.active in u.segs && u.count == |hist| && u.store == Replay(hist)
    requires forall i :: i in u.segs ==> i < nextID
    ensures Inv(JustOpened(u, last, nextID, hist, mergedIds, maxSize))
  {
    hide Dated, Located, PassCore, Reaches, Lags, Replay;
    assert hist[..|hist|] == hist;
    LagsSelf(u);
    DatedValid(u, last);
  }

  /** Whatever a crash leaves, the engine that Open brings up is sound, even where it has brought a deleted key back or
      lost one. */
  lemma OpenedInv(s: Sys, v: View, scan: seq<nat>, freshID: nat)
    requires Inv(s) && Enabled(s, CrashAndOpen(v, scan, freshID))
    ensures Inv(Next(s, CrashAndOpen(v, scan, freshID)))
  {
    hide Dated, Located, PassCore, Reaches, Lags, LogSize, Inv, Replay, Reopened, Contents, SegsClock, Repair;
    SurvivorFacts(s, v);
    var t := Next(s, CrashAndOpen(v, scan, freshID));
    var clock := SegsClock(0, scan, v.segs);
    var kd := Reopened(scan, v.segs);
    var store := Contents(v.segs, kd);
    OpenDated(v, s.last, scan);
    DatedValid(v, s.last);
    ReopenedLocated(v, scan);
    RepairReplays(s.hist[..v.count], store);
    var w := v.(kd := kd, store := store, count := |t.hist|, seal := if v.seal < clock then v.seal else clock);
    SoundOf(v, w, clock);
    RotateSound(w, freshID, clock);
    JustOpenedInv(t.cur, clock, t.nextID, t.hist, s.mergedIds * v.segs.Keys, s.maxSize);
  }

  lemma DatedValid(v: View, last: int)
    requires Dated(v, last)
    ensures ValidSegs(v.segs)
  {
  }

  lemma SoundOf(v: View, w: View, clock: int)
    requires w == v.(kd := w.kd, store := w.store, count := w.count, seal := w.seal)
    requires Dated(v.(seal := w.seal), clock) && Located(v.(kd := w.kd, store := w.store))
    ensures Sound(w, clock)
  {
    hide Has, At;
    forall k ensures LocatedAt(w, k) {
      assert LocatedAt(v.(kd := w.kd, store := w.store), k);
    }
  }

  lemma SurvivorFacts(s: Sys, v: View)
    requires Inv(s) && v in s.survivors
    ensures Dated(v, s.last) && v.active in v.segs && s.durable <= v.count <= |s.hist|
    ensures v.store == Replay(s.hist[..v.count])
    ensures forall v :: v in s.survivors ==> v.count <= |s.hist|
  {
    assert SurvivorOk(s, v);
  }

  // ---------------------------------------------------------------- every step, every run

  lemma DiskStep(s: Sys, l: Label)
    requires Inv(s) && Enabled(s, l) && !Reopens(l)
    ensures DiskInv(Next(s, l))
  {
    hide Inv, Next, Enabled, DiskInv;
    match l
    case WriteRecord(r) => DiskWrite(s, r);
    case SyncActive => DiskSync(s);
    case BeginRotation => DiskBeginRotation(s);
    case SyncDirForRotation => DiskSyncDirForRotation(s);
    case FailRotation => DiskFailRotation(s);
    case RenameForRotation => DiskRenameForRotation(s);
    case FinishRotation => DiskFinishRotation(s);
    case AbandonRotation => DiskAbandonRotation(s);
    case Snapshot(order) => DiskSnapshot(s, order);
    case TakeId => DiskTakeId(s);
    case Scan => DiskScan(s);
    case SyncMerged => DiskSyncMerged(s);
    case AbortPass => DiskAbortPass(s);
    case BeginCommit => DiskBeginCommit(s);
    case SyncDirForCommit => DiskSyncDirForCommit(s);
    case FailCommit => DiskFailCommit(s);
    case RenameForCommit => DiskRenameForCommit(s);
    case FinishCommit => DiskFinishCommit(s, l);
    case FinishCommitUncertain => DiskFinishCommit(s, l);
    case Unlink(id) => DiskUnlink(s, id);
  }

  // ---------------------------------------------------------------- the rest of the invariant

  lemma AbandonedStep(s: Sys, l: Label)
    requires Inv(s) && Enabled(s, l) && !Reopens(l)
    ensures Abandoned(Next(s, l))
  {
    hide Sound, Dated, PassInv, Lags, Replay, SurvivorsOk, ValidLog, ScanOne, Start, Commit, Write, Uncertain;
    if s.disabled {
      var n := AbandonedId(s);
      UncertainStep(s, l, n);
    } else if l.AbandonRotation? {
      UncertainNow(s, s.phase.next);
    }
  }

  lemma UncertainNow(s: Sys, n: nat)
    requires Inv(s) && Enabled(s, AbandonRotation) && n == s.phase.next
    ensures Uncertain(Next(s, AbandonRotation), n)
  {
    hide Sound, Dated, PassInv, Lags, Replay, SurvivorsOk, ValidLog;
  }

  /** Nothing that is still enabled touches the two views or the file between them. */
  lemma UncertainStep(s: Sys, l: Label, n: nat)
    requires Inv(s) && Enabled(s, l) && !Reopens(l) && s.disabled && Uncertain(s, n)
    ensures Next(s, l).disabled && Uncertain(Next(s, l), n)
  {
    hide Sound, Dated, PassInv, Lags, Replay, SurvivorsOk, ValidLog, ScanOne, Start;
    UncertainCounts(s, n);
    if s.pass.Some? {
      FreshMid(s, n);
      if l.Scan? {
        ScanFields(s.cur.kd, s.pass.value);
      }
    }
  }

  lemma UncertainCounts(s: Sys, n: nat)
    requires MemInv(s) && Uncertain(s, n)
    ensures forall v :: v in s.survivors ==> v.count == |s.hist|
  {
    hide Sound, PassOk, PickOk, PhaseOk, Replay;
  }

  /** A pass has an id of its own. */
  lemma FreshMid(s: Sys, n: nat)
    requires MemInv(s) && CurrentOk(s) && s.pass.Some? && PassFiles(s) && Uncertain(s, n) && s.disabled
    ensures s.pass.value.mid != n && s.pass.value.mid != s.cur.active
  {
    hide Sound, Replay, Split, Copies, TodoOk;
    assert n in Rotate(s.cur, n, s.last).segs;
    assert s.cur.active in s.cur.segs;
  }

  lemma SolidFullStep(s: Sys, l: Label)
    requires Inv(s) && Enabled(s, l) && !Reopens(l)
    ensures SolidFull(Next(s, l))
  {
    hide Sound, Dated, PassInv, Lags, Replay, ValidLog, ScanOne, Start;
  }

  lemma ApartRotation(s: Sys)
    requires Inv(s) && Enabled(s, RenameForRotation)
    ensures Apart(Next(s, RenameForRotation))
  {
    hide Sound, Dated, PassInv, Lags, Replay, SurvivorsOk;
    assert s.survivors == {s.cur};
    assert Next(s, RenameForRotation).survivors == {s.cur, Rotate(s.cur, s.phase.next, s.last)};
  }

  lemma ApartCommit(s: Sys)
    requires Inv(s) && Enabled(s, RenameForCommit)
    ensures Apart(Next(s, RenameForCommit))
  {
    hide Sound, Dated, Replay, SurvivorOk, Commit, Copies, TodoOk, Settled, Reaches, Split;
    var c := s.pass.value;
    PassMid(s.cur, c);
    var i :| i in c.cands;
    forall v, x | v in s.survivors && x in s.survivors && x.gen == s.gen && v.gen <= x.gen
      ensures v.active != Commit(x, c).active || !(v.segs.Keys <= Commit(x, c).segs.Keys)
    {
      CommitNamed(s, x);
      if v.gen == x.gen {
        assert i in v.segs;
      } else if v.active == x.active {
        var j :| j in v.segs && j !in x.segs;
        CommitSegs(x, c, j);
      }
    }
    forall x | x in s.survivors ensures Commit(x, c).gen == x.gen + 1 && x.gen <= s.gen {
      CommitHasFields(x, c);
      SurvivorGen(s, x);
    }
  }

  lemma SurvivorGen(s: Sys, v: View)
    requires SurvivorsOk(s) && v in s.survivors
    ensures v.gen <= s.gen && v.active in v.segs
  {
    hide Dated, Replay, Named;
    assert SurvivorOk(s, v);
  }

  lemma ApartWrite(s: Sys, r: Record)
    requires Inv(s) && Enabled(s, WriteRecord(r))
    ensures Apart(Next(s, WriteRecord(r)))
  {
    hide Sound, Dated, PassInv, Replay, SurvivorOk, ValidLog, Twins, StageOk;
    hide PassFiles, RecordItems, PublishAll, ApplyAll;
    forall v | v in s.survivors
      ensures v.active in v.segs
      ensures var w := Write(v, r); w.segs.Keys == v.segs.Keys && w.gen == v.gen && w.active == v.active
    {
      SurvivorGen(s, v);
    }
  }

  lemma ApartQuiet(s: Sys, l: Label)
    requires Inv(s) && Enabled(s, l) && !Reopens(l) && !l.WriteRecord? && !l.RenameForRotation? && !l.RenameForCommit?
    ensures Apart(Next(s, l))
  {
    hide Sound, Dated, PassInv, Lags, Replay, ValidLog, ScanOne, Start, Commit, Rotate, Twins, StageOk, PassFiles;
  }

  lemma ApartStep(s: Sys, l: Label)
    requires Inv(s) && Enabled(s, l) && !Reopens(l)
    ensures Apart(Next(s, l))
  {
    hide Inv, Enabled, Next, Apart;
    match l
    case WriteRecord(r) => ApartWrite(s, r);
    case RenameForRotation => ApartRotation(s);
    case RenameForCommit => ApartCommit(s);
    case _ => ApartQuiet(s, l);
  }

  lemma InvStep(s: Sys, l: Label)
    requires Inv(s) && Enabled(s, l)
    ensures Inv(Next(s, l))
  {
    hide Next, Enabled, DiskInv, MemInv, Abandoned, SolidFull, Apart;
    match l
    case CrashAndOpen(v, scan, freshID) => OpenedInv(s, v, scan, freshID);
    case ExitAndOpen(v, scan, freshID) => ResumedInv(s, v, scan, freshID);
    case _ =>
      MemStep(s, l);
      DiskStep(s, l);
      AbandonedStep(s, l);
      SolidFullStep(s, l);
      ApartStep(s, l);
  }

  // ---------------------------------------------------------------- exit and open

  /** What an Open finds when the host has stayed up, and how the views a crash may still leave of the same manifest
      relate to it. */
  lemma FoundTwins(s: Sys, v: View)
    requires Inv(s) && v in s.survivors && v.gen == s.gen && v.count == |s.hist|
    ensures forall u :: u in s.survivors && u.gen == s.gen ==> Lags(u, v) && (u.count == |s.hist| ==> u == v)
    ensures v.active in v.segs && v.active in s.files && s.files[v.active] == v.segs[v.active]
  {
    hide Sound, Dated, PassCore, Settled, Reaches, Replay, Named, Commit;
    assert SurvivorOk(s, v);
    if s.gen == s.cur.gen {
      assert v == s.cur;
    } else if s.phase.CommitRenamed? {
      PassMid(s.cur, s.pass.value);
      CommitHasFields(s.cur, s.pass.value);
      CommitSegs(s.cur, s.pass.value, s.cur.active);
    } else {
      LagsSelf(v);
      var n: nat;
      if s.disabled {
        n := AbandonedId(s);
      } else {
        n := s.phase.next;
      }
      assert s.survivors == {s.cur, Rotate(s.cur, n, s.last)};
      assert v == Rotate(s.cur, n, s.last);
    }
  }

  lemma AbandonedId(s: Sys) returns (n: nat)
    requires Abandoned(s) && s.disabled
    ensures Uncertain(s, n)
  {
    n :| Uncertain(s, n);
  }

  lemma Reopening(s: Sys, l: Label)
    requires Inv(s) && Enabled(s, l) && Reopens(l)
    ensures Finds(s, l.found, l.scan) && l.found in s.survivors && forall u :: u in s.survivors ==> u.count <= |s.hist|
    ensures l.ExitAndOpen? ==> l.found.gen == s.gen && l.found.count == |s.hist|
    ensures Enabled(s, CrashAndOpen(l.found, l.scan, l.freshID))
    ensures Next(s, l) == if l.CrashAndOpen? then Opened(s, l.found, l.scan, l.freshID)
                          else Resumed(s, l.found, l.scan, l.freshID)
  {
    hide Inv, Enabled, Next, Opened, Resumed, Finds;
    ReopenEnabled(s, l);
    SurvivorFacts(s, l.found);
    assert Finds(s, l.found, l.scan) by { FoundThere(s, l); }
    NextReopens(s, l);
  }

  lemma ReopenEnabled(s: Sys, l: Label)
    requires Enabled(s, l) && Reopens(l)
    ensures l.found in s.survivors && l.found.active in l.found.segs && Lists(l.scan, l.found.segs.Keys)
    ensures l.ExitAndOpen? ==> l.found.gen == s.gen && l.found.count == |s.hist|
    ensures Enabled(s, CrashAndOpen(l.found, l.scan, l.freshID))
  {
    hide Lists;
  }

  lemma FoundThere(s: Sys, l: Label)
    requires Reopens(l) && l.found.active in l.found.segs && Lists(l.scan, l.found.segs.Keys)
    requires l.found.count <= |s.hist|
    ensures Finds(s, l.found, l.scan)
  {
    hide Lists;
  }

  lemma NextReopens(s: Sys, l: Label)
    requires Enabled(s, l) && Reopens(l) && Finds(s, l.found, l.scan)
    requires forall u :: u in s.survivors ==> u.count <= |s.hist|
    ensures Next(s, l) == if l.CrashAndOpen? then Opened(s, l.found, l.scan, l.freshID)
                          else Resumed(s, l.found, l.scan, l.freshID)
  {
    hide Enabled, Opened, Resumed, Lists;
  }

  /** The fields that Open sets whatever ended the run before it. */
  lemma ResumedFields(s: Sys, v: View, scan: seq<nat>, freshID: nat)
    requires Inv(s) && Enabled(s, ExitAndOpen(v, scan, freshID))
    ensures Finds(s, v, scan) && Inv(Opened(s, v, scan, freshID)) && v.gen == s.gen && v.count == |s.hist|
    ensures var t, o := Resumed(s, v, scan, freshID), Opened(s, v, scan, freshID);
      && t.cur == o.cur && t.last == o.last && t.nextID == o.nextID && t.hist == o.hist && t.phase == Idle
      && t.pass == None && t.picked == None && !t.disabled && t.durable == s.durable && t.gen == t.cur.gen
      && s.hist <= t.hist && t.cur.count == |t.hist| && o.survivors == {o.cur} && v.gen <= t.gen
      && (LogSize(v.segs[v.active]) < s.maxSize ==> t.gen == s.gen)
      && freshID <= t.nextID && (LogSize(v.segs[v.active]) >= s.maxSize ==> freshID < t.nextID)
    ensures Next(s, ExitAndOpen(v, scan, freshID)) == Resumed(s, v, scan, freshID)
  {
    hide Inv, Replay, Reopened, Contents, SegsClock, Repair, LogSize, Lists;
    Reopening(s, ExitAndOpen(v, scan, freshID));
    OpenedInv(s, v, scan, freshID);
    assert s.hist[..v.count] == s.hist;
  }

  /** With room in the active segment the directory is swept and the views that lag behind stay. */
  lemma RoomFields(s: Sys, v: View, scan: seq<nat>, freshID: nat)
    requires Finds(s, v, scan) && LogSize(v.segs[v.active]) < s.maxSize
    ensures var t := Resumed(s, v, scan, freshID);
      && t.cur.segs == v.segs && t.cur.active == v.active && Swept(s, t, v)
      && t.survivors == {t.cur}
           + (set u | u in s.survivors && u.gen == s.gen && u.count < |s.hist| :: u.(seal := t.cur.seal))
  {
    hide Replay, Reopened, Contents, SegsClock, Repair, LogSize, Lists;
  }

  /** What is left of the directory. */
  ghost predicate Swept(s: Sys, t: Sys, v: View) {
    && t.files == (map i | i in s.files && i in v.segs :: s.files[i]) && t.dirents == s.dirents * t.files.Keys
    && t.solid == s.solid * t.files.Keys && t.shaky == s.shaky * t.files.Keys
  }

  /** Without room there is a new active segment, and its manifest is settled. */
  lemma FreshFields(s: Sys, v: View, scan: seq<nat>, freshID: nat)
    requires Finds(s, v, scan) && LogSize(v.segs[v.active]) >= s.maxSize && freshID !in v.segs && v.active in s.files
    ensures var t := Resumed(s, v, scan, freshID);
      && t.cur.segs == v.segs[freshID := []] && t.cur.active == freshID && t.survivors == {t.cur}
      && t.files == (map i | i in s.files && i in v.segs :: s.files[i])[freshID := []] && t.dirents == t.files.Keys
      && freshID in t.solid && forall i :: i in v.segs && i in s.files ==>
           (i in s.solid ==> i in t.solid) && (i in s.shaky || (i == v.active && i !in s.solid) ==> i in t.shaky)
  {
    hide Replay, Reopened, Contents, SegsClock, Repair, LogSize, Lists;
  }

  lemma ResumedMem(s: Sys, v: View, scan: seq<nat>, freshID: nat)
    requires Inv(s) && Enabled(s, ExitAndOpen(v, scan, freshID)) && Finds(s, v, scan)
    ensures MemInv(Resumed(s, v, scan, freshID))
  {
    hide Opened, DiskInv, Abandoned, SolidFull, Apart, Sound, PassInv, Replay, LogSize;
    ResumedFields(s, v, scan, freshID);
  }

  /** A view that lags behind the one found is as good after the restart as before. */
  lemma ShortOk(s: Sys, t: Sys, v: View, u: View)
    requires SurvivorOk(s, u) && Lags(u, v) && Swept(s, t, v) && s.hist <= t.hist && t.durable == s.durable
    requires t.gen == s.gen && t.cur.segs == v.segs && t.cur.active == v.active && Dated(t.cur, t.last)
    ensures SurvivorOk(t, u.(seal := t.cur.seal)) && Lags(u.(seal := t.cur.seal), t.cur)
  {
    hide Dated, Replay;
    var w := u.(seal := t.cur.seal);
    LagDated(u, t.cur, s.last, t.last);
    assert t.hist[..u.count] == s.hist[..u.count];
    assert forall i :: i in u.segs <==> i in v.segs;
  }

  lemma ResumedShort(s: Sys, v: View, scan: seq<nat>, freshID: nat, u: View)
    requires Inv(s) && Enabled(s, ExitAndOpen(v, scan, freshID)) && Finds(s, v, scan)
    requires LogSize(v.segs[v.active]) < s.maxSize && u in s.survivors && u.gen == s.gen
    ensures var t := Resumed(s, v, scan, freshID);
      SurvivorOk(t, u.(seal := t.cur.seal)) && Lags(u.(seal := t.cur.seal), t.cur)
  {
    hide Inv, LogSize, Lags, SurvivorOk, Resumed, Opened, Enabled, Swept, Dated;
    ResumedFields(s, v, scan, freshID);
    FoundIn(s, v, scan, freshID);
    FoundTwins(s, v);
    SurvivorIs(s, u);
    RoomFields(s, v, scan, freshID);
    var o := Opened(s, v, scan, freshID);
    CurrentSurvives(o);
    SurvivorFacts(o, o.cur);
    ShortOk(s, Resumed(s, v, scan, freshID), v, u);
  }

  lemma FoundIn(s: Sys, v: View, scan: seq<nat>, freshID: nat)
    requires Enabled(s, ExitAndOpen(v, scan, freshID))
    ensures v in s.survivors && forall i :: i in s.files || i in v.segs ==> i < freshID
  {
  }

  lemma SurvivorIs(s: Sys, v: View)
    requires Inv(s) && v in s.survivors
    ensures SurvivorOk(s, v)
  {
    hide SurvivorOk;
  }

  lemma LagDated(u: View, v: View, last: int, clock: int)
    requires v.active == u.active && v.segs.Keys == u.segs.Keys && Dated(u, last) && Dated(v, clock)
    requires forall i :: i in u.segs ==> u.segs[i] <= v.segs[i] && (i != u.active ==> u.segs[i] == v.segs[i])
    ensures Dated(u.(seal := v.seal), clock)
  {
    hide LogItems;
    forall s, item | Has(u.segs, s, item) ensures Has(v.segs, s, item) {
      LagsHas(u.(seal := v.seal), v, s, item);
    }
  }

  lemma ResumedFull(s: Sys, v: View, scan: seq<nat>, freshID: nat)
    requires Inv(s) && Enabled(s, ExitAndOpen(v, scan, freshID)) && Finds(s, v, scan)
    ensures var t := Resumed(s, v, scan, freshID);
      SurvivorOk(t, t.cur) && t.cur.active in t.files && t.files[t.cur.active] == t.cur.segs[t.cur.active]
    ensures forall i :: i in Resumed(s, v, scan, freshID).files ==>
      i < Resumed(s, v, scan, freshID).nextID && ValidLog(Resumed(s, v, scan, freshID).files[i])
  {
    hide Inv, LogSize, Lags, SurvivorOk, Resumed, Opened, Enabled, Lists, ValidLog;
    ResumedFields(s, v, scan, freshID);
    FoundIn(s, v, scan, freshID);
    FoundTwins(s, v);
    SurvivorIs(s, v);
    CurrentSurvives(s);
    var o, t := Opened(s, v, scan, freshID), Resumed(s, v, scan, freshID);
    CurrentSurvives(o);
    assert ValidLog([]) by { NothingValid(); }
    assert Named(s, v) by { NamedOf(s, v); }
    if LogSize(v.segs[v.active]) < s.maxSize {
      RoomFields(s, v, scan, freshID);
    } else {
      FreshFields(s, v, scan, freshID);
    }
    assert Named(t, t.cur);
    OnTheOtherDisk(o, t);
  }

  lemma NamedOf(s: Sys, v: View)
    requires SurvivorOk(s, v)
    ensures Named(s, v)
  {
    hide Dated, Replay, Named;
  }

  lemma OnTheOtherDisk(o: Sys, t: Sys)
    requires SurvivorOk(o, o.cur) && t.cur == o.cur && t.last == o.last && t.hist == o.hist && Named(t, t.cur)
    requires t.gen == t.cur.gen && t.durable <= t.cur.count
    ensures SurvivorOk(t, t.cur)
  {
    hide Dated, Replay, Named;
  }

  lemma CurrentSurvives(s: Sys)
    requires Inv(s)
    ensures s.cur in s.survivors && SurvivorOk(s, s.cur)
    ensures s.cur.active in s.cur.segs && s.cur.count == |s.hist| && s.durable <= |s.hist|
    ensures forall v :: v in s.survivors ==> v.count <= |s.hist|
    ensures forall i :: i in s.files ==> i < s.nextID && ValidLog(s.files[i])
  {
    hide Sound, Dated, Replay;
  }

  /** After a restart with room each survivor is the running engine or lags behind it; without room there is but one. */
  lemma ResumedSurvivors(s: Sys, v: View, scan: seq<nat>, freshID: nat)
    requires Inv(s) && Enabled(s, ExitAndOpen(v, scan, freshID)) && Finds(s, v, scan)
    ensures var t := Resumed(s, v, scan, freshID); t.cur in t.survivors && forall u :: u in t.survivors ==>
      SurvivorOk(t, u) && Lags(u, t.cur) && u.active == t.cur.active && (u.count == |t.hist| ==> u == t.cur)
  {
    hide Inv, LogSize, Lags, SurvivorOk, Resumed, Opened, Enabled, Lists, ValidLog, Swept;
    ResumedFields(s, v, scan, freshID);
    ResumedFull(s, v, scan, freshID);
    FoundIn(s, v, scan, freshID);
    var t := Resumed(s, v, scan, freshID);
    LagsSelf(t.cur);
    if LogSize(v.segs[v.active]) < s.maxSize {
      RoomFields(s, v, scan, freshID);
      forall u | u in s.survivors && u.gen == s.gen
        ensures var w := u.(seal := t.cur.seal); SurvivorOk(t, w) && Lags(w, t.cur) && w.active == t.cur.active
      {
        ResumedShort(s, v, scan, freshID, u);
        LagActive(u.(seal := t.cur.seal), t.cur);
      }
    } else {
      FoundTwins(s, v);
      FreshFields(s, v, scan, freshID);
    }
  }

  lemma ResumedDisk(s: Sys, v: View, scan: seq<nat>, freshID: nat)
    requires Inv(s) && Enabled(s, ExitAndOpen(v, scan, freshID)) && Finds(s, v, scan)
    ensures DiskInv(Resumed(s, v, scan, freshID))
  {
    hide Inv, SurvivorOk, Opened, Resumed, Lags, ValidLog, Enabled, Lists, LogSize;
    ResumedFields(s, v, scan, freshID);
    ResumedFull(s, v, scan, freshID);
    ResumedSurvivors(s, v, scan, freshID);
    CurrentSurvives(Opened(s, v, scan, freshID));
  }

  lemma NothingValid()
    ensures ValidLog([])
  {
  }

  lemma ResumedRest(s: Sys, v: View, scan: seq<nat>, freshID: nat)
    requires Inv(s) && Enabled(s, ExitAndOpen(v, scan, freshID)) && Finds(s, v, scan)
    ensures var t := Resumed(s, v, scan, freshID); Abandoned(t) && SolidFull(t) && Apart(t)
  {
    hide MemInv, Replay, SurvivorOk, LogSize, Opened, Lags, DiskInv, Lists;
    ResumedFields(s, v, scan, freshID);
  }

  /** An Open behind an exit keeps the invariant too, whatever it has gone on without. */
  lemma ResumedInv(s: Sys, v: View, scan: seq<nat>, freshID: nat)
    requires Inv(s) && Enabled(s, ExitAndOpen(v, scan, freshID))
    ensures Inv(Next(s, ExitAndOpen(v, scan, freshID)))
  {
    hide MemInv, DiskInv, Abandoned, SolidFull, Apart, Resumed;
    ResumedFields(s, v, scan, freshID);
    ResumedMem(s, v, scan, freshID);
    ResumedDisk(s, v, scan, freshID);
    ResumedRest(s, v, scan, freshID);
  }

  lemma {:induction false} InvRun(s: Sys, labels: seq<Label>)
    requires Inv(s) && Run(s, labels).Some?
    ensures Inv(Run(s, labels).value)
    decreases |labels|
  {
    hide Inv, Enabled, Next;
    if labels != [] {
      RunStep(s, labels);
      InvStep(s, labels[0]);
      InvRun(Next(s, labels[0]), labels[1..]);
    }
  }

  lemma Reached(maxSize: nat, labels: seq<Label>)
    requires Run(Init(maxSize), labels).Some?
    ensures Inv(Run(Init(maxSize), labels).value)
  {
    hide Inv, Run, Init;
    InitInv(maxSize);
    InvRun(Init(maxSize), labels);
  }

  /** Refinement over all runs, crashes included: whatever a crash has left and recovery has made of it, Get answers for
      every key as the plain map of the history does, where the history is the writes that survived, what each
      recovery changed, and the writes since. */
  lemma EngineRefinesMap(maxSize: nat, labels: seq<Label>, k: Key)
    requires Run(Init(maxSize), labels).Some?
    ensures var t := Run(Init(maxSize), labels).value; Get(t, k) == Lookup(Replay(t.hist), k)
  {
    hide MemInv, DiskInv, Run, Init, Get, Replay;
    Reached(maxSize, labels);
    var t := Run(Init(maxSize), labels).value;
    GetReads(t, k);
    MemStore(t);
  }

  /** At every step of every run, with or without syncs, prudent or not: each survivor's manifest lists only files whose
      entries are durable and none that was unlinked, its own active segment among them, their content synced but for
      what an Open has sealed without a sync, and it lacks no record that was synced. The survivors are all a crash may
      find as long as no Open has gone on over a publish that is not settled. */
  lemma ManifestsDurable(maxSize: nat, labels: seq<Label>, v: View)
    requires Run(Init(maxSize), labels).Some? && v in Run(Init(maxSize), labels).value.survivors
    ensures var s := Run(Init(maxSize), labels).value;
      Named(s, v) && v.active in v.segs && s.durable <= v.count <= |s.hist|
  {
    hide MemInv, Run, Init, Replay, Dated, Named;
    Reached(maxSize, labels);
    var s := Run(Init(maxSize), labels).value;
    assert SurvivorOk(s, v);
  }

  /** A write's timestamp is later than that of every record in every segment that a reader, the compactor or a crash
      can see, and than every copy in the merged segment, however many crashes and reopens came before it. */
  lemma ClockAhead(maxSize: nat, labels: seq<Label>, r: Record, v: View, n: nat, item: Item)
    requires Run(Init(maxSize), labels).Some?
    requires var s := Run(Init(maxSize), labels).value;
      Enabled(s, WriteRecord(r)) && (v == s.cur || v in s.survivors) && Has(v.segs, n, item)
    ensures item.tstamp < r.tstamp
    ensures var s := Run(Init(maxSize), labels).value;
      s.pass.Some? ==> forall i :: 0 <= i < |s.pass.value.merged| ==> s.pass.value.merged[i].tstamp < r.tstamp
  {
    hide MemInv, Init, Replay, LogItems, Run;
    Reached(maxSize, labels);
    var s := Run(Init(maxSize), labels).value;
    assert SurvivorOk(s, s.cur);
    assert SurvivorOk(s, v);
    if s.pass.Some? {
      forall i | 0 <= i < |s.pass.value.merged| ensures s.pass.value.merged[i].tstamp <= s.last {
        CopyDated(s, i);
      }
    }
  }

  lemma CopyDated(s: Sys, i: nat)
    requires MemInv(s) && s.pass.Some? && i < |s.pass.value.merged|
    ensures s.pass.value.merged[i].tstamp <= s.last
  {
    hide LogItems, LogSize, ValidRecord, Located, TodoOk, ScannedOnce, Settled, Reaches, PickOk, Replay;
    var c := s.pass.value;
    assert Copied(s.cur.segs, c, i);
  }
}
