/** Restarts while the host stays up: an Open that goes on from files nobody has synced settles nothing. When that does
    no harm, and what a later host crash makes of it when it does. */
module Exits {
  import opened Bytes
  import opened Wrappers
  import opened Record
  import opened Log
  import opened Keydirs
  import opened View
  import opened Compaction
  import opened Reopen
  import opened Engine
  import opened Refinement
  import opened Durability
  import opened Manifest
  import opened Scenarios
  import Scan

  /** The active segment has room, so Open goes on with it. */
  ghost predicate GoesOn(s: Sys, v: View) {
    v.active in v.segs && LogSize(v.segs[v.active]) < s.maxSize
  }

  /** The last publish is settled, as far as the Open that finds v needs it: there is no other manifest that a crash may
      find, or, where Open publishes one itself, the segment it seals is synced. */
  ghost predicate Settles(s: Sys, v: View) {
    if GoesOn(s, v) then forall u :: u in s.survivors ==> u.gen == s.gen else v.active in s.solid
  }

  /** Every view and every sealed file that a crash may find is one that the machine counts on. */
  ghost predicate Clean(s: Sys) {
    s.stale == {} && s.shaky == {}
  }

  // ---------------------------------------------------------------- exactly when a restart is harmless

  lemma ExitExactly(s: Sys, v: View, scan: seq<nat>, freshID: nat)
    requires Inv(s) && Clean(s) && Enabled(s, ExitAndOpen(v, scan, freshID))
    ensures v.count <= |s.hist| && forall u :: u in s.survivors ==> u.count <= |s.hist|
    ensures Clean(Next(s, ExitAndOpen(v, scan, freshID))) <==> Settles(s, v)
  {
    hide Inv, Opened, LogSize;
    ResumedFields(s, v, scan, freshID);
    SurvivorFacts(s, v);
    var t := Resumed(s, v, scan, freshID);
    OpenedClean(s, v, scan, freshID);
    if GoesOn(s, v) {
      assert t.stale == set u | u in s.survivors && u.gen != s.gen;
      forall u | u in s.survivors && u.gen != s.gen ensures u in t.stale {
      }
    }
  }

  lemma OpenedClean(s: Sys, v: View, scan: seq<nat>, freshID: nat)
    requires Finds(s, v, scan)
    ensures Clean(Opened(s, v, scan, freshID))
  {
    hide Reopened, Contents, SegsClock, Repair, Replay, LogSize;
  }

  /** Every restart of the run is settled. */
  ghost predicate SettledRun(s: Sys, labels: seq<Label>)
    decreases |labels|
  {
    labels != [] && Enabled(s, labels[0]) && (forall v :: v in s.survivors ==> v.count <= |s.hist|) ==>
      (labels[0].ExitAndOpen? ==> Settles(s, labels[0].found)) && SettledRun(Next(s, labels[0]), labels[1..])
  }

  lemma CleanStep(s: Sys, l: Label)
    requires Inv(s) && Clean(s) && Enabled(s, l) && (l.ExitAndOpen? ==> Settles(s, l.found))
    ensures forall v :: v in s.survivors ==> v.count <= |s.hist|
    ensures Clean(Next(s, l))
  {
    hide MemInv, DiskInv, Opened, Resumed, Write, Rotate, Commit, ScanOne, Start, Settles;
    CurrentSurvives(s);
    match l
    case CrashAndOpen(v, scan, freshID) => OpenedClean(s, v, scan, freshID);
    case ExitAndOpen(v, scan, freshID) => ExitExactly(s, v, scan, freshID);
    case _ =>
  }

  lemma {:induction false} CleanRun(s: Sys, labels: seq<Label>)
    requires Inv(s) && Clean(s) && SettledRun(s, labels) && Run(s, labels).Some?
    ensures Inv(Run(s, labels).value) && Clean(Run(s, labels).value)
    decreases |labels|
  {
    hide Inv, Clean, Enabled, Next, Settles;
    if labels != [] {
      RunStep(s, labels);
      InvStep(s, labels[0]);
      CleanStep(s, labels[0]);
      CleanRun(Next(s, labels[0]), labels[1..]);
    }
  }

  /** In a run whose restarts are settled the survivors are all that a crash may find, every sealed file they name is
      synced, and the first restart that is not settled ends that. */
  lemma SettledDurable(maxSize: nat, labels: seq<Label>, v: View, i: nat)
    requires SettledRun(Init(maxSize), labels) && Run(Init(maxSize), labels).Some?
    requires v in Run(Init(maxSize), labels).value.survivors && i in v.segs
    ensures var s := Run(Init(maxSize), labels).value;
      && Clean(s) && i in s.dirents && i in s.files && (i != v.active ==> i in s.solid && s.files[i] == v.segs[i])
    ensures forall x, scan, id :: Enabled(Run(Init(maxSize), labels).value, ExitAndOpen(x, scan, id)) ==>
      ExitSettles(Run(Init(maxSize), labels).value, x, scan, id)
  {
    hide MemInv, Run, Init, Replay, Dated, SettledRun, ExitSettles;
    var s := Run(Init(maxSize), labels).value;
    InitClean(maxSize);
    CleanRun(Init(maxSize), labels);
    assert SurvivorOk(s, v);
    forall x, scan, id | Enabled(s, ExitAndOpen(x, scan, id)) ensures ExitSettles(s, x, scan, id) {
      AnExit(s, x, scan, id);
    }
  }

  ghost predicate ExitSettles(s: Sys, v: View, scan: seq<nat>, freshID: nat)
    requires Enabled(s, ExitAndOpen(v, scan, freshID))
  {
    && (forall u :: u in s.survivors ==> u.count <= |s.hist|)
    && (Clean(Next(s, ExitAndOpen(v, scan, freshID))) <==> Settles(s, v))
  }

  lemma AnExit(s: Sys, v: View, scan: seq<nat>, freshID: nat)
    requires Inv(s) && Clean(s) && Enabled(s, ExitAndOpen(v, scan, freshID))
    ensures ExitSettles(s, v, scan, freshID)
  {
    hide Inv, Clean, Enabled, Next, Settles;
    ExitExactly(s, v, scan, freshID);
  }

  lemma InitClean(maxSize: nat)
    ensures Inv(Init(maxSize)) && Clean(Init(maxSize))
  {
    hide Inv;
    InitInv(maxSize);
  }

  // ---------------------------------------------------------------- what a caller can see to

  /** No publish is uncertain, and the process ends behind the sync that Close makes of the active segment. */
  ghost predicate Orderly(labels: seq<Label>) {
    && (forall i :: 0 <= i < |labels| ==> !labels[i].AbandonRotation? && !labels[i].FinishCommitUncertain?)
    && (forall i :: 0 < i < |labels| && labels[i].ExitAndOpen? ==> labels[i - 1].SyncActive?)
  }

  /** There is one manifest that a crash may find, but for the time between a rename and the sync behind it. */
  ghost predicate OneManifest(s: Sys) {
    && !s.disabled
    && (!s.phase.RotationRenamed? && !s.phase.CommitRenamed? ==> forall u :: u in s.survivors ==> u.gen == s.gen)
  }

  lemma OneManifestStep(s: Sys, l: Label)
    requires Inv(s) && OneManifest(s) && Enabled(s, l) && !l.AbandonRotation? && !l.FinishCommitUncertain?
    requires l.ExitAndOpen? ==> s.phase.Idle?
    ensures forall v :: v in s.survivors ==> v.count <= |s.hist|
    ensures OneManifest(Next(s, l))
  {
    hide Sound, DiskInv, PassOk, PickOk, PhaseOk, Opened, Resumed, Rotate, Commit, ScanOne, Start;
    CurrentSurvives(s);
    if Reopens(l) {
      OneReopened(s, l);
    }
  }

  lemma OneReopened(s: Sys, l: Label)
    requires Inv(s) && OneManifest(s) && Enabled(s, l) && Reopens(l) && (l.ExitAndOpen? ==> s.phase.Idle?)
    ensures forall v :: v in s.survivors ==> v.count <= |s.hist|
    ensures OneManifest(Next(s, l))
  {
    hide Inv, LogSize, Reopened, Contents, SegsClock, Repair, Replay;
    CurrentSurvives(s);
    if l.ExitAndOpen? {
      hide Opened;
      ResumedFields(s, l.found, l.scan, l.freshID);
    }
  }

  /** What an Open behind a Close finds is settled. */
  lemma ClosedSettled(s: Sys, v: View)
    requires Inv(s) && OneManifest(s) && s.phase.Idle? && s.cur.active in s.solid
    requires v in s.survivors && v.gen == s.gen && v.count == |s.hist|
    ensures Settles(s, v)
  {
    hide MemInv, SurvivorOk, Lags, LogSize;
    assert s.gen == s.cur.gen;
    assert v == s.cur;
  }

  lemma {:induction false} OrderlyRun(s: Sys, labels: seq<Label>)
    requires Inv(s) && OneManifest(s) && Orderly(labels) && Run(s, labels).Some?
    requires labels != [] && labels[0].ExitAndOpen? ==> s.phase.Idle? && s.cur.active in s.solid
    ensures SettledRun(s, labels)
    decreases |labels|
  {
    hide Inv, Enabled, Next, Settles, OneManifest;
    if labels != [] {
      var l, t := labels[0], Next(s, labels[0]);
      RunStep(s, labels);
      InvStep(s, l);
      OneManifestStep(s, l);
      if l.ExitAndOpen? {
        ExitFinds(s, l.found, l.scan, l.freshID);
        ClosedSettled(s, l.found);
      }
      if |labels| > 1 && labels[1].ExitAndOpen? {
        SyncedIdle(s);
      }
      OrderlyRun(t, labels[1..]);
    }
  }

  lemma ExitFinds(s: Sys, v: View, scan: seq<nat>, freshID: nat)
    requires Enabled(s, ExitAndOpen(v, scan, freshID))
    ensures v in s.survivors && v.gen == s.gen && v.count == |s.hist|
  {
  }

  lemma SyncedIdle(s: Sys)
    requires Enabled(s, SyncActive) && forall v :: v in s.survivors ==> v.count <= |s.hist|
    ensures Next(s, SyncActive).phase.Idle? && Next(s, SyncActive).cur.active in Next(s, SyncActive).solid
  {
  }

  /** So as long as no publish is uncertain and every process ends with a Close whose sync succeeds, every restart is
      settled, through any number of host crashes. */
  lemma ClosesSettle(maxSize: nat, labels: seq<Label>)
    requires Orderly(labels) && Run(Init(maxSize), labels).Some?
    ensures SettledRun(Init(maxSize), labels)
  {
    InitInv(maxSize);
    OrderlyRun(Init(maxSize), labels);
  }

  // ---------------------------------------------------------------- what becomes of one that is not settled

  lemma StaleFields(s: Sys, v: View, scan: seq<nat>, freshID: nat)
    requires Inv(s) && Enabled(s, ExitAndOpen(v, scan, freshID)) && GoesOn(s, v)
    ensures forall x :: x in s.survivors ==> x.count <= |s.hist|
    ensures var t := Next(s, ExitAndOpen(v, scan, freshID));
      && t.stale == s.stale + (set u | u in s.survivors && u.gen != s.gen)
      && t.files == (map i | i in s.files && i in v.segs :: s.files[i])
      && t.dirents == s.dirents * t.files.Keys && t.solid == s.solid * t.files.Keys && t.shaky == s.shaky * t.files.Keys
      && t.cur.active == v.active && |s.hist| <= |t.hist| && Inv(t) && v.segs.Keys <= t.files.Keys
  {
    hide Inv, LogSize, Reopened, Contents, SegsClock, Repair, Replay;
    CurrentSurvives(s);
    SurvivorNamed(s, v);
    ResumedInv(s, v, scan, freshID);
    ResumedFields(s, v, scan, freshID);
  }

  lemma SurvivorNamed(s: Sys, v: View)
    requires Inv(s) && v in s.survivors
    ensures Named(s, v) && v.gen <= s.gen && v.count <= |s.hist| && v.active in v.segs
  {
    hide MemInv, Dated, Replay, Named;
    assert SurvivorOk(s, v);
  }

  /** After a restart that goes on over a manifest u that may come back, u still names only files that are there for
      good exactly when it lists none that the manifest found does not: Open has swept the others away. */
  lemma StaleNamed(s: Sys, v: View, scan: seq<nat>, freshID: nat, u: View)
    requires Inv(s) && Enabled(s, ExitAndOpen(v, scan, freshID)) && GoesOn(s, v)
    requires u in s.survivors && u.gen != s.gen
    ensures forall x :: x in s.survivors ==> x.count <= |s.hist|
    ensures var t := Next(s, ExitAndOpen(v, scan, freshID));
      && u in t.stale && t.files.Keys == v.segs.Keys && (Named(t, u) <==> u.segs.Keys <= v.segs.Keys)
  {
    hide Inv, LogSize, Enabled, Next, GoesOn;
    StaleFields(s, v, scan, freshID);
    SurvivorNamed(s, u);
  }

  /** In terms of reconciling: where a crash leaves no more than the durable entries, the Open behind it accepts u's
      manifest on that condition, and is refused otherwise. */
  lemma StaleReconciles(s: Sys, v: View, scan: seq<nat>, freshID: nat, u: View, m: Manifest, onDisk: seq<nat>)
    requires Inv(s) && Enabled(s, ExitAndOpen(v, scan, freshID)) && GoesOn(s, v)
    requires u in s.survivors && u.gen != s.gen && ManifestOf(u, m)
    requires forall x :: x in s.survivors ==> x.count <= |s.hist|
    requires forall id :: id in onDisk <==> id in Next(s, ExitAndOpen(v, scan, freshID)).dirents
    ensures (forall id :: id in m.segments ==> id in onDisk) <==> u.segs.Keys <= v.segs.Keys
  {
    hide Inv, LogSize, Enabled, Next, GoesOn, WellFormed;
    StaleFields(s, v, scan, freshID);
    SurvivorNamed(s, u);
    var t := Next(s, ExitAndOpen(v, scan, freshID));
    assert forall id :: id in u.segs ==> id in s.dirents;
    assert forall id :: id in u.segs && id in v.segs ==> id in t.files;
  }

  /** And where Open accepts it, its active segment is not the one that is written to, so that what is written and
      synced after the restart is not in it. */
  lemma StaleLosesWrites(s: Sys, v: View, scan: seq<nat>, freshID: nat, u: View, r: Record)
    requires Inv(s) && Enabled(s, ExitAndOpen(v, scan, freshID)) && GoesOn(s, v)
    requires u in s.survivors && u.gen != s.gen && u.segs.Keys <= v.segs.Keys
    requires forall x :: x in s.survivors ==> x.count <= |s.hist|
    requires Enabled(Next(s, ExitAndOpen(v, scan, freshID)), WriteRecord(r))
    ensures var t := Next(s, ExitAndOpen(v, scan, freshID));
      && u.active != t.cur.active && (forall x :: x in t.survivors ==> x.count <= |t.hist|)
    ensures var t1 := Next(Next(s, ExitAndOpen(v, scan, freshID)), WriteRecord(r));
      && (forall x :: x in t1.survivors ==> x.count <= |t1.hist|) && Enabled(t1, SyncActive)
    ensures var t2 := Next(Next(Next(s, ExitAndOpen(v, scan, freshID)), WriteRecord(r)), SyncActive);
      u in t2.stale && u.count < t2.durable == |t2.hist| && t2.hist[|t2.hist| - 1] == r
  {
    hide Inv, LogSize, GoesOn, Resumed, ValidRecord, Write;
    StaleFields(s, v, scan, freshID);
    SurvivorNamed(s, u);
    SurvivorNamed(s, v);
    ApartFrom(s, u, v);
    var t := Next(s, ExitAndOpen(v, scan, freshID));
    CurrentSurvives(t);
    InvStep(t, WriteRecord(r));
    CurrentSurvives(Next(t, WriteRecord(r)));
    WroteAndSynced(t, r);
  }

  lemma ApartFrom(s: Sys, u: View, v: View)
    requires Inv(s) && u in s.survivors && v in s.survivors && u.gen < v.gen && u.segs.Keys <= v.segs.Keys
    ensures u.active != v.active
  {
    hide MemInv, DiskInv;
  }

  lemma WroteAndSynced(t: Sys, r: Record)
    requires Enabled(t, WriteRecord(r)) && forall x :: x in t.survivors ==> x.count <= |t.hist|
    requires var t1 := Next(t, WriteRecord(r)); forall x :: x in t1.survivors ==> x.count <= |t1.hist|
    ensures Enabled(Next(t, WriteRecord(r)), SyncActive)
    ensures var t2 := Next(Next(t, WriteRecord(r)), SyncActive);
      t2.stale == t.stale && t2.durable == |t2.hist| && t2.hist == t.hist + [r]
  {
    hide LogSize, ValidRecord, Write;
  }

  /** The first n bytes of a sealed log read as a whole file. */
  ghost predicate ReadsClean(log: Log, n: nat) {
    ValidLog(log) && n <= LogSize(log) && Scan.ScanFrom(Print(log)[..n], 0).rest.Clean?
  }

  /** A full active segment that was not synced is sealed as it is. If a crash then cuts it anywhere but between two
      records, it reads as corrupt, and what is cut off is lost whatever has been synced behind it. */
  lemma SealedUnsynced(s: Sys, v: View, scan: seq<nat>, freshID: nat, n: nat)
    requires Inv(s) && Enabled(s, ExitAndOpen(v, scan, freshID)) && !GoesOn(s, v) && v.active !in s.solid
    requires v.active in v.segs && n <= LogSize(v.segs[v.active])
    ensures forall x :: x in s.survivors ==> x.count <= |s.hist|
    ensures var t := Next(s, ExitAndOpen(v, scan, freshID)); var log := v.segs[v.active];
      && v.active in t.shaky && v.active in t.cur.segs && t.cur.segs[v.active] == log && t.cur.active != v.active
      && (ReadsClean(log, n) <==> Scan.Boundary(log, n))
      && (Scan.Whole(log, n) == |log| <==> n == LogSize(log))
  {
    hide Inv, LogSize, Print, ValidLog, Scan.ScanFrom, Scan.Boundary, Scan.Whole;
    Reopening(s, ExitAndOpen(v, scan, freshID));
    CurrentSurvives(s);
    FoundTwins(s, v);
    var log := v.segs[v.active];
    assert ValidLog(log);
    Scan.SealedCut(log, n);
    WholeLog(log, n);
    SealedFields(s, v, scan, freshID);
  }

  lemma WholeLog(log: Log, n: nat)
    requires ValidLog(log) && n <= LogSize(log)
    ensures Scan.Whole(log, n) == |log| <==> n == LogSize(log)
  {
    hide ValidRecord;
    Scan.WholeFits(log, n);
    assert log[..|log|] == log;
  }

  lemma SealedFields(s: Sys, v: View, scan: seq<nat>, freshID: nat)
    requires Finds(s, v, scan) && forall x :: x in s.survivors ==> x.count <= |s.hist|
    requires Inv(s) && Enabled(s, ExitAndOpen(v, scan, freshID)) && !GoesOn(s, v) && v.active !in s.solid
    ensures var t := Next(s, ExitAndOpen(v, scan, freshID));
      && v.active in t.shaky && v.active in t.cur.segs && t.cur.segs[v.active] == v.segs[v.active]
      && t.cur.active != v.active
  {
    hide Inv, LogSize, Reopened, Contents, SegsClock, Repair, Replay;
    CurrentSurvives(s);
    SurvivorFacts(s, v);
  }

  // ---------------------------------------------------------------- runs that end so

  lemma Uncertainly(s0: Sys, labels: seq<Label>, s: Sys, c: Pass)
    requires Leads(s0, labels, s) && s.phase.CommitRenamed? && s.pass == Some(c)
    ensures MemInv(s) && forall v :: v in s.survivors ==> v.count <= |s.hist|
    ensures Enabled(s, FinishCommitUncertain)
    ensures Leads(s0, labels + [FinishCommitUncertain], Next(s, FinishCommitUncertain))
    ensures var t := Next(s, FinishCommitUncertain);
      && t.cur == Commit(s.cur, c) && t.survivors == s.survivors && t.gen == s.gen && t.hist == s.hist
      && t.durable == s.durable && t.maxSize == s.maxSize
  {
    hide MemInv, Run, Session, Commit;
    Extend(s0, labels, s, FinishCommitUncertain);
  }

  lemma Led(maxSize: nat, labels: seq<Label>, s: Sys)
    requires Leads(Init(maxSize), labels, s)
    ensures Run(Init(maxSize), labels) == Some(s) && Inv(s)
  {
    hide MemInv, DiskInv, Run, Session, Init;
    Reached(maxSize, labels);
  }

  /** An Open behind the end of a process finds the manifest that was renamed last, with all that was written. */
  lemma CanExit(s: Sys, v: View, scan: seq<nat>)
    requires Inv(s) && v in s.survivors && v.gen == s.gen && v.count == |s.hist| && Lists(scan, v.segs.Keys)
    ensures Enabled(s, ExitAndOpen(v, scan, s.nextID)) && forall x :: x in s.survivors ==> x.count <= |s.hist|
  {
    hide MemInv, Dated, Replay, ValidLog, Twins, SameActive, PassFiles, StageOk;
    assert SurvivorOk(s, v);
  }

  /** Put, compact, an uncertain commit, the end of the process, Open: the manifest from before the commit may still
      come back, it names segment 0, and Open has unlinked that. The put in it was synced. */
  lemma UncertainCommitThenExit(maxSize: nat, k: Key, val: Value)
    returns (labels: seq<Label>, s: Sys, exit: Label, t: Sys, u: View)
    requires 0 < maxSize && ValidKey(k) && |val| <= MAX_VAL_LEN
    ensures Run(Init(maxSize), labels) == Some(s) && exit.ExitAndOpen? && Enabled(s, exit) && !Settles(s, exit.found)
    ensures Run(Init(maxSize), labels + [exit]) == Some(t)
    ensures s.hist == [PutRecord(1, k, val)] && s.durable == 1
    ensures u in t.stale && 0 in u.segs && 0 !in t.files && 0 !in t.dirents
  {
    hide Run, Inv, Session, Leads, Commit, Tagged, Enabled, Next, Compaction.Live, ScanOne, Start;
    var s0 := Init(maxSize);
    var l1, s1 := PutAndRotateTwice(maxSize, k, val);
    ItemsOfOne(PutRecord(1, k, val), k, Put(k, val));
    TaggedPair(0, 1, s1.cur.segs);
    NoItems();
    u := s1.cur;
    var l2, s2, c := PassTwo(s0, l1, s1, u);
    var l3, s3 := RenameTwo(s0, l2, s2, u);
    Uncertainly(s0, l3, s3, c);
    labels, s := l3 + [FinishCommitUncertain], Next(s3, FinishCommitUncertain);
    Led(maxSize, labels, s);
    assert c.mid == 3 by { FirstMid(s1, c); }
    CommitPicture(u, c);
    CommitHasFields(u, c);
    var v := Commit(u, c);
    var scan := if c.rewrites == [] then [2] else [2, 3];
    assert Lists(scan, v.segs.Keys);
    CanExit(s, v, scan);
    exit := ExitAndOpen(v, scan, s.nextID);
    OneMoreStep(s0, labels, s, exit);
    t := Next(s, exit);
    assert GoesOn(s, v) by { assert v.segs[2] == []; }
    StaleNamed(s, v, scan, s.nextID, u);
    StaleFields(s, v, scan, s.nextID);
  }

  lemma FirstMid(s: Sys, c: Pass)
    requires s.cur.segs.Keys == {0, 1, 2} && Tagged([0, 1], s.cur.segs) != []
    requires c == ScanOne(s.cur.kd, Start(s.cur, [0, 1], s.nextID)).(seen := s.cur.count, ready := true)
    ensures c.mid == s.nextID
  {
    hide Tagged;
    ScanFields(s.cur.kd, Start(s.cur, [0, 1], s.nextID));
  }

  /** A rotation whose publish is uncertain, the end of the process, Open, one more write and its sync: the manifest
      from before the rotation may still come back, Open would accept it, and it does not have the write. */
  lemma UncertainRotationThenExit(maxSize: nat, r: Record)
    returns (labels: seq<Label>, s: Sys, exit: Label, t: Sys, u: View)
    requires 0 < maxSize && ValidRecord(r) && 0 < r.tstamp
    ensures Run(Init(maxSize), labels) == Some(s) && exit.ExitAndOpen? && Enabled(s, exit) && !Settles(s, exit.found)
    ensures Run(Init(maxSize), labels + [exit] + [WriteRecord(r)] + [SyncActive]) == Some(t)
    ensures u in t.stale && Named(t, u) && u.count < t.durable == |t.hist| && t.hist[|t.hist| - 1] == r
  {
    hide Run, Inv, Session, Leads, ValidRecord, Rotate, LogSize, Next, Enabled, Named;
    var s0 := Init(maxSize);
    labels, s := AbandonFirst(maxSize);
    u := s0.cur;
    var v := Rotate(u, 1, 0);
    assert v.segs == map[0 := [], 1 := []] && v.active == 1 && v.gen == 1 && v.count == 0 by { FirstRotated(maxSize); }
    assert Lists([0, 1], v.segs.Keys);
    CanExit(s, v, [0, 1]);
    exit := ExitAndOpen(v, [0, 1], s.nextID);
    OneMoreStep(s0, labels, s, exit);
    var s1 := Next(s, exit);
    NoItems();
    StaleNamed(s, v, [0, 1], s.nextID, u);
    StaleFields(s, v, [0, 1], s.nextID);
    EmptyRestart(s, v, s.nextID);
    assert Enabled(s1, WriteRecord(r)) by { CanWrite(s1, r); }
    StaleLosesWrites(s, v, [0, 1], s.nextID, u, r);
    OneMoreStep(s0, labels + [exit], s1, WriteRecord(r));
    var s2 := Next(s1, WriteRecord(r));
    OneMoreStep(s0, labels + [exit] + [WriteRecord(r)], s2, SyncActive);
    t := Next(s2, SyncActive);
    assert Named(s1, u);
    KeepsNamed(s1, r, u);
  }

  lemma FirstRotated(maxSize: nat)
    ensures var v := Rotate(Init(maxSize).cur, 1, 0);
      v.segs == map[0 := [], 1 := []] && v.active == 1 && v.gen == 1 && v.count == 0
  {
  }

  lemma AbandonFirst(maxSize: nat) returns (labels: seq<Label>, s: Sys)
    ensures Run(Init(maxSize), labels) == Some(s) && Inv(s) && s.maxSize == maxSize && s.hist == [] && s.gen == 1
    ensures s.survivors == {Init(maxSize).cur, Rotate(Init(maxSize).cur, 1, 0)}
  {
    hide MemInv, Run, Session, Leads, Inv, Rotate;
    var s0 := Init(maxSize);
    InitLeads(maxSize);
    Extend(s0, [], s0, BeginRotation);
    var s1 := Next(s0, BeginRotation);
    Extend(s0, [] + [BeginRotation], s1, SyncDirForRotation);
    var s2 := Next(s1, SyncDirForRotation);
    Extend(s0, [] + [BeginRotation] + [SyncDirForRotation], s2, RenameForRotation);
    var s3 := Next(s2, RenameForRotation);
    assert s2.survivors == {s0.cur};
    assert s3.survivors == {s0.cur, Rotate(s0.cur, 1, 0)};
    labels := [] + [BeginRotation] + [SyncDirForRotation] + [RenameForRotation];
    Extend(s0, labels, s3, AbandonRotation);
    labels, s := labels + [AbandonRotation], Next(s3, AbandonRotation);
    Led(maxSize, labels, s);
  }

  /** After a restart from empty segments the clock is at zero, and the active one is still empty. */
  lemma EmptyRestart(s: Sys, v: View, freshID: nat)
    requires Inv(s) && Enabled(s, ExitAndOpen(v, [0, 1], freshID)) && GoesOn(s, v)
    requires v.segs == map[0 := [], 1 := []] && v.active == 1
    requires forall x :: x in s.survivors ==> x.count <= |s.hist|
    ensures var t := Next(s, ExitAndOpen(v, [0, 1], freshID));
      t.phase.Idle? && !t.disabled && t.last == 0 && t.cur.active == 1 && t.cur.segs == v.segs
  {
    hide Inv, LogSize, Reopened, Contents, Repair, Replay;
    assert [0, 1][..1] == [0] && [0][..0] == [];
    assert SegsClock(0, [0], v.segs) == LogClock(SegsClock(0, [], v.segs), []);
    assert SegsClock(0, [0, 1], v.segs) == LogClock(SegsClock(0, [0], v.segs), []);
  }

  lemma KeepsNamed(s: Sys, r: Record, u: View)
    requires Enabled(s, WriteRecord(r)) && (forall x :: x in s.survivors ==> x.count <= |s.hist|)
    requires var t := Next(s, WriteRecord(r));
      forall x :: x in t.survivors ==> x.count <= |t.hist|
    requires Named(s, u) && s.cur.active !in u.segs
    ensures Enabled(Next(s, WriteRecord(r)), SyncActive)
    ensures Named(Next(Next(s, WriteRecord(r)), SyncActive), u)
  {
    hide ValidRecord, LogSize, Write;
  }

  /** A put that fills the active segment, the end of the process before it is synced, Open, a second write and its
      sync: a crash that cuts the first record makes the next Open fail, one that takes all of it leaves the second
      without it. */
  lemma UnsyncedSealThenExit(maxSize: nat, r: Record, later: Record) returns (s: Sys, exit: Label, t: Sys)
    requires ValidRecord(r) && 0 < r.tstamp && ValidRecord(later) && r.tstamp < later.tstamp && maxSize <= RecordSize(r)
    ensures Run(Init(maxSize), [WriteRecord(r)]) == Some(s) && exit.ExitAndOpen? && Enabled(s, exit)
    ensures !Settles(s, exit.found)
    ensures Run(Init(maxSize), [WriteRecord(r)] + [exit] + [WriteRecord(later)] + [SyncActive]) == Some(t)
    ensures 0 in t.shaky && 0 in t.cur.segs && t.cur.segs[0] == [r]
    ensures 0 < t.durable == |t.hist| && t.hist[|t.hist| - 1] == later
    ensures forall n: nat :: n <= RecordSize(r) ==> (ReadsClean([r], n) <==> n == 0 || n == RecordSize(r))
  {
    hide Run, Inv, ValidRecord, LogSize, RecordSize, ReadsClean, Next, Init, Settles, Enabled;
    s := UnsyncedPut(maxSize, r);
    exit := ExitAndOpen(s.cur, [0], s.nextID);
    var s1 := SealedBehind(s, r);
    OneMoreStep(Init(maxSize), [WriteRecord(r)], s, exit);
    assert Enabled(s1, WriteRecord(later)) by { CanWrite(s1, later); }
    OneMoreStep(Init(maxSize), [WriteRecord(r)] + [exit], s1, WriteRecord(later));
    var s2 := Next(s1, WriteRecord(later));
    InvStep(s1, WriteRecord(later));
    CurrentSurvives(s2);
    WroteBehind(s1, later);
    OneMoreStep(Init(maxSize), [WriteRecord(r)] + [exit] + [WriteRecord(later)], s2, SyncActive);
    t := Next(s2, SyncActive);
    forall n: nat | n <= RecordSize(r) ensures ReadsClean([r], n) <==> n == 0 || n == RecordSize(r) {
      OneCut(r, n);
    }
  }

  lemma UnsyncedPut(maxSize: nat, r: Record) returns (s: Sys)
    requires ValidRecord(r) && 0 < r.tstamp
    ensures Run(Init(maxSize), [WriteRecord(r)]) == Some(s) && Inv(s) && s.maxSize == maxSize && s.phase.Idle?
    ensures s.cur.segs == map[0 := [r]] && s.cur.active == 0 && 0 !in s.solid && s.gen == s.cur.gen && s.nextID == 1
  {
    hide Run, Inv, Session, Leads, ValidRecord, LogSize, RecordItems, PublishAll, ApplyAll;
    var s0 := Init(maxSize);
    InitLeads(maxSize);
    Extend(s0, [], s0, WriteRecord(r));
    s := Next(s0, WriteRecord(r));
    assert [] + [WriteRecord(r)] == [WriteRecord(r)] && [] + [r] == [r];
    Led(maxSize, [WriteRecord(r)], s);
  }

  lemma SealedBehind(s: Sys, r: Record) returns (t: Sys)
    requires Inv(s) && s.cur.segs == map[0 := [r]] && s.cur.active == 0 && 0 !in s.solid && s.gen == s.cur.gen
    requires ValidRecord(r) && 0 < r.tstamp && s.maxSize <= RecordSize(r)
    ensures Enabled(s, ExitAndOpen(s.cur, [0], s.nextID)) && !Settles(s, s.cur)
    ensures forall x :: x in s.survivors ==> x.count <= |s.hist|
    ensures t == Next(s, ExitAndOpen(s.cur, [0], s.nextID)) && Inv(t)
    ensures forall x :: x in t.survivors ==> x.count <= |t.hist|
    ensures 0 in t.shaky && 0 in t.cur.segs && t.cur.segs[0] == [r] && t.cur.active != 0 && t.phase.Idle? && !t.disabled
    ensures t.last == r.tstamp && t.cur.active in t.cur.segs && t.cur.segs[t.cur.active] == []
  {
    hide Inv, LogSize, RecordSize, ValidRecord, Next;
    CurrentSurvives(s);
    assert Lists([0], s.cur.segs.Keys);
    CanExit(s, s.cur, [0]);
    OneRecord(r);
    OneClock(s.cur.segs, r);
    t := Next(s, ExitAndOpen(s.cur, [0], s.nextID));
    SealedFields(s, s.cur, [0], s.nextID);
    SealedClock(s, s.cur, [0], s.nextID);
    InvStep(s, ExitAndOpen(s.cur, [0], s.nextID));
    CurrentSurvives(t);
  }

  lemma SealedClock(s: Sys, v: View, scan: seq<nat>, freshID: nat)
    requires Finds(s, v, scan) && forall x :: x in s.survivors ==> x.count <= |s.hist|
    requires Inv(s) && Enabled(s, ExitAndOpen(v, scan, freshID)) && !GoesOn(s, v)
    ensures var t := Next(s, ExitAndOpen(v, scan, freshID));
      && t.last == SegsClock(0, scan, v.segs) && t.phase.Idle? && !t.disabled
      && t.cur.active == freshID && freshID in t.cur.segs && t.cur.segs[freshID] == []
  {
    hide Inv, LogSize, Reopened, Contents, SegsClock, Repair, Replay;
    CurrentSurvives(s);
    SurvivorFacts(s, v);
  }

  lemma CanWrite(s: Sys, r: Record)
    requires s.phase.Idle? && !s.disabled && ValidRecord(r) && s.last < r.tstamp
    requires s.cur.active in s.cur.segs && s.cur.segs[s.cur.active] == []
    ensures Enabled(s, WriteRecord(r))
  {
    hide ValidRecord;
  }

  lemma WroteBehind(t: Sys, r: Record)
    requires Enabled(t, WriteRecord(r)) && forall x :: x in t.survivors ==> x.count <= |t.hist|
    requires var t1 := Next(t, WriteRecord(r)); forall x :: x in t1.survivors ==> x.count <= |t1.hist|
    requires t.cur.active != 0 && 0 in t.shaky && 0 in t.cur.segs
    ensures Enabled(Next(t, WriteRecord(r)), SyncActive)
    ensures var t2 := Next(Next(t, WriteRecord(r)), SyncActive);
      && 0 in t2.shaky && 0 in t2.cur.segs && t2.cur.segs[0] == t.cur.segs[0]
      && t2.durable == |t2.hist| && t2.hist == t.hist + [r]
  {
    hide LogSize, ValidRecord, RecordItems, PublishAll, ApplyAll;
  }

  lemma OneRecord(r: Record)
    requires ValidRecord(r)
    ensures LogSize([r]) == RecordSize(r) && ValidLog([r]) && LogSize([]) == 0 && RecordSize(r) > 0
  {
    hide ValidRecord;
    Append([], r);
    assert [] + [r] == [r];
  }

  lemma OneCut(r: Record, n: nat)
    requires ValidRecord(r) && n <= RecordSize(r)
    ensures ReadsClean([r], n) <==> n == 0 || n == RecordSize(r)
  {
    hide ValidRecord, LogSize, Print, ValidLog, Scan.ScanFrom, Scan.Boundary;
    OneRecord(r);
    Scan.SealedCut([r], n);
    OneBoundary(r, n);
  }

  lemma OneBoundary(r: Record, n: nat)
    requires ValidRecord(r)
    ensures Scan.Boundary([r], n) <==> n == 0 || n == RecordSize(r)
  {
    hide LogSize;
    OneRecord(r);
    assert [r][..0] == [] && [r][..1] == [r];
    assert n == 0 ==> n == LogSize([r][..0]);
    assert n == RecordSize(r) ==> n == LogSize([r][..1]);
  }

  lemma OneClock(segs: Segs, r: Record)
    requires segs == map[0 := [r]] && 0 < r.tstamp
    ensures SegsClock(0, [0], segs) == r.tstamp
  {
    assert [0][..0] == [] && [r][..0] == [];
    assert SegsClock(0, [0], segs) == LogClock(SegsClock(0, [], segs), [r]);
    assert LogClock(0, [r]) == r.tstamp by { assert LogClock(0, []) == 0; }
  }
}
