/** Crash and Open as one: from what a run has written, to what a crash leaves of it in the directory, to the engine
    that Open brings up. */
module Restart {
  import opened Bytes
  import opened Wrappers
  import opened Record
  import opened Log
  import opened Keydirs
  import opened View
  import opened Compaction
  import opened Reopen
  import opened Engine
  import opened Refinement
  import opened Durability
  import opened Manifest
  import opened Opening
  import opened Db
  import Scan
  import Hint

  // ---------------------------------------------------------------- the hints of a run

  /** The entries of the hint files after one more step: the compactor writes one once its merged segment is synced, and
      one goes with its segment. */
  ghost function HintsAfter(h: map<nat, seq<Hint.HintEntry>>, s: Sys, l: Label): map<nat, seq<Hint.HintEntry>> {
    match l
    case SyncMerged =>
      if s.pass.Some? && s.pass.value.rewrites != [] then h[s.pass.value.mid := Hint.HintOf(s.pass.value.rewrites)]
      else h
    case AbortPass => if s.pass.Some? then h - {s.pass.value.mid} else h
    case FailCommit => if s.pass.Some? then h - {s.pass.value.mid} else h
    case Unlink(id) => h - {id}
    case CrashAndOpen(v, _, _) => map i | i in h && i in v.segs :: h[i]
    case ExitAndOpen(v, _, _) => map i | i in h && i in v.segs :: h[i]
    case _ => h
  }

  ghost function HintsOfRun(h: map<nat, seq<Hint.HintEntry>>, s: Sys, labels: seq<Label>): map<nat, seq<Hint.HintEntry>>
    decreases |labels|
  {
    if labels == [] || !Enabled(s, labels[0]) || exists v :: v in s.survivors && v.count > |s.hist| then h
    else HintsOfRun(HintsAfter(h, s, labels[0]), Next(s, labels[0]), labels[1..])
  }

  /** A hint belongs to a finished segment, and replaying it does what scanning that segment does. */
  ghost predicate HintOk(s: Sys, i: nat, es: seq<Hint.HintEntry>) {
    && i < s.nextID && (forall v :: v in s.survivors ==> v.active != i)
    && (s.phase.Rotating? || s.phase.RotationRenamed? ==> s.phase.next != i)
    && (s.pass.Some? && s.pass.value.mid == i ==> s.pass.value.ready)
    && (i in s.files ==> Replays(es, i, s.files[i]))
  }

  ghost predicate HintsOk(s: Sys, h: map<nat, seq<Hint.HintEntry>>) {
    forall i :: i in h ==> HintOk(s, i, h[i])
  }

  lemma HintWrite(s: Sys, r: Record, i: nat, es: seq<Hint.HintEntry>)
    requires Inv(s) && Enabled(s, WriteRecord(r)) && HintOk(s, i, es)
    ensures HintOk(Next(s, WriteRecord(r)), i, es)
  {
    hide MemInv, SurvivorOk, Replays, Replay, RecordItems, PublishAll, ApplyAll;
    hide ValidRecord, Twins, SameActive, StageOk;
    assert s.cur in s.survivors;
    assert i != s.cur.active;
  }

  lemma HintGrow(s: Sys, l: Label, i: nat, es: seq<Hint.HintEntry>)
    requires Inv(s) && Enabled(s, l) && HintOk(s, i, es) && (l.BeginRotation? || l.Snapshot? || l.TakeId? || l.Scan?)
    ensures HintOk(Next(s, l), i, es)
  {
    hide Sound, PassInv, SurvivorOk, Replays, Replay, ScanOne, Start, Twins, SameActive, StageOk;
    if l.Scan? {
      ScanFields(s.cur.kd, s.pass.value);
    }
  }

  lemma HintRename(s: Sys, l: Label, i: nat, es: seq<Hint.HintEntry>)
    requires Inv(s) && Enabled(s, l) && HintOk(s, i, es) && (l.RenameForRotation? || l.RenameForCommit?)
    ensures HintOk(Next(s, l), i, es)
  {
    hide Sound, PassInv, SurvivorOk, Replays, Replay, Twins, SameActive, StageOk, SwapAll;
  }

  lemma HintQuiet(s: Sys, l: Label, i: nat, es: seq<Hint.HintEntry>)
    requires Inv(s) && Enabled(s, l) && HintOk(s, i, es)
    requires !l.WriteRecord? && !l.BeginRotation? && !l.Snapshot? && !l.TakeId? && !l.Scan? && !l.RenameForRotation?
    requires !l.RenameForCommit? && !Reopens(l)
    ensures HintOk(Next(s, l), i, es)
  {
    hide Sound, PassInv, SurvivorOk, Replays, Replay, Commit, Rotate, Twins, SameActive, StageOk;
  }

  lemma HintNew(s: Sys)
    requires Inv(s) && Enabled(s, SyncMerged) && s.pass.value.rewrites != []
    ensures HintOk(Next(s, SyncMerged), s.pass.value.mid, Hint.HintOf(s.pass.value.rewrites))
  {
    hide Dated, Located, PassCore, Reaches, Settled, Replays, Replay, Twins, SameActive, StageOk, Named;
    var c := s.pass.value;
    PassReplays(s.cur, c);
    assert c.rewrites != [] ==> c.mid in s.files && s.files[c.mid] == c.merged;
    forall v | v in s.survivors ensures v.active != c.mid {
      assert SurvivorOk(s, v);
    }
    PhaseMid(s);
  }

  lemma PhaseMid(s: Sys)
    requires MemInv(s) && s.pass.Some?
    ensures s.phase.Rotating? || s.phase.RotationRenamed? ==> s.phase.next != s.pass.value.mid
    ensures s.pass.value.mid < s.nextID
  {
  }

  lemma HintOpened(s: Sys, v: View, scan: seq<nat>, freshID: nat, i: nat, es: seq<Hint.HintEntry>)
    requires Inv(s) && Enabled(s, CrashAndOpen(v, scan, freshID)) && HintOk(s, i, es)
    requires Finds(s, v, scan) && i in v.segs
    ensures HintOk(Opened(s, v, scan, freshID), i, es)
  {
    hide MemInv, Replays, Replay, Reopened, Contents, SegsClock, LogSize, Twins, SameActive, StageOk, Repair, Dated;
    assert SurvivorOk(s, v);
    var u := Opened(s, v, scan, freshID).cur;
    assert v.active != i && i < freshID;
    assert i in u.segs && u.segs[i] == v.segs[i] == s.files[i];
  }

  lemma HintResumed(s: Sys, v: View, scan: seq<nat>, freshID: nat, i: nat, es: seq<Hint.HintEntry>)
    requires Inv(s) && Enabled(s, ExitAndOpen(v, scan, freshID)) && HintOk(s, i, es)
    requires Finds(s, v, scan) && i in v.segs
    ensures HintOk(Resumed(s, v, scan, freshID), i, es)
  {
    hide Inv, Replays, Opened, LogSize, Lags;
    ResumedFields(s, v, scan, freshID);
    HintOpened(s, v, scan, freshID, i, es);
    FoundTwins(s, v);
    forall u | u in s.survivors && u.gen == s.gen ensures u.active == v.active {
      LagActive(u, v);
    }
    assert i < freshID;
  }

  lemma HintsStep(s: Sys, l: Label, h: map<nat, seq<Hint.HintEntry>>)
    requires Inv(s) && Enabled(s, l) && HintsOk(s, h)
    ensures forall v :: v in s.survivors ==> v.count <= |s.hist|
    ensures HintsOk(Next(s, l), HintsAfter(h, s, l))
  {
    hide Inv, Enabled, Next, HintOk, Opened, Resumed;
    assert forall v :: v in s.survivors ==> v.count <= |s.hist| by { Counted(s); }
    var after := HintsAfter(h, s, l);
    forall i | i in after ensures HintOk(Next(s, l), i, after[i]) {
      if i !in h || after[i] != h[i] {
        HintNew(s);
      } else {
        assert i in h && after[i] == h[i];
        match l
        case WriteRecord(r) => HintWrite(s, r, i, h[i]);
        case BeginRotation => HintGrow(s, l, i, h[i]);
        case Snapshot(_) => HintGrow(s, l, i, h[i]);
        case TakeId => HintGrow(s, l, i, h[i]);
        case Scan => HintGrow(s, l, i, h[i]);
        case RenameForRotation => HintRename(s, l, i, h[i]);
        case RenameForCommit => HintRename(s, l, i, h[i]);
        case CrashAndOpen(v, scan, freshID) =>
          Reopening(s, l);
          HintOpened(s, v, scan, freshID, i, h[i]);
        case ExitAndOpen(v, scan, freshID) =>
          ResumedFields(s, v, scan, freshID);
          HintResumed(s, v, scan, freshID, i, h[i]);
        case _ => HintQuiet(s, l, i, h[i]);
      }
    }
  }

  lemma Counted(s: Sys)
    requires Inv(s)
    ensures forall v :: v in s.survivors ==> v.count <= |s.hist|
  {
  }

  lemma {:induction false} HintsRun(s: Sys, labels: seq<Label>, h: map<nat, seq<Hint.HintEntry>>)
    requires Inv(s) && Run(s, labels).Some? && HintsOk(s, h)
    ensures HintsOk(Run(s, labels).value, HintsOfRun(h, s, labels))
    decreases |labels|
  {
    hide Inv, Enabled, Next, HintsOk, HintsAfter;
    if labels != [] {
      RunStep(s, labels);
      InvStep(s, labels[0]);
      HintsStep(s, labels[0], h);
      HintsRun(Next(s, labels[0]), labels[1..], HintsAfter(h, s, labels[0]));
    }
  }

  // ---------------------------------------------------------------- what a crash leaves, and what Open makes of it

  /** The directory after a crash that leaves the view v: every file with a durable entry is there; those that were
      synced are whole; the active one is cut somewhere behind the records of v and before the end of the next; a hint
      file that is found for a segment of v is one the run has written for it. */
  ghost predicate CrashLeaves(s: Sys, h: map<nat, seq<Hint.HintEntry>>, v: View, disk: map<nat, seq<byte>>,
                              hints: map<nat, seq<byte>>)
  {
    && s.dirents <= disk.Keys
    && (forall i :: i in disk && i in s.files && i in s.solid && i != v.active ==>
          CutAt(disk[i], s.files[i], |s.files[i]|))
    && (v.active in disk && v.active in s.files && v.active in v.segs ==>
          CutAt(disk[v.active], s.files[v.active], |v.segs[v.active]|))
    && (forall i :: i in hints && i in v.segs ==> i in h && Hint.IsHintFile(hints[i], h[i]))
  }

  /** b is the first j records of log, and at most a part of the next. */
  ghost predicate CutAt(b: seq<byte>, log: Log, j: nat) {
    ValidLog(log) && exists n :: 0 <= n <= LogSize(log) && b == Print(log)[..n] && Scan.Whole(log, n) == j
  }

  lemma WholeCut(b: seq<byte>, log: Log)
    requires CutAt(b, log, |log|)
    ensures ValidLog(log) && b == Print(log)
  {
    hide Print, ValidRecord;
    var n :| 0 <= n <= LogSize(log) && b == Print(log)[..n] && Scan.Whole(log, n) == |log|;
    Scan.WholeFits(log, n);
    assert log[..|log|] == log;
    assert Print(log)[..LogSize(log)] == Print(log);
  }

  lemma ActiveCut(b: seq<byte>, log: Log, front: Log)
    requires front <= log && CutAt(b, log, |front|)
    ensures OnDisk(b, front, true)
  {
    hide Print, OnDisk;
    var n :| 0 <= n <= LogSize(log) && b == Print(log)[..n] && Scan.Whole(log, n) == |front|;
    CutOnDisk(log, n);
    assert log[..|front|] == front;
  }

  /** What Open needs of the directory is what a crash leaves of it. */
  lemma CrashedDirectory(s: Sys, h: map<nat, seq<Hint.HintEntry>>, v: View, disk: map<nat, seq<byte>>,
                         hints: map<nat, seq<byte>>)
    requires Inv(s) && HintsOk(s, h) && v in s.survivors && CrashLeaves(s, h, v, disk, hints) && v.segs.Keys !! s.shaky
    ensures Directory(disk, hints, v.segs, v.active)
  {
    hide MemInv, Dated, Replay, Twins, SameActive, PassFiles, StageOk, CutAt;
    hide OnDisk, Faithful, Replays, Hint.IsHintFile;
    assert SurvivorOk(s, v);
    forall i | i in v.segs
      ensures i in disk && OnDisk(disk[i], v.segs[i], i == v.active)
      ensures i in hints && i != v.active ==> Faithful(hints[i], i, v.segs[i])
    {
      if i == v.active {
        ActiveCut(disk[i], s.files[i], v.segs[i]);
      } else {
        assert s.files[i] == v.segs[i] && i in s.solid;
        WholeCut(disk[i], v.segs[i]);
        SealedOnDisk(disk[i], v.segs[i]);
        if i in hints {
          assert HintOk(s, i, h[i]);
          HintFaithful(hints[i], h[i], i, v.segs[i]);
        }
      }
    }
  }

  lemma SealedOnDisk(b: seq<byte>, log: Log)
    requires ValidLog(log) && b == Print(log)
    ensures OnDisk(b, log, false)
  {
  }

  /** Crash and restart, over every run: from whatever a crash leaves of the directory, with any of its manifests,
      Open is given what it asks for; the engine it brings up is the machine's next state, which is again one that a
      run can be in; and the records that survived are a prefix of the history with every synced one in it. */
  lemma CrashAndRestart(maxSize: nat, labels: seq<Label>, v: View, m: Manifest, disk: map<nat, seq<byte>>,
                        hints: map<nat, seq<byte>>, order: seq<nat>, freshID: nat)
    requires Run(Init(maxSize), labels).Some?
    requires var s := Run(Init(maxSize), labels).value;
      && v in s.survivors && ManifestOf(v, m) && v.segs.Keys !! s.shaky
      && CrashLeaves(s, HintsOfRun(map[], Init(maxSize), labels), v, disk, hints)
    requires Lists(order, v.segs.Keys) && forall i :: i in disk ==> i < freshID
    ensures Holds(Some(m), disk, v) && Directory(disk, hints, v.segs, v.active) && v.active in v.segs
    ensures var s := Run(Init(maxSize), labels).value; var crash := CrashAndOpen(v, order, freshID);
      && Finds(s, v, order) && s.durable <= v.count
      && Run(Init(maxSize), labels + [crash]) == Some(Opened(s, v, order, freshID))
      && Inv(Opened(s, v, order, freshID))
  {
    hide Inv, Run, Init, HintsOfRun, CrashLeaves, Directory, Opened, Next, ManifestOf, HintsOk, Enabled, Replay;
    Reached(maxSize, labels);
    NoHints(maxSize);
    HintsRun(Init(maxSize), labels, map[]);
    var s := Run(Init(maxSize), labels).value;
    var h := HintsOfRun(map[], Init(maxSize), labels);
    CrashedDirectory(s, h, v, disk, hints);
    SurvivorFacts(s, v);
    DirectoryHas(disk, hints, v.segs, v.active);
    assert Enabled(s, CrashAndOpen(v, order, freshID)) by { CanCrash(s, v, order, freshID); }
    Reopening(s, CrashAndOpen(v, order, freshID));
    OpenedInv(s, v, order, freshID);
    OneMoreStep(Init(maxSize), labels, s, CrashAndOpen(v, order, freshID));
  }

  lemma NoHints(maxSize: nat)
    ensures Inv(Init(maxSize)) && HintsOk(Init(maxSize), map[])
  {
    hide Inv;
    InitInv(maxSize);
  }

  lemma DirectoryHas(disk: map<nat, seq<byte>>, hints: map<nat, seq<byte>>, segs: Segs, active: nat)
    requires Directory(disk, hints, segs, active)
    ensures active in segs && forall i :: i in segs ==> i in disk
  {
    hide OnDisk, Faithful;
  }

  // ---------------------------------------------------------------- what an exit leaves

  /** The directory when the process has ended and the host has not: every file as it was written. */
  ghost predicate ExitLeaves(s: Sys, h: map<nat, seq<Hint.HintEntry>>, v: View, disk: map<nat, seq<byte>>,
                             hints: map<nat, seq<byte>>)
  {
    && s.files.Keys <= disk.Keys
    && (forall i :: i in s.files && ValidLog(s.files[i]) ==> disk[i] == Print(s.files[i]))
    && (forall i :: i in hints && i in v.segs ==> i in h && Hint.IsHintFile(hints[i], h[i]))
  }

  lemma WholeOnDisk(b: seq<byte>, log: Log, active: bool)
    requires ValidLog(log) && b == Print(log)
    ensures OnDisk(b, log, active)
  {
    hide Print, ValidRecord, Scan.ScanFrom;
    if active {
      Scan.WholeFits(log, LogSize(log));
      assert Print(log)[..LogSize(log)] == Print(log);
      CutOnDisk(log, LogSize(log));
      WholeItself(log);
    }
  }

  lemma WholeItself(log: Log)
    ensures Scan.Whole(log, LogSize(log)) == |log| && log[..|log|] == log
  {
  }

  lemma ExitDirectory(s: Sys, h: map<nat, seq<Hint.HintEntry>>, v: View, disk: map<nat, seq<byte>>,
                      hints: map<nat, seq<byte>>)
    requires Inv(s) && HintsOk(s, h) && v in s.survivors && v.gen == s.gen && v.count == |s.hist|
    requires ExitLeaves(s, h, v, disk, hints)
    ensures Directory(disk, hints, v.segs, v.active)
  {
    hide Inv, SurvivorOk, OnDisk, Faithful, Replays, Hint.IsHintFile, ValidLog;
    FoundTwins(s, v);
    CurrentSurvives(s);
    FoundNamed(s, v);
    forall i | i in v.segs
      ensures i in disk && OnDisk(disk[i], v.segs[i], i == v.active)
      ensures i in hints && i != v.active ==> Faithful(hints[i], i, v.segs[i])
    {
      WholeOnDisk(disk[i], v.segs[i], i == v.active);
      if i in hints && i != v.active {
        assert HintOk(s, i, h[i]);
        HintFaithful(hints[i], h[i], i, v.segs[i]);
      }
    }
  }

  lemma FoundNamed(s: Sys, v: View)
    requires Inv(s) && v in s.survivors
    ensures Named(s, v)
  {
    hide MemInv, Dated, Replay, Named;
    assert SurvivorOk(s, v);
  }

  /** Exit and restart, over every run: with every file as it was written and the manifest renamed last, Open is given
      what it asks for, synced or not; the engine it brings up is that of the machine's next state, with nothing lost.
      */
  lemma ExitAndRestart(maxSize: nat, labels: seq<Label>, v: View, m: Manifest, disk: map<nat, seq<byte>>,
                       hints: map<nat, seq<byte>>, order: seq<nat>, freshID: nat)
    requires Run(Init(maxSize), labels).Some?
    requires var s := Run(Init(maxSize), labels).value;
      && v in s.survivors && v.gen == s.gen && v.count == |s.hist| && ManifestOf(v, m)
      && ExitLeaves(s, HintsOfRun(map[], Init(maxSize), labels), v, disk, hints)
    requires Lists(order, v.segs.Keys) && forall i :: i in disk ==> i < freshID
    ensures Holds(Some(m), disk, v) && Directory(disk, hints, v.segs, v.active) && v.active in v.segs
    ensures var s := Run(Init(maxSize), labels).value; var exit := ExitAndOpen(v, order, freshID);
      && Finds(s, v, order)
      && Run(Init(maxSize), labels + [exit]) == Some(Resumed(s, v, order, freshID))
      && Inv(Resumed(s, v, order, freshID)) && s.hist <= Resumed(s, v, order, freshID).hist
      && Stands(Opened(s, v, order, freshID), Resumed(s, v, order, freshID))
  {
    hide Inv, Run, Init, HintsOfRun, ExitLeaves, Directory, Opened, Resumed, Next, ManifestOf, HintsOk, Enabled, Stands;
    Reached(maxSize, labels);
    NoHints(maxSize);
    HintsRun(Init(maxSize), labels, map[]);
    var s := Run(Init(maxSize), labels).value;
    var h := HintsOfRun(map[], Init(maxSize), labels);
    ExitDirectory(s, h, v, disk, hints);
    SurvivorFacts(s, v);
    DirectoryHas(disk, hints, v.segs, v.active);
    ExitFresh(s, h, v, disk, hints, freshID);
    assert Enabled(s, ExitAndOpen(v, order, freshID)) by { CanOpen(s, v, order, freshID); }
    ResumedFields(s, v, order, freshID);
    ResumedInv(s, v, order, freshID);
    ResumedStands(s, v, order, freshID);
    OneMoreStep(Init(maxSize), labels, s, ExitAndOpen(v, order, freshID));
  }

  /** The engine in memory is as good for the one state as for the other. */
  ghost predicate Stands(o: Sys, t: Sys) {
    forall f :: Mirror(f, o) ==> Mirror(f, t)
  }

  lemma CanOpen(s: Sys, v: View, order: seq<nat>, freshID: nat)
    requires v in s.survivors && v.gen == s.gen && v.count == |s.hist|
    requires v.active in v.segs && Lists(order, v.segs.Keys)
    requires forall i :: i in s.files || i in v.segs ==> i < freshID
    ensures Enabled(s, ExitAndOpen(v, order, freshID))
  {
  }

  lemma ResumedStands(s: Sys, v: View, order: seq<nat>, freshID: nat)
    requires Inv(s) && Enabled(s, ExitAndOpen(v, order, freshID))
    ensures Finds(s, v, order) && Stands(Opened(s, v, order, freshID), Resumed(s, v, order, freshID))
  {
    hide Inv, Opened, LogSize, Print, ValidLog;
    ResumedFields(s, v, order, freshID);
    var o, t := Opened(s, v, order, freshID), Resumed(s, v, order, freshID);
    assert o.cur == t.cur && o.last == t.last && o.nextID == t.nextID;
    assert o.disabled == t.disabled && o.maxSize == t.maxSize;
  }

  lemma ExitFresh(s: Sys, h: map<nat, seq<Hint.HintEntry>>, v: View, disk: map<nat, seq<byte>>,
                  hints: map<nat, seq<byte>>, freshID: nat)
    requires ExitLeaves(s, h, v, disk, hints) && forall i :: i in disk ==> i < freshID
    ensures forall i :: i in s.files ==> i < freshID
  {
  }
}
