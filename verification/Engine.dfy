/** The engine as a state machine: the writer, one compactor, the disk, and everything a crash may leave.
    Every label is one step of the code between two points at which another goroutine may run or the host may stop. */
module Engine {
  import opened Wrappers
  import opened Record
  import opened Log
  import opened Keydirs
  import opened View
  import opened Compaction
  import opened Reopen

  /** Where the writer is. The flag says that the data directory has been synced since the new file was created. */
  datatype Phase =
    | Idle
    | Rotating(next: nat, dirSynced: bool)
    | RotationRenamed(next: nat)
    | Committing(dirSynced: bool)
    | CommitRenamed
    | Retiring(left: set<nat>)

  /** cur is the running engine; survivors are the views a host crash may leave, one for each manifest that may be
      found and each prefix of the unsynced records that may be kept. files is the directory, dirents the entries in
      it that are durable, solid the files whose whole content is; gen is the manifest renamed last; hist is all
      records written, of which the first durable are synced; picked is a pass that has chosen its inputs and has no
      id yet. stale are views of older manifests that a crash may still find although an Open has gone on without
      them, shaky are segments that an Open has sealed without a sync. */
  datatype Sys = Sys(cur: View, last: int, nextID: nat, hist: Log, durable: nat, gen: nat, survivors: set<View>,
                     files: map<nat, Log>, dirents: set<nat>, solid: set<nat>, disabled: bool, phase: Phase,
                     picked: Option<Pass>, pass: Option<Pass>, mergedIds: set<nat>, maxSize: nat,
                     stale: set<View>, shaky: set<nat>)

  datatype Label =
    | WriteRecord(rec: Record)
    | SyncActive
    | BeginRotation
    | SyncDirForRotation
    | FailRotation
    | RenameForRotation
    | FinishRotation
    | AbandonRotation
    | Snapshot(order: seq<nat>)
    | TakeId
    | Scan
    | SyncMerged
    | AbortPass
    | BeginCommit
    | SyncDirForCommit
    | FailCommit
    | RenameForCommit
    | FinishCommit
    | FinishCommitUncertain
    | Unlink(id: nat)
    | CrashAndOpen(found: View, scan: seq<nat>, freshID: nat)
    | ExitAndOpen(found: View, scan: seq<nat>, freshID: nat)

  /** The two ways a run can go on behind an Open: a crash of the host, or an end of the process that leaves all that
      was written where it is, synced or not. */
  predicate Reopens(l: Label) {
    l.CrashAndOpen? || l.ExitAndOpen?
  }

  // ---------------------------------------------------------------- the steps

  ghost predicate Enabled(s: Sys, l: Label) {
    match l
    case WriteRecord(r) =>
      && s.phase.Idle? && !s.disabled && ValidRecord(r) && s.last < r.tstamp && s.cur.active in s.cur.segs
      && (s.cur.segs[s.cur.active] == [] || LogSize(s.cur.segs[s.cur.active]) + RecordSize(r) <= s.maxSize)
    case SyncActive => s.phase.Idle?
    case BeginRotation => s.phase.Idle? && !s.disabled
    case SyncDirForRotation => s.phase.Rotating? && !s.phase.dirSynced
    case FailRotation => s.phase.Rotating?
    case RenameForRotation => s.phase.Rotating? && s.phase.dirSynced
    case FinishRotation => s.phase.RotationRenamed?
    case AbandonRotation => s.phase.RotationRenamed?
    case Snapshot(order) =>
      && s.pass.None? && s.picked.None? && !s.phase.Committing? && !s.phase.CommitRenamed? && !s.phase.Retiring?
      && s.cur.active in s.cur.segs && Lists(order, s.cur.segs.Keys - {s.cur.active}) && 2 <= |order|
    case TakeId => s.picked.Some? && s.pass.None?
    case Scan => s.pass.Some? && s.pass.value.todo != []
    case SyncMerged => s.pass.Some? && s.pass.value.todo == [] && !s.pass.value.ready
    case AbortPass => s.pass.Some? && !s.phase.Committing? && !s.phase.CommitRenamed?
    case BeginCommit => s.phase.Idle? && !s.disabled && s.pass.Some? && s.pass.value.ready
    case SyncDirForCommit => s.phase.Committing? && !s.phase.dirSynced
    case FailCommit => s.phase.Committing? && s.pass.Some?
    case RenameForCommit => s.phase.Committing? && s.phase.dirSynced && s.pass.Some?
    case FinishCommit => s.phase.CommitRenamed? && s.pass.Some?
    case FinishCommitUncertain => s.phase.CommitRenamed? && s.pass.Some?
    case Unlink(id) => s.phase.Retiring? && id in s.phase.left
    case CrashAndOpen(v, scan, freshID) =>
      && v in s.survivors && v.active in v.segs && Lists(scan, v.segs.Keys)
      && (forall i :: i in v.segs ==> i < freshID)
    case ExitAndOpen(v, scan, freshID) =>
      && v in s.survivors && v.gen == s.gen && v.count == |s.hist| && v.active in v.segs && Lists(scan, v.segs.Keys)
      && (forall i :: i in s.files || i in v.segs ==> i < freshID)
  }

  /** A sync of the directory settles which manifest a crash finds and makes every entry durable. */
  ghost function SyncDir(s: Sys): Sys {
    s.(survivors := (set v | v in s.survivors && v.gen == s.gen), dirents := s.files.Keys, stale := {})
  }

  /** A sync of the active segment leaves no record to lose. */
  ghost function SyncFile(s: Sys): Sys {
    s.(survivors := (set v | v in s.survivors && v.count == |s.hist|), durable := |s.hist|,
       solid := s.solid + {s.cur.active})
  }

  ghost function RemoveFile(s: Sys, id: nat): Sys {
    s.(files := map i | i in s.files && i != id :: s.files[i], dirents := s.dirents - {id}, solid := s.solid - {id},
       shaky := s.shaky - {id})
  }

  ghost function Append1(s: Sys, r: Record): Sys
    requires s.cur.active in s.cur.segs
  {
    var a := s.cur.active;
    s.(cur := Write(s.cur, r), last := r.tstamp, hist := s.hist + [r],
       survivors := s.survivors
         + (set v | v in s.survivors && v.active in v.segs && v.count == |s.hist| :: Write(v, r)),
       files := s.files[a := s.cur.segs[a] + [r]], solid := s.solid - {a})
  }

  ghost function DropPass(s: Sys): Sys
    requires s.pass.Some?
  {
    RemoveFile(s, s.pass.value.mid).(pass := None)
  }

  /** What Open finds: a view, and the order in which it scans it. */
  ghost predicate Finds(s: Sys, v: View, scan: seq<nat>) {
    v.active in v.segs && Lists(scan, v.segs.Keys) && v.count <= |s.hist|
  }

  /** Open after the crash: the keydir is what recovery rebuilds, the plain map what is read through it; a full active
      segment is replaced. The history goes on from the writes that survived and from what recovery has made of
      them. */
  ghost function Opened(s: Sys, v: View, scan: seq<nat>, freshID: nat): Sys
    requires Finds(s, v, scan)
  {
    var last := SegsClock(0, scan, v.segs);
    var kd := Reopened(scan, v.segs);
    var store := Contents(v.segs, kd);
    var hist := s.hist[..v.count] + Repair(Replay(s.hist[..v.count]), store);
    var w := v.(kd := kd, store := store, count := |hist|, seal := if v.seal < last then v.seal else last);
    var room := LogSize(v.segs[v.active]) < s.maxSize;
    var u := if room then w else Rotate(w, freshID, last);
    Sys(u, last, if room then freshID else freshID + 1, hist, |hist|, u.gen, {u},
        u.segs, u.segs.Keys, u.segs.Keys, false, Idle, None, None, s.mergedIds * v.segs.Keys, s.maxSize, {}, {})
  }

  /** Open after the process has ended and the host has not: the engine comes up as after a crash that has lost nothing,
      but nothing has become durable by it. Files the manifest does not name are swept away; where the active segment
      has room, no manifest is written and no directory synced, so an older manifest may still come back; where it is
      full, it is sealed as it is, synced or not, and the manifest that names a new one is. */
  ghost function Resumed(s: Sys, v: View, scan: seq<nat>, freshID: nat): Sys
    requires Finds(s, v, scan)
  {
    var t := Opened(s, v, scan, freshID);
    var kept := map i | i in s.files && i in v.segs :: s.files[i];
    if LogSize(v.segs[v.active]) < s.maxSize then
      t.(durable := s.durable, files := kept, dirents := s.dirents * kept.Keys, solid := s.solid * kept.Keys,
         survivors := {t.cur}
           + (set u | u in s.survivors && u.gen == s.gen && u.count < |s.hist| :: u.(seal := t.cur.seal)),
         stale := s.stale + (set u | u in s.survivors && u.gen != s.gen), shaky := s.shaky * kept.Keys)
    else
      t.(durable := s.durable, files := kept[freshID := []], dirents := kept.Keys + {freshID},
         solid := s.solid * kept.Keys + {freshID},
         shaky := s.shaky * kept.Keys + if v.active in s.solid then {} else {v.active})
  }

  ghost function Next(s: Sys, l: Label): Sys
    requires Enabled(s, l) && forall v :: v in s.survivors ==> v.count <= |s.hist|
  {
    match l
    case WriteRecord(r) => Append1(s, r)
    case SyncActive => SyncFile(s)
    case BeginRotation =>
      SyncFile(s).(nextID := s.nextID + 1, files := s.files[s.nextID := []],
                   solid := s.solid + {s.cur.active, s.nextID}, phase := Rotating(s.nextID, false))
    case SyncDirForRotation => SyncDir(s).(phase := Rotating(s.phase.next, true))
    case FailRotation => RemoveFile(s, s.phase.next).(phase := Idle)
    case RenameForRotation =>
      s.(survivors := s.survivors + (set v | v in s.survivors && v.gen == s.gen :: Rotate(v, s.phase.next, s.last)),
         gen := s.gen + 1, phase := RotationRenamed(s.phase.next))
    case FinishRotation => SyncDir(s).(cur := Rotate(s.cur, s.phase.next, s.last), phase := Idle)
    case AbandonRotation => s.(disabled := true, phase := Idle)
    case Snapshot(order) => s.(picked := Some(Start(s.cur, order, s.nextID)))
    case TakeId =>
      s.(picked := None, pass := Some(s.picked.value.(mid := s.nextID)), nextID := s.nextID + 1,
         files := s.files[s.nextID := []], mergedIds := s.mergedIds + {s.nextID})
    case Scan =>
      var c := ScanOne(s.cur.kd, s.pass.value).(seen := s.cur.count);
      s.(pass := Some(c), files := s.files[c.mid := c.merged])
    case SyncMerged =>
      var c := s.pass.value;
      var t := if c.rewrites == [] then RemoveFile(s, c.mid) else s.(solid := s.solid + {c.mid});
      t.(pass := Some(c.(ready := true)))
    case AbortPass => DropPass(s)
    case BeginCommit => s.(phase := Committing(s.pass.value.rewrites == []))
    case SyncDirForCommit => SyncDir(s).(phase := Committing(true))
    case FailCommit => DropPass(s).(phase := Idle)
    case RenameForCommit =>
      s.(survivors := s.survivors + (set v | v in s.survivors && v.gen == s.gen :: Commit(v, s.pass.value)),
         gen := s.gen + 1, phase := CommitRenamed)
    case FinishCommit =>
      SyncDir(s).(cur := Commit(s.cur, s.pass.value), pass := None, phase := Retiring(s.pass.value.cands))
    case FinishCommitUncertain => s.(cur := Commit(s.cur, s.pass.value), pass := None, phase := Idle)
    case Unlink(id) =>
      RemoveFile(s, id).(phase := if s.phase.left == {id} then Idle else Retiring(s.phase.left - {id}))
    case CrashAndOpen(v, scan, freshID) => Opened(s, v, scan, freshID)
    case ExitAndOpen(v, scan, freshID) => Resumed(s, v, scan, freshID)
  }

  /** A directory that Open has just set up. */
  ghost function Init(maxSize: nat): Sys {
    var v := View(0, map[0 := []], 0, 0, map[], map[], 0);
    Sys(v, 0, 1, [], 0, 0, {v}, map[0 := []], {0}, {0}, false, Idle, None, None, {}, maxSize, {}, {})
  }

  // ---------------------------------------------------------------- the history

  /** The key operations a record holds. */
  ghost function RecordOps(r: Record): seq<Op> {
    if r.flag == FLAG_PUT then [Put(r.key, r.value)]
    else if r.flag == FLAG_TOMBSTONE then [Delete(r.key)]
    else if DecodeBody(r.value).Some? then DecodeBody(r.value).value
    else []
  }

  function ApplyOps(store: Store, ops: seq<Op>): Store {
    if ops == [] then store else Apply(ApplyOps(store, ops[..|ops| - 1]), ops[|ops| - 1])
  }

  /** The plain map after all the writes of a history. */
  ghost function Replay(hist: Log): Store {
    if hist == [] then map[] else ApplyOps(Replay(hist[..|hist| - 1]), RecordOps(hist[|hist| - 1]))
  }

  lemma {:induction false} ApplyAllIsApplyOps(store: Store, items: seq<Item>, ops: seq<Op>)
    requires |items| == |ops| && forall i :: 0 <= i < |ops| ==> items[i].op == ops[i]
    ensures ApplyAll(store, items) == ApplyOps(store, ops)
  {
    if ops != [] {
      var n := |ops| - 1;
      ApplyAllIsApplyOps(store, items[..n], ops[..n]);
    }
  }

  /** Writing a record is replaying its operations. */
  lemma WriteReplays(v: View, r: Record, hist: Log)
    requires v.active in v.segs && v.store == Replay(hist)
    ensures Write(v, r).store == Replay(hist + [r])
  {
    assert (hist + [r])[..|hist + [r]| - 1] == hist;
    ApplyAllIsApplyOps(v.store, RecordItems(r, LogSize(v.segs[v.active])), RecordOps(r));
  }

  lemma ReplayMore(hist: Log, r: Record)
    ensures Replay(hist + [r]) == ApplyOps(Replay(hist), RecordOps(r))
  {
    assert (hist + [r])[..|hist + [r]| - 1] == hist;
  }

  // ---------------------------------------------------------------- what recovery changes

  /** The keys two plain maps do not agree on. */
  ghost function Differ(a: Store, b: Store): set<Key> {
    set k | k in a.Keys + b.Keys && !(k in a && k in b && a[k] == b[k])
  }

  /** What turns one plain map into another, as puts and deletes: nothing when they are the same. */
  ghost function Repair(a: Store, b: Store): (log: Log)
    ensures a == b ==> log == []
    decreases Differ(a, b)
  {
    if Differ(a, b) == {} then []
    else
      var k :| k in Differ(a, b);
      var op := if k in b then Put(k, b[k]) else Delete(k);
      assert Differ(Apply(a, op), b) == Differ(a, b) - {k};
      [if k in b then PutRecord(0, k, b[k]) else TombstoneRecord(0, k)] + Repair(Apply(a, op), b)
  }

  lemma RepairStep(a: Store, b: Store)
    requires Differ(a, b) != {}
    ensures var log := Repair(a, b); log != [] && (log[0].flag == FLAG_PUT || log[0].flag == FLAG_TOMBSTONE)
    ensures var log := Repair(a, b); var c := Applied(a, log[0]);
      log[1..] == Repair(c, b) && Differ(c, b) < Differ(a, b)
  {
    var k :| k in Differ(a, b) && Repair(a, b) ==
      (var op := if k in b then Put(k, b[k]) else Delete(k);
       [if k in b then PutRecord(0, k, b[k]) else TombstoneRecord(0, k)] + Repair(Apply(a, op), b));
    var op := if k in b then Put(k, b[k]) else Delete(k);
    assert Differ(Apply(a, op), b) == Differ(a, b) - {k};
  }

  function Applied(a: Store, r: Record): Store {
    Apply(a, if r.flag == FLAG_PUT then Put(r.key, r.value) else Delete(r.key))
  }

  lemma {:induction false} RepairReplays(hist: Log, b: Store)
    ensures Replay(hist + Repair(Replay(hist), b)) == b
    decreases Differ(Replay(hist), b)
  {
    hide Replay, Differ, RecordOps, ApplyOps;
    var a := Replay(hist);
    if Differ(a, b) == {} {
      assert hist + [] == hist;
      NoDifference(a, b);
    } else {
      hide Repair;
      var log := Repair(a, b);
      RepairStep(a, b);
      var r := log[0];
      ReplayMore(hist, r);
      OneOp(a, r);
      assert hist + log == (hist + [r]) + log[1..];
      RepairReplays(hist + [r], b);
    }
  }

  lemma NoDifference(a: Store, b: Store)
    requires Differ(a, b) == {}
    ensures a == b
  {
    forall k | k in a.Keys + b.Keys ensures k in a && k in b && a[k] == b[k] {
      assert k !in Differ(a, b);
    }
    assert a.Keys == b.Keys;
  }

  lemma OneOp(a: Store, r: Record)
    requires r.flag == FLAG_PUT || r.flag == FLAG_TOMBSTONE
    ensures ApplyOps(a, RecordOps(r)) == Applied(a, r)
  {
    var ops := RecordOps(r);
    assert ops[..0] == [];
    assert ApplyOps(a, ops) == Apply(ApplyOps(a, ops[..0]), ops[0]);
  }
}
