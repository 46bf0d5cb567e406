/** The writer goroutine of engine.go. What the operating system answers is a parameter; whatever it answers, each
    method takes the engine along a run of the machine. */
module Writer {
  import opened Bytes
  import opened Wrappers
  import opened Record
  import opened Log
  import opened RecordCodec
  import opened Keydirs
  import opened KeydirIndex
  import opened View
  import opened Compaction
  import opened Engine
  import opened Refinement
  import opened Db
  import Manifest

  /** The outcomes of a manifest publish: durable, not renamed, or renamed without a confirmed directory sync. */
  datatype Publish = Published | Failed | Uncertain

  datatype RotateEnv = RotateEnv(syncOk: bool, createOk: bool, dirSyncOk: bool, publish: Publish)

  datatype WriteError = WritesDisabled | RotateFailed | EncodeFailed | CommitFailed | FsyncFailed

  // ---------------------------------------------------------------- the writer's runs

  predicate WriterLabel(l: Label) {
    !l.Snapshot? && !l.Scan? && !l.SyncMerged? && !l.AbortPass? && !Reopens(l)
  }

  ghost predicate WriterLabels(labels: seq<Label>) {
    forall i :: 0 <= i < |labels| ==> WriterLabel(labels[i])
  }

  /** labels are steps of the writer that take s to t. */
  ghost predicate Drives(s: Sys, labels: seq<Label>, t: Sys) {
    Leads(s, labels, t) && WriterLabels(labels)
  }

  lemma DrivesSelf(s: Sys)
    requires MemInv(s)
    ensures Drives(s, [], s)
  {
    hide MemInv, Leads;
    LeadsSelf(s);
  }

  lemma Drive(s: Sys, labels: seq<Label>, t: Sys, l: Label)
    requires Drives(s, labels, t) && Enabled(t, l) && WriterLabel(l)
    ensures MemInv(t) && (forall v :: v in t.survivors ==> v.count <= |t.hist|)
    ensures Drives(s, labels + [l], Next(t, l)) && MemInv(Next(t, l))
  {
    hide MemInv, Leads, Enabled, Next;
    Extend(s, labels, t, l);
  }

  lemma DrivesOn(s: Sys, a: seq<Label>, t: Sys, b: seq<Label>, u: Sys)
    requires Drives(s, a, t) && Drives(t, b, u)
    ensures Drives(s, a + b, u)
  {
    hide MemInv, Run;
    RunConcat(s, a, b);
  }

  /** What the disk has answered to a rotation allows the step: nothing counts as synced, created or published that was
      not. */
  predicate RotationAllows(l: Label, env: RotateEnv) {
    match l
    case BeginRotation => env.syncOk
    case FailRotation => env.syncOk
    case SyncDirForRotation => env.syncOk && env.createOk && env.dirSyncOk
    case RenameForRotation => env.syncOk && env.createOk && env.dirSyncOk && !env.publish.Failed?
    case FinishRotation => env.syncOk && env.createOk && env.dirSyncOk && env.publish.Published?
    case AbandonRotation => env.syncOk && env.createOk && env.dirSyncOk && env.publish.Uncertain?
    case WriteRecord(_) => true
    case _ => false
  }

  ghost predicate AllowedBy(labels: seq<Label>, env: RotateEnv) {
    forall l :: l in labels ==> RotationAllows(l, env)
  }

  // ---------------------------------------------------------------- rotation

  /** The ids that a manifest is written for: those of the segment table that are not dropped, and more. */
  method LiveIds(db: DB, drop: set<nat>, more: seq<nat>) returns (live: seq<nat>)
    ensures forall id :: id in live <==> (id in db.segments && id !in drop) || id in more
  {
    live := [];
    var ids := db.segments.Keys;
    while ids != {}
      invariant ids <= db.segments.Keys
      invariant forall id :: id in live <==> id in db.segments && id !in ids && id !in drop
      decreases |ids|
    {
      var id :| id in ids;
      ids := ids - {id};
      if id !in drop {
        live := live + [id];
      }
    }
    live := live + more;
  }

  /** rotateActive: sync, create, sync the directory, publish the manifest, and only then install the new segment. The
      steps taken are those that each outcome allows, and the manifest is that of the view with the new segment. */
  method RotateActive(db: DB, env: RotateEnv)
    returns (err: Option<WriteError>, written: Option<Manifest.Manifest>, ghost labels: seq<Label>)
    requires db.Valid() && db.sys.phase.Idle? && !db.writesDisabled
    modifies db`segments, db`active, db`nextID, db`writesDisabled, db`sys
    ensures db.Valid() && db.sys.phase.Idle? && Drives(old(db.sys), labels, db.sys)
    ensures db.sys.hist == old(db.sys.hist) && db.sys.pass == old(db.sys.pass) && db.sys.last == old(db.sys.last)
    ensures old(db.sys.durable) <= db.sys.durable <= |db.sys.hist|
    ensures !env.syncOk ==> err == Some(RotateFailed) && labels == [] && db.sys == old(db.sys)
    ensures env.syncOk && !(env.createOk && env.dirSyncOk) ==>
      err == Some(RotateFailed) && labels == [BeginRotation, FailRotation]
    ensures env.syncOk && env.createOk && env.dirSyncOk ==>
      match env.publish
      case Failed => err == Some(RotateFailed) && labels == [BeginRotation, SyncDirForRotation, FailRotation]
      case Uncertain =>
        err == Some(WritesDisabled)
        && labels == [BeginRotation, SyncDirForRotation, RenameForRotation, AbandonRotation]
      case Published =>
        err == None && labels == [BeginRotation, SyncDirForRotation, RenameForRotation, FinishRotation]
    ensures err.None? ==> !db.writesDisabled && Emptied(db.sys, db.active) && db.sys.durable == |db.sys.hist|
    ensures db.writesDisabled <==> err == Some(WritesDisabled)
    ensures db.active == if err.None? then old(db.nextID) else old(db.active)
    ensures written.Some? <==> env.syncOk && env.createOk && env.dirSyncOk
    ensures written.Some? ==>
      Manifest.ManifestOf(Rotate(old(db.sys.cur), old(db.nextID), old(db.sys.last)), written.value)
  {
    hide Mirror, MemInv, Run, Session, Next, Drives, Enabled, Emptied, FieldsAfterRotation;
    labels := [];
    DrivesSelf(db.sys);
    DurableBound(db.sys);
    if !env.syncOk {
      return Some(RotateFailed), None, labels;
    }
    var next := db.nextID;
    labels := TakeBegin(db);
    if !env.createOk || !env.dirSyncOk {
      labels := TakeRotation(db, old(db.sys), labels, FailRotation);
      return Some(RotateFailed), None, labels;
    }
    labels := TakeRotation(db, old(db.sys), labels, SyncDirForRotation);
    var live := LiveIds(db, {}, [next]);
    written := Manifest.WriteManifest(live, next);
    RotationManifest(old(db.Values()), old(db.sys), next, live, written.value);
    if env.publish.Failed? {
      labels := TakeRotation(db, old(db.sys), labels, FailRotation);
      return Some(RotateFailed), written, labels;
    }
    labels := TakeRotation(db, old(db.sys), labels, RenameForRotation);
    if env.publish.Uncertain? {
      labels := TakeAbandon(db, old(db.sys), labels);
      return Some(WritesDisabled), written, labels;
    }
    labels := TakeFinish(db, old(db.sys), labels, next);
    return None, written, labels;
  }

  lemma RotationManifest(f: Fields, s: Sys, next: nat, live: seq<nat>, m: Manifest.Manifest)
    requires Mirror(f, s) && Manifest.WellFormed(m) && m.active == Some(next)
    requires forall id :: id in live <==> id in f.segments || id == next
    requires forall id :: id in m.segments <==> id in live
    ensures Manifest.ManifestOf(Rotate(s.cur, next, s.last), m)
  {
    hide Manifest.WellFormed;
    assert f.segments.Keys == s.cur.segs.Keys;
  }

  /** The active segment has been synced; an id is used up whatever comes of it. */
  method TakeBegin(db: DB) returns (ghost labels: seq<Label>)
    requires db.Valid() && db.sys.phase.Idle? && !db.writesDisabled
    modifies db`nextID, db`sys
    ensures db.Valid() && Drives(old(db.sys), labels, db.sys) && SameRun(old(db.sys), db.sys)
    ensures db.sys.phase == Rotating(old(db.nextID), false) && db.sys.durable == |db.sys.hist|
    ensures labels == [BeginRotation]
  {
    hide MemInv, Run, Session, Next, Drives, Enabled;
    DrivesSelf(db.sys);
    labels := TakeRotationStep(db, db.sys, [], BeginRotation);
    db.nextID := db.nextID + 1;
  }

  /** The rename may not outlive a crash: nothing is written from here on. */
  method TakeAbandon(db: DB, ghost s0: Sys, ghost labels0: seq<Label>) returns (ghost labels: seq<Label>)
    requires db.Valid() && Drives(s0, labels0, db.sys) && db.sys.phase.RotationRenamed?
    modifies db`writesDisabled, db`sys
    ensures db.Valid() && Drives(s0, labels, db.sys) && SameRun(old(db.sys), db.sys)
    ensures db.sys.phase.Idle? && db.sys.durable == old(db.sys.durable) && db.writesDisabled
    ensures labels == labels0 + [AbandonRotation]
  {
    hide Mirror, MemInv, Run, Session, Next, Drives, Enabled;
    labels := TakeRotationStep(db, s0, labels0, AbandonRotation);
    db.writesDisabled := true;
  }

  /** The new segment takes over. */
  method TakeFinish(db: DB, ghost s0: Sys, ghost labels0: seq<Label>, next: nat) returns (ghost labels: seq<Label>)
    requires db.Valid() && Drives(s0, labels0, db.sys) && db.sys.phase == RotationRenamed(next)
    modifies db`segments, db`active, db`sys
    ensures db.Valid() && Drives(s0, labels, db.sys) && SameRun(old(db.sys), db.sys)
    ensures db.sys.phase.Idle? && db.sys.durable == old(db.sys.durable) && Emptied(db.sys, db.active)
    ensures db.active == next && labels == labels0 + [FinishRotation]
  {
    hide MemInv, Run, Session, Next, Drives, Enabled, Emptied;
    labels := TakeRotationStep(db, s0, labels0, FinishRotation);
    db.segments := db.segments[next := []];
    db.active := next;
  }

  /** Nothing a writer or a compactor looks at has changed. */
  ghost predicate SameRun(s: Sys, t: Sys) {
    && t.hist == s.hist && t.pass == s.pass && t.last == s.last && t.cur.count == s.cur.count
    && s.durable <= t.durable
  }

  /** l is a step of a rotation, and it is its turn. */
  ghost predicate RotationReady(s: Sys, l: Label) {
    match l
    case BeginRotation => s.phase.Idle? && !s.disabled
    case SyncDirForRotation => s.phase.Rotating? && !s.phase.dirSynced
    case FailRotation => s.phase.Rotating?
    case RenameForRotation => s.phase.Rotating? && s.phase.dirSynced
    case FinishRotation => s.phase.RotationRenamed?
    case AbandonRotation => s.phase.RotationRenamed?
    case _ => false
  }

  ghost predicate Emptied(s: Sys, id: nat) {
    id in s.cur.segs && s.cur.segs[id] == []
  }

  ghost function PhaseAfter(s: Sys, l: Label): Phase
    requires RotationReady(s, l)
  {
    match l
    case BeginRotation => Rotating(s.nextID, false)
    case SyncDirForRotation => Rotating(s.phase.next, true)
    case RenameForRotation => RotationRenamed(s.phase.next)
    case _ => Idle
  }

  ghost function FieldsAfterRotation(f: Fields, s: Sys, l: Label): Fields
    requires RotationReady(s, l)
  {
    match l
    case BeginRotation => f.(nextID := f.nextID + 1)
    case AbandonRotation => f.(writesDisabled := true)
    case FinishRotation => f.(segments := f.segments[s.phase.next := []], active := s.phase.next)
    case _ => f
  }

  lemma RotationStep(f: Fields, s: Sys, l: Label)
    requires Mirror(f, s) && MemInv(s) && RotationReady(s, l)
    ensures Counted(s) && Enabled(s, l)
    ensures var t := Next(s, l);
      && SameRun(s, t) && t.durable == (if l.BeginRotation? then |t.hist| else s.durable)
      && Mirror(FieldsAfterRotation(f, s, l), t) && t.phase == PhaseAfter(s, l)
      && (l.FinishRotation? ==> s.phase.RotationRenamed? && Emptied(t, s.phase.next))
  {
    hide Next, Enabled, MemInv, Mirror, SameRun, FieldsAfterRotation, PhaseAfter;
    if l.FinishRotation? {
      RotationEnds(f, s);
    } else {
      RotationMoves(f, s, l);
    }
  }

  lemma RotationMoves(f: Fields, s: Sys, l: Label)
    requires Mirror(f, s) && MemInv(s) && RotationReady(s, l) && !l.FinishRotation?
    ensures Counted(s) && Enabled(s, l)
    ensures var t := Next(s, l);
      && SameRun(s, t) && t.durable == (if l.BeginRotation? then |t.hist| else s.durable)
      && Mirror(FieldsAfterRotation(f, s, l), t) && t.phase == PhaseAfter(s, l)
  {
    hide Sound, PassOk, PickOk, PhaseOk, Print, LogSize, ValidLog, Replay, Rotate;
  }

  lemma RotationEnds(f: Fields, s: Sys)
    requires Mirror(f, s) && MemInv(s) && RotationReady(s, FinishRotation)
    ensures Counted(s) && Enabled(s, FinishRotation)
    ensures var t := Next(s, FinishRotation);
      && SameRun(s, t) && t.durable == s.durable && Mirror(FieldsAfterRotation(f, s, FinishRotation), t)
      && t.phase == PhaseAfter(s, FinishRotation) && s.phase.RotationRenamed? && Emptied(t, s.phase.next)
  {
    hide MemInv, Print, LogSize, ValidLog, Replay, Located, Timed;
    assert Counted(s) by { MemCounts(s); }
    var t := Next(s, FinishRotation);
    assert t.cur == Rotate(s.cur, s.phase.next, s.last);
    assert Print([]) == [] && ValidLog([]) by { PrintEmpty(); }
  }

  lemma MemCounts(s: Sys)
    requires MemInv(s)
    ensures Counted(s)
  {
    hide Sound, PassOk, PickOk, PhaseOk, Replay;
  }

  /** One step of a rotation. */
  ghost method TakeRotationStep(db: DB, s0: Sys, labels0: seq<Label>, l: Label) returns (labels: seq<Label>)
    requires db.Valid() && Drives(s0, labels0, db.sys) && RotationReady(db.sys, l)
    modifies db`sys
    ensures SameRun(old(db.sys), db.sys) && Drives(s0, labels, db.sys) && MemInv(db.sys) && labels == labels0 + [l]
    ensures db.sys.durable == if l.BeginRotation? then |db.sys.hist| else old(db.sys.durable)
    ensures db.sys.phase == PhaseAfter(old(db.sys), l)
    ensures Mirror(FieldsAfterRotation(old(db.Values()), old(db.sys), l), db.sys)
    ensures l.FinishRotation? ==> old(db.sys.phase).RotationRenamed? && Emptied(db.sys, old(db.sys.phase).next)
  {
    hide Mirror, MemInv, Run, Session, Next, Drives, Enabled;
    RotationStep(db.Values(), db.sys, l);
    Drive(s0, labels0, db.sys, l);
    db.sys, labels := Next(db.sys, l), labels0 + [l];
  }

  /** A step that the fields do not show. */
  ghost method TakeRotation(db: DB, s0: Sys, labels0: seq<Label>, l: Label) returns (labels: seq<Label>)
    requires db.Valid() && Drives(s0, labels0, db.sys) && RotationReady(db.sys, l)
    requires l.SyncDirForRotation? || l.FailRotation? || l.RenameForRotation?
    modifies db`sys
    ensures SameRun(old(db.sys), db.sys) && Drives(s0, labels, db.sys) && db.Valid() && labels == labels0 + [l]
    ensures db.sys.durable == old(db.sys.durable) && db.sys.phase == PhaseAfter(old(db.sys), l)
  {
    hide Mirror, MemInv, Run, Session, Next, Drives, Enabled;
    labels := TakeRotationStep(db, s0, labels0, l);
  }

  lemma DurableBound(s: Sys)
    requires MemInv(s)
    ensures s.durable <= |s.hist|
  {
  }

  lemma PrintEmpty()
    ensures ValidLog([]) && Print([]) == [] && LogSize([]) == 0
  {
  }

  // ---------------------------------------------------------------- one request

  /** The payload of a compaction commit; the merged segment is there unless nothing was copied. */
  datatype CompactCommit =
    CompactCommit(newSeg: Option<seq<byte>>, newID: nat, rewrites: seq<Rewrite>, oldSegs: set<nat>)

  datatype Request =
    | PutReq(key: Key, value: Value)
    | DeleteReq(key: Key)
    | BatchReq(ops: seq<Op>)
    | CommitReq(commit: CompactCommit)

  datatype CommitEnv = CommitEnv(dirSyncOk: bool, publish: Publish)

  /** The clock reading, and the answers of the disk, one request meets. */
  datatype Env = Env(now: int, rotate: RotateEnv, commit: CommitEnv)

  /** What the callers have checked before they submit. */
  ghost predicate Acceptable(req: Request) {
    match req
    case PutReq(k, v) => ValidKey(k) && |v| <= MAX_VAL_LEN
    case DeleteReq(k) => ValidKey(k)
    case BatchReq(ops) => ops != [] && ValidRecord(BatchRecord(0, ops)) && DecodeBody(BatchBody(ops)) == Some(ops)
    case CommitReq(_) => true
  }

  ghost function RecordOf(req: Request, t: int): Record
    requires !req.CommitReq?
  {
    match req
    case PutReq(k, v) => PutRecord(t, k, v)
    case DeleteReq(k) => TombstoneRecord(t, k)
    case BatchReq(ops) => BatchRecord(t, ops)
  }

  /** The commit is that of the pass the compactor has finished. */
  ghost predicate CommitOk(s: Sys, cc: CompactCommit) {
    && s.pass.Some? && s.pass.value.ready
    && cc.rewrites == s.pass.value.rewrites && cc.oldSegs == s.pass.value.cands && cc.newID == s.pass.value.mid
    && (cc.newSeg.None? <==> cc.rewrites == [])
    && (cc.newSeg.Some? ==> ValidLog(s.pass.value.merged) && cc.newSeg.value == Print(s.pass.value.merged))
  }

  /** The clock's reading, or, where it has not moved on, the first timestamp later than every one before it. */
  function Tick(last: int, now: int): (t: int)
    ensures last < t && now <= t
    ensures now > last ==> t == now
    ensures now <= last ==> t == last + 1
  {
    if now <= last then last + 1 else now
  }

  lemma WritePicture(s: Sys, r: Record)
    requires MemInv(s) && Enabled(s, WriteRecord(r))
    ensures ValidLog(s.cur.segs[s.cur.active])
    ensures var log := s.cur.segs[s.cur.active]; var t := Next(s, WriteRecord(r));
      && t.cur.segs == s.cur.segs[s.cur.active := log + [r]] && t.cur.active == s.cur.active
      && t.cur.kd == PublishAll(s.cur.kd, s.cur.active, RecordItems(r, LogSize(log)))
      && ValidLog(log + [r]) && Print(log + [r]) == Print(log) + RecordBytes(r) && |Print(log)| == LogSize(log)
  {
    hide RecordItems, LogItems, PublishAll, ApplyAll, Located, Timed, PassOk, ValidRecord, RecordBytes;
    Append(s.cur.segs[s.cur.active], r);
  }

  lemma WriteFrame(s: Sys, r: Record)
    requires MemInv(s) && Enabled(s, WriteRecord(r))
    ensures var t := Next(s, WriteRecord(r));
      && t.nextID == s.nextID && t.disabled == s.disabled && t.phase == s.phase && t.pass == s.pass
      && t.maxSize == s.maxSize && t.last == r.tstamp && t.hist == s.hist + [r] && t.durable == s.durable
  {
    hide MemInv, RecordItems, PublishAll, ApplyAll, ValidRecord;
  }

  /** The fields after one more record. */
  ghost function FieldsAfterWrite(f: Fields, r: Record): Fields
    requires f.active in f.segments && IsInt64(r.tstamp)
  {
    var b := f.segments[f.active];
    f.(segments := f.segments[f.active := b + RecordBytes(r)],
       index := PublishAll(f.index, f.active, RecordItems(r, |b|)))
  }

  lemma MirrorWrite(f: Fields, s: Sys, r: Record)
    requires Mirror(f, s) && MemInv(s) && Enabled(s, WriteRecord(r)) && r.tstamp <= f.lastTstamp
    ensures f.active in f.segments && IsInt64(r.tstamp)
    ensures Mirror(FieldsAfterWrite(f, r), Next(s, WriteRecord(r)))
  {
    hide MemInv, Enabled, Next, RecordItems, LogItems, PublishAll, ValidRecord, RecordBytes;
    assert ValidRecord(r) by { EnabledValid(s, r); }
    RecordIsInt64(r);
    MemActive(s);
    WritePicture(s, r);
    WriteFrame(s, r);
  }

  lemma EnabledValid(s: Sys, r: Record)
    requires Enabled(s, WriteRecord(r))
    ensures ValidRecord(r)
  {
  }

  /** encBuf grown to hold n bytes. */
  method GrowEncBuf(db: DB, n: nat)
    modifies db`encBuf
    ensures n <= db.encBuf.Length && (db.encBuf == old(db.encBuf) || fresh(db.encBuf))
  {
    if db.encBuf.Length < n {
      db.encBuf := new byte[n];
    }
  }

  /** What a rotation that is needed tells its caller. */
  function RotationError(env: RotateEnv): (err: Option<WriteError>)
    ensures err == None <==> env == RotateEnv(true, true, true, Published)
    ensures err == Some(WritesDisabled) <==> env == RotateEnv(true, true, true, Uncertain)
    ensures err == None || err == Some(WritesDisabled) || err == Some(RotateFailed)
  {
    if !env.syncOk || !env.createOk || !env.dirSyncOk || env.publish.Failed? then Some(RotateFailed)
    else if env.publish.Uncertain? then Some(WritesDisabled)
    else None
  }

  /** The part of handleOne behind the clock: rotate if the record would cross the threshold, encode, append, and
      publish in the keydir. */
  method WriteOne(db: DB, req: Request, t: int, env: RotateEnv)
    returns (err: Option<WriteError>, ghost labels: seq<Label>)
    requires db.Valid() && db.sys.phase.Idle? && !db.writesDisabled
    requires (req.PutReq? || req.DeleteReq?) && Acceptable(req) && IsInt64(t) && db.sys.last < t <= db.lastTstamp
    modifies db`segments, db`active, db`nextID, db`writesDisabled, db`sys, db`encBuf, db.encBuf, db.keydir
    ensures db.Valid() && db.sys.phase.Idle? && Drives(old(db.sys), labels, db.sys) && AllowedBy(labels, env)
    ensures db.sys.pass == old(db.sys.pass) && old(db.sys.durable) <= db.sys.durable <= |db.sys.hist|
    ensures db.sys.hist == old(db.sys.hist) + if err.None? then [RecordOf(req, t)] else []
    ensures Replay(db.sys.hist) ==
      if err.Some? then old(Replay(db.sys.hist))
      else if req.PutReq? then old(Replay(db.sys.hist))[req.key := req.value]
      else old(Replay(db.sys.hist)) - {req.key}
    ensures db.encBuf == old(db.encBuf) || fresh(db.encBuf)
    ensures (err == Some(WritesDisabled) <==> db.writesDisabled) && err != Some(FsyncFailed)
    ensures old(db.active in db.segments)
    ensures var size := 21 + |req.key| + if req.PutReq? then |req.value| else 0;
      if |old(db.segments)[old(db.active)]| + size <= db.maxSegmentSize then err == None && db.active == old(db.active)
      else err == RotationError(env) && db.active == if err.None? then old(db.nextID) else old(db.active)
  {
    hide Mirror, MemInv, Run, Session, ValidRecord, Next, Enabled, Emptied, AllowedBy, Replay;
    var r := if req.PutReq? then PutRecord(t, req.key, req.value) else TombstoneRecord(t, req.key);
    AcceptableIsValid(req, t);
    var size := RecordSize(r);
    ActiveSize(db);
    ghost var more;
    err, labels := MakeRoom(db, |db.segments[db.active]| + size > db.maxSegmentSize, size, env);
    if err.None? {
      ghost var s1 := db.sys;
      err, more := AppendOne(db, r);
      DrivesOn(old(db.sys), labels, s1, more, db.sys);
      OneMoreAllowed(labels, r, env);
      SingleReplays(old(db.sys.hist), r);
      labels := labels + more;
    }
  }

  /** A write needs no more from the disk than what came before it. */
  lemma OneMoreAllowed(labels: seq<Label>, r: Record, env: RotateEnv)
    requires AllowedBy(labels, env)
    ensures AllowedBy(labels + [WriteRecord(r)], env)
  {
  }

  /** What a put or a delete does to the plain map. */
  lemma SingleReplays(hist: Log, r: Record)
    requires r.flag == FLAG_PUT || r.flag == FLAG_TOMBSTONE
    ensures Replay(hist + [r]) == if r.flag == FLAG_PUT then Replay(hist)[r.key := r.value] else Replay(hist) - {r.key}
  {
    hide Replay, RecordOps;
    ReplayMore(hist, r);
    OneOp(Replay(hist), r);
  }

  /** The rotation in front of an append, where one is needed. */
  method MakeRoom(db: DB, full: bool, ghost size: nat, env: RotateEnv)
    returns (err: Option<WriteError>, ghost labels: seq<Label>)
    requires db.Valid() && db.sys.phase.Idle? && !db.writesDisabled
    requires db.active in db.segments
    requires !full ==> |db.segments[db.active]| + size <= db.maxSegmentSize || db.segments[db.active] == []
    modifies db`segments, db`active, db`nextID, db`writesDisabled, db`sys
    ensures db.Valid() && db.sys.phase.Idle? && Drives(old(db.sys), labels, db.sys) && AllowedBy(labels, env)
    ensures db.sys.hist == old(db.sys.hist) == old(db.sys.hist) + [] && db.sys.pass == old(db.sys.pass)
    ensures db.sys.last == old(db.sys.last) && old(db.sys.durable) <= db.sys.durable <= |db.sys.hist|
    ensures err == if full then RotationError(env) else None
    ensures (err == Some(WritesDisabled) <==> db.writesDisabled) && err != Some(FsyncFailed)
    ensures db.active == if full && err.None? then old(db.nextID) else old(db.active)
    ensures err.None? ==> RoomFor(db, size)
  {
    hide Mirror, MemInv, Run, Session, Next, Enabled;
    assert db.sys.hist + [] == db.sys.hist;
    DurableBound(db.sys);
    ActiveSize(db);
    if full {
      var written;
      err, written, labels := RotateActive(db, env);
    } else {
      DrivesSelf(db.sys);
      err, labels := None, [];
      EmptyOrNot(db.sys.cur.segs[db.active]);
    }
    ActiveSize(db);
  }

  /** What an append asks for. */
  ghost predicate RoomFor(db: DB, size: nat)
    reads db
  {
    && db.active in db.sys.cur.segs && db.active in db.segments
    && (db.sys.cur.segs[db.active] == [] || |db.segments[db.active]| + size <= db.maxSegmentSize)
  }

  /** Encode, append, flush, publish: one PUT or TOMBSTONE record, once there is room for it. */
  method AppendOne(db: DB, r: Record) returns (err: Option<WriteError>, ghost labels: seq<Label>)
    requires db.Valid() && db.sys.phase.Idle? && !db.writesDisabled
    requires ValidRecord(r) && r == (if r.flag == FLAG_PUT then PutRecord(r.tstamp, r.key, r.value)
                                     else TombstoneRecord(r.tstamp, r.key))
    requires db.sys.last < r.tstamp <= db.lastTstamp && RoomFor(db, RecordSize(r))
    modifies db`segments, db`sys, db`encBuf, db.encBuf, db.keydir
    ensures db.Valid() && db.sys.phase.Idle? && Drives(old(db.sys), labels, db.sys) && !db.writesDisabled
    ensures db.sys.pass == old(db.sys.pass) && db.sys.durable == old(db.sys.durable)
    ensures err.None? && db.sys.hist == old(db.sys.hist) + [r] && labels == [WriteRecord(r)]
    ensures db.encBuf == old(db.encBuf) || fresh(db.encBuf)
  {
    hide Mirror, MemInv, Run, Session, ValidRecord, RecordBytes, RecordItems, PublishAll, Next, Enabled;
    labels := [];
    RecordFits(r);
    GrowEncBuf(db, RecordSize(r));
    var n := Encode(r, db.encBuf);
    DrivesSelf(db.sys);
    if n.Err? {
      return Some(EncodeFailed), labels;
    }
    ReadyToWrite(db, r);
    MirrorWrite(db.Values(), db.sys, r);
    var offset := |db.segments[db.active]|;
    SinglePublished(db.keydir.index, db.active, r, offset);
    db.segments := db.segments[db.active := db.segments[db.active] + db.encBuf[..n.value]];
    if r.flag == FLAG_TOMBSTONE {
      db.keydir.Delete(r.key);
    } else {
      db.keydir.Put(r.key, Entry(db.active, offset + HEADER_SIZE + |r.key|, |r.value|, r.tstamp));
    }
    labels := TakeWrite(db, r);
    return None, labels;
  }

  ghost predicate Counted(s: Sys) {
    forall v :: v in s.survivors ==> v.count <= |s.hist|
  }

  /** The write as one step of the machine. */
  ghost method TakeWrite(db: DB, r: Record) returns (labels: seq<Label>)
    requires MemInv(db.sys) && Enabled(db.sys, WriteRecord(r))
    requires Counted(db.sys) && Mirror(db.Values(), Next(db.sys, WriteRecord(r)))
    modifies db`sys
    ensures db.Valid() && db.sys == Next(old(db.sys), WriteRecord(r)) && Drives(old(db.sys), labels, db.sys)
    ensures db.sys.phase == old(db.sys.phase) && db.sys.pass == old(db.sys.pass)
    ensures db.sys.durable == old(db.sys.durable) && db.sys.hist == old(db.sys.hist) + [r]
    ensures labels == [WriteRecord(r)]
  {
    hide Mirror, MemInv, Run, Session, Next, Enabled;
    WriteFrame(db.sys, r);
    DrivesSelf(db.sys);
    Drive(db.sys, [], db.sys, WriteRecord(r));
    labels := [] + [WriteRecord(r)];
    db.sys := Next(db.sys, WriteRecord(r));
  }

  lemma RecordFits(r: Record)
    requires ValidRecord(r) && r == (if r.flag == FLAG_PUT then PutRecord(r.tstamp, r.key, r.value)
                                     else TombstoneRecord(r.tstamp, r.key))
    ensures IsInt64(r.tstamp) && ValidKey(r.key) && |r.value| <= MAX_VAL_LEN
    ensures r.flag == FLAG_PUT || r.flag == FLAG_TOMBSTONE
  {
  }

  lemma AcceptableIsValid(req: Request, t: int)
    requires Acceptable(req) && !req.CommitReq? && IsInt64(t)
    ensures ValidRecord(RecordOf(req, t))
  {
    hide DecodeBody;
  }

  lemma ActiveSize(db: DB)
    requires db.Valid()
    ensures db.active in db.segments && db.active in db.sys.cur.segs && ValidLog(db.sys.cur.segs[db.active])
    ensures |db.segments[db.active]| == LogSize(db.sys.cur.segs[db.active])
    ensures db.sys.cur.segs[db.active] == [] ==> LogSize(db.sys.cur.segs[db.active]) == 0
  {
    hide PassOk, PhaseOk, Located, LogItems, ValidRecord;
  }

  lemma ReadyToWrite(db: DB, r: Record)
    requires db.Valid() && db.sys.phase.Idle? && !db.writesDisabled && ValidRecord(r) && db.sys.last < r.tstamp
    requires db.active in db.segments
    requires db.sys.cur.segs[db.active] == [] || |db.segments[db.active]| + RecordSize(r) <= db.maxSegmentSize
    ensures Enabled(db.sys, WriteRecord(r)) && Counted(db.sys)
  {
    hide ValidRecord, PassOk, LogItems;
    ActiveSize(db);
  }

  /** A put or delete of one key is what its record publishes. */
  lemma SinglePublished(kd: Keydir, id: nat, r: Record, off: nat)
    requires r.flag == FLAG_PUT || r.flag == FLAG_TOMBSTONE
    ensures PublishAll(kd, id, RecordItems(r, off)) ==
      if r.flag == FLAG_PUT then kd[r.key := Entry(id, off + HEADER_SIZE + |r.key|, |r.value|, r.tstamp)]
      else kd - {r.key}
  {
    var items := RecordItems(r, off);
    assert items[..0] == [];
  }

  // ---------------------------------------------------------------- a batch

  /** The keydir changes of a batch, with the value positions handleBatch computes from its own running offset. */
  method BatchOps(ops: seq<Op>, id: nat, offset: nat, t: int) returns (kops: seq<KeydirOp>)
    requires |ops| <= MAX_BATCH_ENTRIES && ValidOps(ops)
    ensures |kops| == |ops| == |RecordItems(BatchRecord(t, ops), offset)|
    ensures forall i :: 0 <= i < |ops| ==> IsPublish(kops[i], id, RecordItems(BatchRecord(t, ops), offset)[i])
  {
    hide RecordItems, ValidOps, BatchRecord, OpsSize;
    kops := [];
    ghost var items := RecordItems(BatchRecord(t, ops), offset);
    ItemCount(ops, offset, t);
    var bodyOff := BATCH_COUNT_SIZE;
    for i := 0 to |ops|
      invariant |kops| == i && bodyOff == BATCH_COUNT_SIZE + OpsSize(ops[..i])
      invariant forall j :: 0 <= j < i ==> IsPublish(kops[j], id, items[j])
    {
      var op := ops[i];
      var valLen := if op.Put? then |op.value| else 0;
      var valuePos := offset + HEADER_SIZE + bodyOff + BATCH_ENTRY_HEADER_SIZE + |op.key|;
      ItemHere(ops, offset, t, i);
      kops := kops + [KeydirOp(op.key, Entry(id, valuePos, valLen, t), op.Delete?)];
      bodyOff := bodyOff + BATCH_ENTRY_HEADER_SIZE + |op.key| + valLen;
    }
  }

  lemma ItemCount(ops: seq<Op>, offset: nat, t: int)
    requires |ops| <= MAX_BATCH_ENTRIES && ValidOps(ops)
    ensures |RecordItems(BatchRecord(t, ops), offset)| == |ops| && OpsSize(ops[..0]) == 0
  {
    hide RecordItems, ValidOps, BatchRecord;
    WrittenItems(t, [], [], ops, offset);
  }

  /** Operation i of a batch record, and the offset of the next. */
  lemma ItemHere(ops: seq<Op>, offset: nat, t: int, i: nat)
    requires i < |ops| <= MAX_BATCH_ENTRIES && ValidOps(ops)
    ensures |RecordItems(BatchRecord(t, ops), offset)| == |ops|
    ensures RecordItems(BatchRecord(t, ops), offset)[i] ==
      Item(ops[i],
           offset + HEADER_SIZE + BATCH_COUNT_SIZE + OpsSize(ops[..i]) + BATCH_ENTRY_HEADER_SIZE + |ops[i].key|, t)
    ensures OpsSize(ops[..i + 1]) ==
      OpsSize(ops[..i]) + BATCH_ENTRY_HEADER_SIZE + |ops[i].key| + if ops[i].Put? then |ops[i].value| else 0
  {
    hide RecordItems, OpsItems, ValidOps, BatchRecord, OpsSize;
    WrittenItems(t, [], [], ops, offset);
    OpsItemsAt(ops, offset + HEADER_SIZE + BATCH_COUNT_SIZE, t, i);
    OpFits(ops, i);
  }

  /** handleBatch behind the clock: rotate only away from a segment that holds something, append the batch as one
      record, and publish all of it under one lock. */
  method WriteBatch(db: DB, ops: seq<Op>, t: int, env: RotateEnv)
    returns (err: Option<WriteError>, ghost labels: seq<Label>)
    requires db.Valid() && db.sys.phase.Idle? && !db.writesDisabled
    requires Acceptable(BatchReq(ops)) && IsInt64(t) && db.sys.last < t <= db.lastTstamp
    modifies db`segments, db`active, db`nextID, db`writesDisabled, db`sys, db`encBuf, db.encBuf, db.keydir
    ensures db.Valid() && db.sys.phase.Idle? && Drives(old(db.sys), labels, db.sys) && AllowedBy(labels, env)
    ensures db.sys.pass == old(db.sys.pass) && old(db.sys.durable) <= db.sys.durable <= |db.sys.hist|
    ensures db.sys.hist == old(db.sys.hist) + if err.None? then [BatchRecord(t, ops)] else []
    ensures Replay(db.sys.hist) ==
      if err.None? then ApplyOps(old(Replay(db.sys.hist)), ops) else old(Replay(db.sys.hist))
    ensures db.encBuf == old(db.encBuf) || fresh(db.encBuf)
    ensures (err == Some(WritesDisabled) <==> db.writesDisabled) && err != Some(FsyncFailed)
    ensures old(db.active in db.segments)
    ensures var offset := |old(db.segments)[old(db.active)]|;
      if offset == 0 || offset + 21 + |BatchBody(ops)| <= db.maxSegmentSize then
        err == None && db.active == old(db.active)
      else err == RotationError(env) && db.active == if err.None? then old(db.nextID) else old(db.active)
  {
    hide Mirror, MemInv, Run, Session, ValidRecord, Next, Enabled, Emptied, BatchRecord, AllowedBy, Replay;
    AcceptableIsValid(BatchReq(ops), t);
    AcceptableOps(ops, t);
    var bodySize := EncodedBatchBodySize(ops);
    var size := HEADER_SIZE + bodySize;
    ActiveSize(db);
    var offset := |db.segments[db.active]|;
    ghost var more;
    err, labels := MakeRoom(db, offset > 0 && offset + size > db.maxSegmentSize, size, env);
    if err.None? {
      ghost var s1 := db.sys;
      err, more := AppendBatch(db, ops, t, size);
      DrivesOn(old(db.sys), labels, s1, more, db.sys);
      OneMoreAllowed(labels, BatchRecord(t, ops), env);
      BatchReplays(old(db.sys.hist), ops, t);
      labels := labels + more;
    }
  }

  /** What a batch does to the plain map. */
  lemma BatchReplays(hist: Log, ops: seq<Op>, t: int)
    requires Acceptable(BatchReq(ops))
    ensures Replay(hist + [BatchRecord(t, ops)]) == ApplyOps(Replay(hist), ops)
  {
    hide Replay, DecodeBody, BatchBody;
    ReplayMore(hist, BatchRecord(t, ops));
  }

  /** Operation m is the last on k. */
  predicate Decides(ops: seq<Op>, k: Key, m: nat) {
    m < |ops| && ops[m].key == k && forall i :: m < i < |ops| ==> ops[i].key != k
  }

  lemma {:induction false} OpsSilent(store: Store, ops: seq<Op>, k: Key)
    requires forall i :: 0 <= i < |ops| ==> ops[i].key != k
    ensures Lookup(ApplyOps(store, ops), k) == Lookup(store, k)
  {
    if ops != [] {
      OpsSilent(store, ops[..|ops| - 1], k);
    }
  }

  /** And so to each key: the last of its operations decides. */
  lemma {:induction false} OpsDecide(store: Store, ops: seq<Op>, k: Key, m: nat)
    requires Decides(ops, k, m)
    ensures Lookup(ApplyOps(store, ops), k) == if ops[m].Put? then Some(ops[m].value) else None
  {
    var n := |ops| - 1;
    ApplyAt(ApplyOps(store, ops[..n]), ops[n], k);
    if m < n {
      OpsDecide(store, ops[..n], k, m);
    }
  }

  lemma ApplyAt(store: Store, op: Op, k: Key)
    ensures Lookup(Apply(store, op), k) ==
      if op.key != k then Lookup(store, k) else if op.Put? then Some(op.value) else None
  {
  }

  /** Encode, append, flush, publish: one BATCH record, once there is room for it. */
  method AppendBatch(db: DB, ops: seq<Op>, t: int, size: nat)
    returns (err: Option<WriteError>, ghost labels: seq<Label>)
    requires db.Valid() && db.sys.phase.Idle? && !db.writesDisabled
    requires Acceptable(BatchReq(ops)) && IsInt64(t) && size == RecordSize(BatchRecord(t, ops))
    requires db.sys.last < t <= db.lastTstamp && RoomFor(db, size)
    modifies db`segments, db`sys, db`encBuf, db.encBuf, db.keydir
    ensures db.Valid() && db.sys.phase.Idle? && Drives(old(db.sys), labels, db.sys) && !db.writesDisabled
    ensures db.sys.pass == old(db.sys.pass) && db.sys.durable == old(db.sys.durable)
    ensures err.None? && db.sys.hist == old(db.sys.hist) + [BatchRecord(t, ops)]
    ensures labels == [WriteRecord(BatchRecord(t, ops))]
    ensures db.encBuf == old(db.encBuf) || fresh(db.encBuf)
  {
    hide Mirror, MemInv, Run, Session, ValidRecord, RecordBytes, RecordItems, PublishAll, Next, Enabled, BatchRecord;
    labels := [];
    ghost var r := BatchRecord(t, ops);
    AcceptableIsValid(BatchReq(ops), t);
    AcceptableOps(ops, t);
    var n := EncodeBatch(db, ops, t, size);
    DrivesSelf(db.sys);
    if n.Err? {
      return Some(EncodeFailed), labels;
    }
    ReadyToWrite(db, r);
    MirrorWrite(db.Values(), db.sys, r);
    var offset := |db.segments[db.active]|;
    db.segments := db.segments[db.active := db.segments[db.active] + db.encBuf[..n.value]];
    PublishBatch(db, ops, offset, t);
    labels := TakeWrite(db, r);
    return None, labels;
  }

  method EncodeBatch(db: DB, ops: seq<Op>, t: int, size: nat) returns (n: Result<nat, CodecError>)
    requires Acceptable(BatchReq(ops)) && IsInt64(t) && size == RecordSize(BatchRecord(t, ops))
    modifies db`encBuf, db.encBuf
    ensures db.encBuf == old(db.encBuf) || fresh(db.encBuf)
    ensures n.Ok? && n.value <= db.encBuf.Length && db.encBuf[..n.value] == RecordBytes(BatchRecord(t, ops))
  {
    hide RecordBytes, BatchRecord;
    AcceptableOps(ops, t);
    GrowEncBuf(db, size);
    n := EncodeBatchRecord(db.encBuf, t, ops);
  }

  method PublishBatch(db: DB, ops: seq<Op>, offset: nat, t: int)
    requires Acceptable(BatchReq(ops))
    modifies db.keydir
    ensures db.keydir.index == PublishAll(old(db.keydir.index), db.active, RecordItems(BatchRecord(t, ops), offset))
  {
    hide PublishAll, RecordItems;
    AcceptableOps(ops, t);
    var kops := BatchOps(ops, db.active, offset, t);
    BatchPublishes(db.keydir.index, kops, db.active, RecordItems(BatchRecord(t, ops), offset));
    db.keydir.ApplyBatch(kops);
  }

  lemma AcceptableOps(ops: seq<Op>, t: int)
    requires Acceptable(BatchReq(ops))
    ensures ops != [] && |ops| <= MAX_BATCH_ENTRIES && ValidOps(ops)
    ensures RecordSize(BatchRecord(t, ops)) == HEADER_SIZE + |BatchBody(ops)| && BatchRecord(t, ops).tstamp == t
    ensures RecordOf(BatchReq(ops), t) == BatchRecord(t, ops)
  {
  }

  lemma EmptyOrNot(log: Log)
    ensures LogSize(log) == 0 ==> log == []
  {
  }

  // ---------------------------------------------------------------- a compaction commit

  lemma CommitPictures(s: Sys)
    requires MemInv(s) && s.pass.Some? && s.pass.value.ready
    ensures ValidLog(s.pass.value.merged) && s.pass.value.mid !in s.pass.value.cands && s.pass.value.cands != {}
    ensures var c := s.pass.value; var w := Commit(s.cur, c);
      && w.active == s.cur.active && w.kd == SwapAll(s.cur.kd, c.rewrites)
      && w.segs == (var kept := map i | i in s.cur.segs && i !in c.cands :: s.cur.segs[i];
                    if c.rewrites == [] then kept else kept[c.mid := c.merged])
  {
    hide LogItems, LogSize, SwapAll, ValidRecord, At, Settled, ScannedOnce, Reaches, TodoOk, ViewInv, Has;
    var c := s.pass.value;
    forall i | 0 <= i < |c.merged| ensures ValidRecord(c.merged[i]) {
      assert Copied(s.cur.segs, c, i);
    }
  }

  /** The last steps of a commit: the retired files are unlinked one by one. */
  method UnlinkAll(db: DB, ghost s0: Sys, ids: set<nat>, ghost labels0: seq<Label>) returns (ghost labels: seq<Label>)
    requires db.Valid() && Drives(s0, labels0, db.sys) && db.sys.phase == Retiring(ids) && ids != {}
    modifies db`sys
    ensures db.Valid() && db.sys.phase.Idle? && Drives(s0, labels, db.sys)
    ensures SameWriter(old(db.sys), db.sys) && db.sys.cur == old(db.sys.cur) && db.sys.pass == old(db.sys.pass)
    ensures db.sys.files.Keys == old(db.sys.files).Keys - ids
    ensures labels0 <= labels && forall i :: |labels0| <= i < |labels| ==> labels[i].Unlink? && labels[i].id in ids
  {
    hide Mirror, MemInv, Drives, Next, Enabled;
    labels := labels0;
    var left := ids;
    while left != {}
      invariant db.Valid() && Drives(s0, labels, db.sys)
      invariant db.sys.phase == if left == {} then Idle else Retiring(left)
      invariant SameWriter(old(db.sys), db.sys) && db.sys.cur == old(db.sys.cur) && db.sys.pass == old(db.sys.pass)
      invariant left <= ids && db.sys.files.Keys == old(db.sys.files).Keys - (ids - left)
      invariant labels0 <= labels && forall i :: |labels0| <= i < |labels| ==> labels[i].Unlink? && labels[i].id in ids
      decreases |left|
    {
      var id :| id in left;
      labels := TakeQuiet(db, s0, labels, Unlink(id));
      assert left == {id} <==> left - {id} == {};
      left := left - {id};
    }
  }

  /** l is a step of a commit that only the disk shows, and it is its turn. */
  ghost predicate QuietReady(s: Sys, l: Label) {
    match l
    case BeginCommit => s.phase.Idle? && !s.disabled && s.pass.Some? && s.pass.value.ready
    case SyncDirForCommit => s.phase.Committing? && !s.phase.dirSynced
    case FailCommit => s.phase.Committing? && s.pass.Some?
    case RenameForCommit => s.phase.Committing? && s.phase.dirSynced && s.pass.Some?
    case Unlink(id) => s.phase.Retiring? && id in s.phase.left
    case _ => false
  }

  ghost predicate QuietResult(s: Sys, l: Label, t: Sys) {
    && t.cur == s.cur && t.nextID == s.nextID && t.maxSize == s.maxSize && SameWriter(s, t)
    && t.pass == (if l.FailCommit? then None else s.pass)
    && (match l
        case BeginCommit => s.pass.Some? && t.phase == Committing(s.pass.value.rewrites == []) && t.files == s.files
        case SyncDirForCommit => t.phase == Committing(true) && t.files == s.files
        case FailCommit => t.phase == Idle
        case RenameForCommit => t.phase == CommitRenamed && t.files == s.files
        case Unlink(id) =>
          && s.phase.Retiring? && t.files.Keys == s.files.Keys - {id}
          && t.phase == (if s.phase.left == {id} then Idle else Retiring(s.phase.left - {id}))
        case _ => true)
  }

  lemma QuietStep(f: Fields, s: Sys, l: Label)
    requires Mirror(f, s) && MemInv(s) && QuietReady(s, l)
    ensures Enabled(s, l) && Counted(s) && QuietResult(s, l, Next(s, l)) && Mirror(f, Next(s, l))
  {
    hide Print, ValidLog, Commit, ViewInv, PassOk, PhaseOk;
  }

  lemma QuietLabel(s: Sys, l: Label)
    requires QuietReady(s, l)
    ensures WriterLabel(l)
  {
  }

  ghost method TakeQuiet(db: DB, s0: Sys, labels0: seq<Label>, l: Label) returns (labels: seq<Label>)
    requires db.Valid() && Drives(s0, labels0, db.sys) && QuietReady(db.sys, l)
    modifies db`sys
    ensures db.Valid() && Drives(s0, labels, db.sys) && QuietResult(old(db.sys), l, db.sys) && labels == labels0 + [l]
  {
    hide Mirror, MemInv, Drives, Enabled, Next, QuietResult;
    QuietStep(db.Values(), db.sys, l);
    assert WriterLabel(l) by { QuietLabel(db.sys, l); }
    Drive(s0, labels0, db.sys, l);
    db.sys, labels := Next(db.sys, l), labels0 + [l];
  }

  /** The disk's half of handleCompactCommit: sync the directory unless the commit only retires, and publish the
      manifest. */
  method PublishCommit(db: DB, cc: CompactCommit, env: CommitEnv)
    returns (ok: bool, written: Option<Manifest.Manifest>, ghost labels: seq<Label>)
    requires db.Valid() && db.sys.phase.Idle? && !db.writesDisabled && CommitOk(db.sys, cc)
    modifies db`sys
    ensures db.Valid() && Drives(old(db.sys), labels, db.sys) && db.sys.cur == old(db.sys.cur)
    ensures SameWriter(old(db.sys), db.sys)
    ensures ok ==> db.sys.phase.CommitRenamed? && db.sys.pass == old(db.sys.pass) && !env.publish.Failed?
    ensures ok ==> CommitOk(db.sys, cc) && db.sys.files == old(db.sys.files)
    ensures cc.newSeg.Some? && !env.dirSyncOk ==> !ok && labels == [BeginCommit, FailCommit]
    ensures cc.newSeg.Some? && env.dirSyncOk ==>
      (ok <==> !env.publish.Failed?)
      && labels == [BeginCommit, SyncDirForCommit, if ok then RenameForCommit else FailCommit]
    ensures cc.newSeg.None? ==>
      (ok <==> !env.publish.Failed?) && labels == [BeginCommit, if ok then RenameForCommit else FailCommit]
    ensures !ok ==> db.sys.phase.Idle? && db.sys.pass.None?
    ensures written.Some? <==> cc.newSeg.None? || env.dirSyncOk
    ensures old(db.sys.pass).Some?
    ensures written.Some? ==> Manifest.ManifestOf(Commit(old(db.sys.cur), old(db.sys.pass).value), written.value)
  {
    hide Mirror, MemInv, Drives, Next, Enabled, Commit, Manifest.ManifestOf;
    ok, labels := PrepareCommit(db, cc, env.dirSyncOk);
    if !ok {
      return false, None, labels;
    }
    written := WriteCommitManifest(db, cc, old(db.sys));
    if env.publish.Failed? {
      labels := TakeQuiet(db, old(db.sys), labels, FailCommit);
      return false, written, labels;
    }
    labels := TakeQuiet(db, old(db.sys), labels, RenameForCommit);
    return true, written, labels;
  }

  /** The part in front of the manifest. */
  method PrepareCommit(db: DB, cc: CompactCommit, dirSyncOk: bool) returns (ok: bool, ghost labels: seq<Label>)
    requires db.Valid() && db.sys.phase.Idle? && !db.writesDisabled && CommitOk(db.sys, cc)
    modifies db`sys
    ensures db.Valid() && Drives(old(db.sys), labels, db.sys) && db.sys.cur == old(db.sys.cur)
    ensures SameWriter(old(db.sys), db.sys)
    ensures ok <==> cc.newSeg.None? || dirSyncOk
    ensures labels == [BeginCommit] + if cc.newSeg.None? then [] else if ok then [SyncDirForCommit] else [FailCommit]
    ensures ok ==> db.sys.phase == Committing(true) && db.sys.pass == old(db.sys.pass) && CommitOk(db.sys, cc)
    ensures ok ==> db.sys.files == old(db.sys.files)
    ensures !ok ==> db.sys.phase.Idle? && db.sys.pass.None?
  {
    hide Mirror, MemInv, Drives, Next, Enabled, CommitOk;
    DrivesSelf(db.sys);
    assert !db.sys.disabled by { NotDisabled(db.Values(), db.sys); }
    CommitInHand(db.sys, cc);
    labels := TakeQuiet(db, db.sys, [], BeginCommit);
    CommitStays(old(db.sys), db.sys, cc);
    if cc.newSeg.Some? {
      if !dirSyncOk {
        labels := TakeQuiet(db, old(db.sys), labels, FailCommit);
        return false, labels;
      }
      labels := TakeQuiet(db, old(db.sys), labels, SyncDirForCommit);
      CommitStays(old(db.sys), db.sys, cc);
    }
    return true, labels;
  }

  lemma CommitInHand(s: Sys, cc: CompactCommit)
    requires CommitOk(s, cc)
    ensures s.pass.Some? && s.pass.value.ready && (cc.newSeg.None? <==> s.pass.value.rewrites == [])
  {
    hide ValidLog, Print;
  }

  lemma CommitStays(s: Sys, t: Sys, cc: CompactCommit)
    requires CommitOk(s, cc) && t.pass == s.pass
    ensures CommitOk(t, cc)
  {
    hide ValidLog, Print;
  }

  /** The manifest without the inputs and with the merged segment, the active one as the writer has it. */
  method WriteCommitManifest(db: DB, cc: CompactCommit, ghost s: Sys) returns (written: Option<Manifest.Manifest>)
    requires Mirror(db.Values(), s) && MemInv(s) && CommitOk(s, cc)
    ensures s.pass.Some? && written.Some? && Manifest.ManifestOf(Commit(s.cur, s.pass.value), written.value)
  {
    hide Mirror, MemInv, Commit, Manifest.ManifestOf, Manifest.WellFormed, CommitOk;
    CommitActive(db.Values(), s, cc);
    var live := LiveIds(db, cc.oldSegs, if cc.newSeg.Some? then [cc.newID] else []);
    written := Manifest.WriteManifest(live, db.active);
    CommitManifest(db.Values(), s, cc, live, written.value);
  }

  lemma CommitActive(f: Fields, s: Sys, cc: CompactCommit)
    requires Mirror(f, s) && MemInv(s) && CommitOk(s, cc)
    ensures s.pass.Some? && f.active in f.segments && f.active !in cc.oldSegs
  {
    hide Print, Located, Reaches, Settled, PickOk, PhaseOk, ValidLog;
    MemActive(s);
  }

  lemma CommitManifest(f: Fields, s: Sys, cc: CompactCommit, live: seq<nat>, m: Manifest.Manifest)
    requires Mirror(f, s) && MemInv(s) && CommitOk(s, cc) && Manifest.WellFormed(m) && m.active == Some(f.active)
    requires forall id :: id in live <==> (id in f.segments && id !in cc.oldSegs) || (cc.newSeg.Some? && id == cc.newID)
    requires forall id :: id in m.segments <==> id in live
    ensures Manifest.ManifestOf(Commit(s.cur, s.pass.value), m)
  {
    hide MemInv, Print, SwapAll, ValidLog, Manifest.WellFormed, Commit;
    CommitPictures(s);
  }

  lemma NotDisabled(f: Fields, s: Sys)
    requires Mirror(f, s)
    ensures s.disabled == f.writesDisabled
  {
  }

  /** Neither the history nor the clock has moved. */
  ghost predicate SameWriter(s: Sys, t: Sys) {
    t.hist == s.hist && t.durable == s.durable && t.last == s.last && t.disabled == s.disabled
  }

  /** What the disk has answered to a commit allows the step. */
  predicate CommitAllows(l: Label, env: CommitEnv) {
    match l
    case BeginCommit => true
    case FailCommit => true
    case SyncDirForCommit => env.dirSyncOk
    case RenameForCommit => !env.publish.Failed?
    case FinishCommit => env.publish.Published?
    case FinishCommitUncertain => env.publish.Uncertain?
    case Unlink(_) => env.publish.Published?
    case _ => false
  }

  /** handleCompactCommit: publish the manifest, swap segments and keydir entries in memory, and unlink the inputs
      unless the old manifest may come back. The manifest is that of the view behind the commit. */
  method HandleCompactCommit(db: DB, cc: CompactCommit, env: CommitEnv)
    returns (err: Option<WriteError>, written: Option<Manifest.Manifest>, ghost labels: seq<Label>)
    requires db.Valid() && db.sys.phase.Idle? && !db.writesDisabled && CommitOk(db.sys, cc)
    modifies db`segments, db`sys, db.keydir
    ensures db.Valid() && db.sys.phase.Idle? && Drives(old(db.sys), labels, db.sys)
    ensures db.sys.pass.None? && SameWriter(old(db.sys), db.sys) && !db.writesDisabled
    ensures db.sys.cur == if err.None? then Commit(old(db.sys.cur), old(db.sys.pass).value) else old(db.sys.cur)
    ensures err.Some? ==> db.segments == old(db.segments) && err == Some(CommitFailed)
    ensures err.None? <==> (cc.newSeg.None? || env.dirSyncOk) && env.publish != Failed
    ensures forall l :: l in labels ==> CommitAllows(l, env)
    ensures SyncDirForCommit in labels <==> cc.newSeg.Some? && env.dirSyncOk
    ensures RenameForCommit in labels <==> err.None?
    ensures FinishCommit in labels <==> err.None? && env.publish.Published?
    ensures err.None? ==>
      db.sys.files.Keys == old(db.sys.files).Keys - if env.publish.Published? then cc.oldSegs else {}
    ensures written.Some? <==> cc.newSeg.None? || env.dirSyncOk
    ensures written.Some? ==> Manifest.ManifestOf(Commit(old(db.sys.cur), old(db.sys.pass).value), written.value)
  {
    hide Mirror, MemInv, Run, Session, Commit, SwapAll, Drives, CommitOk, Next, Enabled, Manifest.ManifestOf;
    hide FieldsAfterCommit;
    ghost var s0 := db.sys;
    CommitFields(s0, cc);
    var ok;
    ok, written, labels := PublishCommit(db, cc, env);
    if !ok {
      return Some(CommitFailed), written, labels;
    }
    labels := InstallCommit(db, cc, env.publish.Uncertain?, s0, labels);
    ghost var front := labels;
    if env.publish.Published? {
      labels := UnlinkAll(db, s0, cc.oldSegs, labels);
    }
    OnlyUnlinks(front, labels);
    return None, written, labels;
  }

  /** The swap in memory, as the machine's step behind the rename. */
  method InstallCommit(db: DB, cc: CompactCommit, uncertain: bool, ghost s0: Sys, ghost labels0: seq<Label>)
    returns (ghost labels: seq<Label>)
    requires db.Valid() && db.sys.phase.CommitRenamed? && CommitOk(db.sys, cc) && Drives(s0, labels0, db.sys)
    modifies db`segments, db`sys, db.keydir
    ensures db.Valid() && Drives(s0, labels, db.sys) && SameWriter(old(db.sys), db.sys) && db.sys.pass.None?
    ensures old(db.sys.pass).Some? && db.sys.cur == Commit(old(db.sys.cur), old(db.sys.pass).value)
    ensures db.sys.files == old(db.sys.files) && db.sys.phase == if uncertain then Idle else Retiring(cc.oldSegs)
    ensures labels == labels0 + [if uncertain then FinishCommitUncertain else FinishCommit]
  {
    hide Mirror, MemInv, Run, Session, Commit, SwapAll, Drives, CommitOk, Next, Enabled, FieldsAfterCommit;
    CommitFields(db.sys, cc);
    ghost var done := if uncertain then FinishCommitUncertain else FinishCommit;
    MirrorCommit(db.Values(), db.sys, cc, done);
    FinishFrame(db.sys, done);
    SwapInMemory(db, cc);
    Drive(s0, labels0, db.sys, done);
    db.sys, labels := Next(db.sys, done), labels0 + [done];
  }

  /** Behind the front there are unlinks only. */
  lemma OnlyUnlinks(front: seq<Label>, labels: seq<Label>)
    requires front <= labels && forall i :: |front| <= i < |labels| ==> labels[i].Unlink?
    ensures forall l :: l in labels ==> l in front || l.Unlink?
    ensures forall l :: l in front ==> l in labels
  {
  }

  lemma CommitFields(s: Sys, cc: CompactCommit)
    requires MemInv(s) && CommitOk(s, cc)
    ensures s.pass.Some? && cc.oldSegs == s.pass.value.cands && cc.oldSegs != {}
  {
    hide PassInv, ViewInv, PhaseOk;
  }

  lemma FinishFrame(s: Sys, l: Label)
    requires MemInv(s) && s.phase.CommitRenamed? && s.pass.Some? && (l.FinishCommit? || l.FinishCommitUncertain?)
    ensures Counted(s) && Enabled(s, l) && var t := Next(s, l);
      && t.pass.None? && t.cur == Commit(s.cur, s.pass.value) && SameWriter(s, t) && t.files == s.files
      && t.phase == if l.FinishCommit? then Retiring(s.pass.value.cands) else Idle
  {
    hide Commit, ViewInv, PassOk;
  }

  /** What the swap under segmentsMu does to the fields. */
  function FieldsAfterCommit(f: Fields, cc: CompactCommit): Fields {
    var kept := map i | i in f.segments && i !in cc.oldSegs :: f.segments[i];
    f.(segments := if cc.newSeg.None? then kept else kept[cc.newID := cc.newSeg.value],
       index := SwapAll(f.index, cc.rewrites))
  }

  lemma MirrorCommit(f: Fields, s: Sys, cc: CompactCommit, l: Label)
    requires Mirror(f, s) && MemInv(s) && CommitOk(s, cc) && s.phase.CommitRenamed?
    requires l.FinishCommit? || l.FinishCommitUncertain?
    ensures Enabled(s, l) && Counted(s) && cc.newID !in cc.oldSegs
    ensures Mirror(FieldsAfterCommit(f, cc), Next(s, l))
  {
    hide MemInv, Commit, SwapAll, Print, LogSize, ValidLog, LogItems;
    CommitPictures(s);
    FinishFrame(s, l);
  }

  /** The part under segmentsMu. */
  method SwapInMemory(db: DB, cc: CompactCommit)
    requires cc.newID !in cc.oldSegs
    modifies db`segments, db.keydir
    ensures db.Values() == FieldsAfterCommit(old(db.Values()), cc)
  {
    if cc.newSeg.Some? {
      db.segments := db.segments[cc.newID := cc.newSeg.value];
    }
    ghost var segments := db.segments;
    for i := 0 to |cc.rewrites|
      invariant db.keydir.index == SwapAll(old(db.keydir.index), cc.rewrites[..i]) && db.segments == segments
    {
      assert cc.rewrites[..i + 1][..i] == cc.rewrites[..i];
      var swapped := db.keydir.CompareAndSwap(cc.rewrites[i].key, cc.rewrites[i].oldEntry, cc.rewrites[i].newEntry);
    }
    assert cc.rewrites[..|cc.rewrites|] == cc.rewrites;
    db.segments := db.segments - cc.oldSegs;
    assert db.segments == FieldsAfterCommit(old(db.Values()), cc).segments;
  }
}
