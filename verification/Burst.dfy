/** Group commit: what one request does once it is dequeued, and what a whole burst of them promises its callers. */
module Burst {
  import opened Bytes
  import opened Wrappers
  import opened Record
  import opened Log
  import opened RecordCodec
  import opened Engine
  import opened Refinement
  import opened Db
  import opened Writer
  import opened CrashSafety
  import opened Keydirs
  import Manifest

  const MAX_TSTAMP: int := 0x7fff_ffff_ffff_ffff

  datatype BatchError = BatchTooLarge | InvalidEntry(index: nat)

  // ---------------------------------------------------------------- before the queue

  predicate FirstBad(entries: seq<Op>, i: nat) {
    i < |entries| && !ValidOp(entries[i]) && forall j :: 0 <= j < i ==> ValidOp(entries[j])
  }

  /** The checks BatchPut makes before it queues a batch. */
  method CheckBatch(entries: seq<Op>, maxBatchEncodedSize: int) returns (err: Option<BatchError>)
    requires maxBatchEncodedSize <= HEADER_SIZE + MAX_BATCH_BODY_LEN
    ensures entries == [] ==> err.None?
    ensures entries != [] ==> (err.None? <==>
      |entries| <= 0x10_0000 && 21 + |BatchBody(entries)| <= maxBatchEncodedSize
      && forall i :: 0 <= i < |entries| ==>
           1 <= |entries[i].key| <= 65_536 && (entries[i].Put? ==> |entries[i].value| <= 16_777_216))
    ensures err.None? && entries != [] ==> Acceptable(BatchReq(entries))
    ensures err.Some? && err.value.InvalidEntry? ==>
      FirstBad(entries, err.value.index) && |entries| <= MAX_BATCH_ENTRIES
    ensures err == Some(BatchTooLarge) ==>
      |entries| > MAX_BATCH_ENTRIES || (ValidOps(entries) && HEADER_SIZE + |BatchBody(entries)| > maxBatchEncodedSize)
  {
    hide BatchBody, DecodeBody;
    if |entries| == 0 {
      return None;
    }
    if |entries| > MAX_BATCH_ENTRIES {
      return Some(BatchTooLarge);
    }
    for i := 0 to |entries|
      invariant forall j :: 0 <= j < i ==> ValidOp(entries[j])
    {
      var e := entries[i];
      if |e.key| == 0 || |e.key| > MAX_KEY_LEN || (e.Put? && |e.value| > MAX_VAL_LEN) {
        return Some(InvalidEntry(i));
      }
    }
    var size := EncodedBatchBodySize(entries);
    if HEADER_SIZE + size > maxBatchEncodedSize {
      return Some(BatchTooLarge);
    }
    AcceptedBatch(entries);
    return None;
  }

  /** A batch that passes the checks is one that recovery's caps accept and reads back entry for entry. */
  lemma AcceptedBatch(ops: seq<Op>)
    requires ops != [] && |ops| <= MAX_BATCH_ENTRIES && ValidOps(ops) && |BatchBody(ops)| <= MAX_BATCH_BODY_LEN
    ensures Acceptable(BatchReq(ops))
  {
    DecodeBodyOfBatchBody(ops);
  }

  // ---------------------------------------------------------------- one request

  /** Room in the clock for n more records. */
  predicate ClockRoom(last: int, now: int, n: nat) {
    0 <= last <= MAX_TSTAMP - n && now <= MAX_TSTAMP - n
  }

  ghost predicate Fits(s: Sys, req: Request) {
    if req.CommitReq? then CommitOk(s, req.commit) else Acceptable(req)
  }

  /** What a request that succeeds does to the plain map. */
  function Effect(store: Store, req: Request): Store {
    match req
    case PutReq(k, v) => store[k := v]
    case DeleteReq(k) => store - {k}
    case BatchReq(ops) => ApplyOps(store, ops)
    case CommitReq(_) => store
  }

  /** The record would take the active segment over the threshold; a batch goes into an empty one whatever its size. */
  ghost predicate NeedsRotation(f: Fields, req: Request)
    requires f.active in f.segments
  {
    var size := |f.segments[f.active]|;
    if req.PutReq? then size + 21 + |req.key| + |req.value| > f.maxSegmentSize
    else if req.DeleteReq? then size + 21 + |req.key| > f.maxSegmentSize
    else req.BatchReq? && size > 0 && size + 21 + |BatchBody(req.ops)| > f.maxSegmentSize
  }

  /** The disk's answers to one request allow the step. */
  predicate Allows(l: Label, env: Env) {
    RotationAllows(l, env.rotate) || CommitAllows(l, env.commit)
  }

  ghost predicate AllAllowed(labels: seq<Label>, env: Env) {
    forall l :: l in labels ==> Allows(l, env)
  }

  /** The clock, then the branch for the request's kind. */
  method HandleWrite(db: DB, req: Request, env: Env)
    returns (err: Option<WriteError>, t: int, ghost labels: seq<Label>)
    requires db.Valid() && db.sys.phase.Idle? && !db.writesDisabled
    requires !req.CommitReq? && Acceptable(req) && ClockRoom(db.lastTstamp, env.now, 1)
    modifies db, db.encBuf, db.keydir
    ensures db.Valid() && db.sys.phase.Idle? && Drives(old(db.sys), labels, db.sys)
    ensures db.encBuf == old(db.encBuf) || fresh(db.encBuf)
    ensures IsInt64(t) && db.sys.hist == old(db.sys.hist) + if err.None? then [RecordOf(req, t)] else []
    ensures old(db.sys.durable) <= db.sys.durable <= |db.sys.hist| && db.sys.pass == old(db.sys.pass)
    ensures (err == Some(WritesDisabled) <==> db.writesDisabled) && err != Some(FsyncFailed)
    ensures db.lastTstamp == Tick(old(db.lastTstamp), env.now) == t
    ensures old(db.active in db.segments)
    ensures err == if NeedsRotation(old(db.Values()), req) then RotationError(env.rotate) else None
    ensures Replay(db.sys.hist) == if err.None? then Effect(old(Replay(db.sys.hist)), req) else old(Replay(db.sys.hist))
    ensures AllAllowed(labels, env)
  {
    hide MemInv, Run, Session, Drives, Acceptable, CommitOk, Mirror, Next, Enabled, Replay, ApplyOps;
    hide BatchBody, RotationError;
    assert old(db.Values()) == db.Values();
    t := Tick(db.lastTstamp, env.now);
    MirrorLater(db.Values(), db.sys, t);
    db.lastTstamp := t;
    if req.BatchReq? {
      err, labels := WriteBatch(db, req.ops, t, env.rotate);
    } else {
      err, labels := WriteOne(db, req, t, env.rotate);
    }
  }

  /** handleOne: the sticky switch, then a commit or a write. appended says that the request put bytes in the active
      segment, and t is the timestamp it got. */
  method HandleOne(db: DB, req: Request, env: Env)
    returns (appended: bool, err: Option<WriteError>, t: int, ghost labels: seq<Label>)
    requires db.Valid() && db.sys.phase.Idle? && Fits(db.sys, req) && ClockRoom(db.lastTstamp, env.now, 1)
    modifies db, db.encBuf, db.keydir
    ensures db.Valid() && db.sys.phase.Idle? && Drives(old(db.sys), labels, db.sys)
    ensures db.encBuf == old(db.encBuf) || fresh(db.encBuf)
    ensures appended <==> err.None? && !req.CommitReq?
    ensures IsInt64(t) && db.sys.hist == old(db.sys.hist) + if appended then [RecordOf(req, t)] else []
    ensures old(db.sys.durable) <= db.sys.durable <= |db.sys.hist|
    ensures old(db.writesDisabled) ==> err == Some(WritesDisabled) && db.sys == old(db.sys)
    ensures (err == Some(WritesDisabled) <==> db.writesDisabled) && err != Some(FsyncFailed)
    ensures if req.CommitReq? && !old(db.writesDisabled) then db.sys.pass.None? else db.sys.pass == old(db.sys.pass)
    ensures db.lastTstamp == if old(db.writesDisabled) || req.CommitReq? then old(db.lastTstamp) else t
    ensures t == Tick(old(db.lastTstamp), env.now)
    ensures !old(db.writesDisabled) && req.CommitReq? ==>
      !db.writesDisabled
      && (err.None? <==> (req.commit.newSeg.None? || env.commit.dirSyncOk) && env.commit.publish != Failed)
    ensures old(db.active in db.segments)
    ensures !old(db.writesDisabled) && !req.CommitReq? && !NeedsRotation(old(db.Values()), req) ==> err == None
    ensures !old(db.writesDisabled) && !req.CommitReq? && NeedsRotation(old(db.Values()), req) ==>
      err == if env.rotate == RotateEnv(true, true, true, Published) then None
             else if env.rotate == RotateEnv(true, true, true, Uncertain) then Some(WritesDisabled)
             else Some(RotateFailed)
    ensures !appended ==> Replay(db.sys.hist) == old(Replay(db.sys.hist))
    ensures appended && req.PutReq? ==> Replay(db.sys.hist) == old(Replay(db.sys.hist))[req.key := req.value]
    ensures appended && req.DeleteReq? ==> Replay(db.sys.hist) == old(Replay(db.sys.hist)) - {req.key}
    ensures appended && req.BatchReq? ==> Replay(db.sys.hist) == ApplyOps(old(Replay(db.sys.hist)), req.ops)
    ensures AllAllowed(labels, env)
  {
    hide MemInv, Run, Session, Drives, Acceptable, CommitOk, Mirror, Next, Enabled, RecordOf, Replay, ApplyOps;
    hide BatchBody, NeedsRotation, RotationError, Manifest.ManifestOf;
    labels, t := [], Tick(db.lastTstamp, env.now);
    DrivesSelf(db.sys);
    DurableBound(db.sys);
    ActiveSize(db);
    assert db.sys.hist + [] == db.sys.hist;
    if db.writesDisabled {
      return false, Some(WritesDisabled), t, labels;
    }
    if req.CommitReq? {
      var written;
      err, written, labels := HandleCompactCommit(db, req.commit, env.commit);
      return false, err, t, labels;
    }
    err, t, labels := HandleWrite(db, req, env);
    appended := err.None?;
  }

  lemma MirrorLater(f: Fields, s: Sys, t: int)
    requires Mirror(f, s) && f.lastTstamp <= t
    ensures Mirror(f.(lastTstamp := t), s) && s.last <= f.lastTstamp
  {
  }

  // ---------------------------------------------------------------- a burst

  /** The records of the requests that appended, in the order they were dequeued. */
  ghost function Appended(burst: seq<Request>, ts: seq<int>, appended: seq<bool>): Log
    requires |burst| == |ts| == |appended|
  {
    if burst == [] then [] else
      var n := |burst| - 1;
      Appended(burst[..n], ts[..n], appended[..n])
      + if appended[n] && !burst[n].CommitReq? then [RecordOf(burst[n], ts[n])] else []
  }

  /** What handling the first requests of a burst has led to. */
  ghost predicate Handled(burst: seq<Request>, results: seq<Option<WriteError>>, appended: seq<bool>, off: bool) {
    && |results| == |appended| <= |burst|
    && (forall i :: 0 <= i < |results| ==> (appended[i] <==> results[i].None? && !burst[i].CommitReq?))
    && (forall i :: 0 <= i < |results| ==> results[i] != Some(FsyncFailed))
    && (forall i :: 0 <= i < |results| && results[i] == Some(WritesDisabled) ==> off)
    && (forall i, j :: 0 <= i < j < |results| && results[i] == Some(WritesDisabled) ==>
          results[j] == Some(WritesDisabled))
  }

  /** What each caller is told, given the outcome of the final sync. */
  ghost predicate Replied(burst: seq<Request>, results: seq<Option<WriteError>>, appended: seq<bool>, synced: bool) {
    && |results| == |appended| == |burst|
    && (forall i :: 0 <= i < |burst| && results[i].None? ==> burst[i].CommitReq? || appended[i])
    && (forall i :: 0 <= i < |burst| && appended[i] ==> !burst[i].CommitReq?)
    && (forall i :: 0 <= i < |burst| ==> (results[i] == Some(FsyncFailed) <==> appended[i] && !synced))
    && (forall i :: 0 <= i < |burst| && appended[i] && synced ==> results[i].None?)
    && (forall i, j :: 0 <= i < j < |burst| && results[i] == Some(WritesDisabled) ==>
          results[j] == Some(WritesDisabled))
  }

  /** No rotation fails. */
  ghost predicate Healthy(envs: seq<Env>) {
    forall i :: 0 <= i < |envs| ==> envs[i].rotate == RotateEnv(true, true, true, Published)
  }

  /** The plain map after the requests of a burst that appended, in the order they were dequeued. */
  ghost function Effects(store: Store, burst: seq<Request>, appended: seq<bool>): Store
    requires |burst| == |appended|
  {
    if burst == [] then store else
      var n := |burst| - 1;
      var before := Effects(store, burst[..n], appended[..n]);
      if appended[n] then Effect(before, burst[n]) else before
  }

  /** The request says something of k, and what it leaves there. */
  predicate Touches(req: Request, k: Key) {
    if req.BatchReq? then Mentions(req.ops, k) else !req.CommitReq? && req.key == k
  }

  predicate Mentions(ops: seq<Op>, k: Key) {
    exists i :: 0 <= i < |ops| && ops[i].key == k
  }

  /** What a request that touches k leaves there. */
  function LeftAt(req: Request, k: Key): Option<Value> {
    match req
    case PutReq(_, v) => Some(v)
    case DeleteReq(_) => None
    case BatchReq(ops) => Lookup(ApplyOps(map[], ops), k)
    case CommitReq(_) => None
  }

  /** Request m is the last of those that appended to touch k. */
  ghost predicate LastTouch(burst: seq<Request>, appended: seq<bool>, k: Key, m: nat)
    requires |burst| == |appended|
  {
    && m < |burst| && appended[m] && Touches(burst[m], k)
    && forall i :: m < i < |burst| && appended[i] ==> !Touches(burst[i], k)
  }

  /** Of a burst, the last request on a key that appended decides what is found there. */
  lemma {:induction false} BurstDecides(store: Store, burst: seq<Request>, appended: seq<bool>, k: Key)
    requires |burst| == |appended|
    ensures (forall i :: 0 <= i < |burst| && appended[i] ==> !Touches(burst[i], k)) ==>
      Lookup(Effects(store, burst, appended), k) == Lookup(store, k)
    ensures forall m: nat :: LastTouch(burst, appended, k, m) ==>
      Lookup(Effects(store, burst, appended), k) == LeftAt(burst[m], k)
  {
    hide Touches, Effect, LeftAt, Lookup;
    if burst != [] {
      var n := |burst| - 1;
      BurstDecides(store, burst[..n], appended[..n], k);
      EffectAt(Effects(store, burst[..n], appended[..n]), burst[n], k);
      forall m: nat | LastTouch(burst, appended, k, m)
        ensures Lookup(Effects(store, burst, appended), k) == LeftAt(burst[m], k)
      {
        assert m < n ==> LastTouch(burst[..n], appended[..n], k, m);
      }
    }
  }

  lemma EffectAt(store: Store, req: Request, k: Key)
    ensures Lookup(Effect(store, req), k) == if Touches(req, k) then LeftAt(req, k) else Lookup(store, k)
  {
    hide ApplyOps;
    if req.BatchReq? {
      if Touches(req, k) {
        var m := LastOp(req.ops, k);
        OpsDecide(store, req.ops, k, m);
        OpsDecide(map[], req.ops, k, m);
      } else {
        OpsSilent(store, req.ops, k);
      }
    }
  }

  lemma {:induction false} LastOp(ops: seq<Op>, k: Key) returns (m: nat)
    requires exists i :: 0 <= i < |ops| && ops[i].key == k
    ensures m < |ops| && ops[m].key == k && forall i :: m < i < |ops| ==> ops[i].key != k
  {
    m := |ops| - 1;
    if ops[m].key != k {
      m := LastOp(ops[..m], k);
    }
  }

  ghost predicate BurstFits(s: Sys, burst: seq<Request>, done: nat) {
    && (forall i :: done <= i < |burst| ==> Fits(s, burst[i]))
    && (forall i, j :: 0 <= i < j < |burst| ==> !burst[i].CommitReq? || !burst[j].CommitReq?)
  }

  /** processBurst: handle every request, sync the active segment once if any of them appended, and reply to all.
      With SyncOnPut, a nil reply to a put, a delete or a batch means that every record written so far is synced,
      its own among them. */
  method ProcessBurst(db: DB, burst: seq<Request>, envs: seq<Env>, syncOk: bool)
    returns (results: seq<Option<WriteError>>, ghost appended: seq<bool>, ghost ts: seq<int>, ghost labels: seq<Label>)
    requires db.Valid() && db.sys.phase.Idle? && BurstFits(db.sys, burst, 0) && |envs| == |burst|
    requires 0 <= db.lastTstamp
    requires forall i :: 0 <= i < |burst| ==> ClockRoom(db.lastTstamp, envs[i].now, |burst|)
    modifies db, db.encBuf, db.keydir
    ensures db.Valid() && db.sys.phase.Idle? && Drives(old(db.sys), labels, db.sys)
    ensures Replied(burst, results, appended, syncOk || !db.syncOnPut) && |ts| == |burst|
    ensures db.sys.hist == old(db.sys.hist) + Appended(burst, ts, appended)
    ensures Replay(db.sys.hist) == Effects(old(Replay(db.sys.hist)), burst, appended)
    ensures forall l :: l in labels ==>
      (l == SyncActive && db.syncOnPut && syncOk) || exists i :: 0 <= i < |envs| && Allows(l, envs[i])
    ensures forall i :: 0 <= i < |burst| && results[i].None? ==> burst[i].CommitReq? || appended[i]
    ensures forall i :: 0 <= i < |burst| && appended[i] ==>
      results[i] == if db.syncOnPut && !syncOk then Some(FsyncFailed) else None
    ensures forall i :: 0 <= i < |burst| && !appended[i] ==> results[i] != Some(FsyncFailed)
    ensures forall i :: 0 <= i < |burst| && db.syncOnPut && !burst[i].CommitReq? && results[i].None? ==>
      db.sys.durable == |db.sys.hist|
    ensures old(Synced(db.sys)) && db.syncOnPut && syncOk ==> Synced(db.sys)
    ensures old(db.writesDisabled) ==> db.sys == old(db.sys) && forall i :: 0 <= i < |burst| ==> results[i].Some?
    ensures !old(db.writesDisabled) && Healthy(envs) ==>
      forall i :: 0 <= i < |burst| ==> burst[i].CommitReq? || appended[i]
  {
    hide MemInv, Run, Session, Drives, Fits, Mirror, Next, Enabled, RecordOf, Handled, BurstFits, Appended;
    hide Replay, Effects, Effect, ApplyOps, Allows, AllAllowed, NeedsRotation;
    results, ts, labels := [], [], [];
    DrivesSelf(db.sys);
    DurableBound(db.sys);
    var appendedActive: seq<bool> := [];
    var anyActive := false;
    NothingHandled(burst);
    NoEffects(Replay(db.sys.hist));
    assert db.sys.hist + [] == db.sys.hist;
    assert |burst| > 0 ==> ClockRoom(db.lastTstamp, envs[0].now, |burst|);
    for i := 0 to |burst|
      invariant db.Valid() && db.sys.phase.Idle? && Drives(old(db.sys), labels, db.sys)
      invariant db.encBuf == old(db.encBuf) || fresh(db.encBuf)
      invariant |results| == |appendedActive| == |ts| == i && BurstFits(db.sys, burst, i)
      invariant Handled(burst, results, appendedActive, db.writesDisabled)
      invariant anyActive <==> true in appendedActive
      invariant old(db.sys.durable) <= db.sys.durable <= |db.sys.hist|
      invariant !anyActive ==> db.sys.hist == old(db.sys.hist)
      invariant db.sys.hist == old(db.sys.hist) + Appended(burst[..i], ts, appendedActive)
      invariant Replay(db.sys.hist) == Effects(old(Replay(db.sys.hist)), burst[..i], appendedActive)
      invariant AllowedIn(labels, envs)
      invariant 0 <= db.lastTstamp && (i < |burst| ==> db.lastTstamp <= MAX_TSTAMP - |burst| + i)
      invariant old(db.writesDisabled) ==> db.sys == old(db.sys) && db.writesDisabled && !anyActive
      invariant old(db.writesDisabled) ==> forall j :: 0 <= j < i ==> results[j].Some?
      invariant !old(db.writesDisabled) && Healthy(envs) ==>
        !db.writesDisabled && forall j :: 0 <= j < i ==> burst[j].CommitReq? || appendedActive[j]
    {
      ghost var more;
      ghost var s, wasOff := db.sys, db.writesDisabled;
      ghost var before := Replay(db.sys.hist);
      FitsHead(s, burst, i);
      var touched, err, t;
      touched, err, t, more := HandleOne(db, burst[i], envs[i]);
      DrivesOn(old(db.sys), labels, s, more, db.sys);
      FitsRest(s, db.sys, burst, i);
      HandledMore(burst, results, appendedActive, wasOff, err, touched, db.writesDisabled);
      AppendedMore(burst, ts, appendedActive, i, t, touched);
      HandledEffect(before, burst[i], touched, Replay(db.sys.hist));
      EffectsMore(old(Replay(db.sys.hist)), burst, appendedActive, i, touched);
      AllowedMore(labels, more, envs, i);
      results, appendedActive, ts, labels := results + [err], appendedActive + [touched], ts + [t], labels + more;
      anyActive := anyActive || touched;
    }
    assert burst[..|burst|] == burst;
    appended := appendedActive;
    AllHandled(burst, results, appended, db.writesDisabled);
    if anyActive && db.syncOnPut {
      if syncOk {
        labels := TakeSync(db, old(db.sys), labels);
      } else {
        results := Poison(results, appendedActive);
      }
    }
  }

  /** Every step is allowed by what the disk answered to some request. */
  ghost predicate AllowedIn(labels: seq<Label>, envs: seq<Env>) {
    forall l :: l in labels ==> exists i :: 0 <= i < |envs| && Allows(l, envs[i])
  }

  lemma AllowedMore(labels: seq<Label>, more: seq<Label>, envs: seq<Env>, i: nat)
    requires AllowedIn(labels, envs) && i < |envs| && AllAllowed(more, envs[i])
    ensures AllowedIn(labels + more, envs)
  {
    hide Allows;
  }

  lemma NoEffects(store: Store)
    ensures Effects(store, [], []) == store
  {
  }

  lemma HandledEffect(before: Store, req: Request, touched: bool, after: Store)
    requires !touched ==> after == before
    requires touched ==> !req.CommitReq?
    requires touched && req.PutReq? ==> after == before[req.key := req.value]
    requires touched && req.DeleteReq? ==> after == before - {req.key}
    requires touched && req.BatchReq? ==> after == ApplyOps(before, req.ops)
    ensures after == if touched then Effect(before, req) else before
  {
    hide ApplyOps;
  }

  lemma EffectsMore(store: Store, burst: seq<Request>, appended: seq<bool>, i: nat, touched: bool)
    requires i == |appended| < |burst|
    ensures Effects(store, burst[..i + 1], appended + [touched]) ==
      var before := Effects(store, burst[..i], appended); if touched then Effect(before, burst[i]) else before
  {
    hide Effect;
    assert burst[..i + 1][..i] == burst[..i] && (appended + [touched])[..i] == appended;
  }

  predicate Poisoned(results: seq<Option<WriteError>>, appended: seq<bool>, r: seq<Option<WriteError>>) {
    && |r| == |results| == |appended|
    && forall i :: 0 <= i < |r| ==> r[i] == if appended[i] then Some(FsyncFailed) else results[i]
  }

  /** A failing final sync is told to exactly the callers whose append depended on it. */
  method Poison(results: seq<Option<WriteError>>, appendedActive: seq<bool>) returns (r: seq<Option<WriteError>>)
    requires |results| == |appendedActive|
    ensures Poisoned(results, appendedActive, r)
  {
    r := results;
    for i := 0 to |results|
      invariant |r| == |results| && r[i..] == results[i..]
      invariant forall j :: 0 <= j < i ==> r[j] == if appendedActive[j] then Some(FsyncFailed) else results[j]
    {
      assert r[i] == r[i..][0] == results[i];
      if appendedActive[i] {
        r := r[i := Some(FsyncFailed)];
      }
      assert r[i + 1..] == results[i..][1..];
    }
  }

  ghost method TakeSync(db: DB, s0: Sys, labels0: seq<Label>) returns (labels: seq<Label>)
    requires db.Valid() && db.sys.phase.Idle? && Drives(s0, labels0, db.sys)
    modifies db`sys
    ensures db.Valid() && db.sys.phase.Idle? && Drives(s0, labels, db.sys)
    ensures db.sys.hist == old(db.sys.hist) && db.sys.durable == |db.sys.hist| && labels == labels0 + [SyncActive]
  {
    hide MemInv, Run, Session;
    Drive(s0, labels0, db.sys, SyncActive);
    db.sys, labels := Next(db.sys, SyncActive), labels0 + [SyncActive];
  }

  lemma NothingHandled(burst: seq<Request>)
    ensures forall off :: Handled(burst, [], [], off)
    ensures Appended([], [], []) == []
  {
  }

  lemma FitsHead(s: Sys, burst: seq<Request>, i: nat)
    requires BurstFits(s, burst, i) && i < |burst|
    ensures Fits(s, burst[i])
  {
  }

  lemma FitsRest(s: Sys, t: Sys, burst: seq<Request>, i: nat)
    requires BurstFits(s, burst, i) && i < |burst| && (t.pass == s.pass || burst[i].CommitReq?)
    ensures BurstFits(t, burst, i + 1)
  {
    hide Acceptable;
  }

  lemma HandledMore(burst: seq<Request>, results: seq<Option<WriteError>>, appended: seq<bool>, off: bool,
                    err: Option<WriteError>, touched: bool, off': bool)
    requires Handled(burst, results, appended, off) && |results| < |burst|
    requires touched <==> err.None? && !burst[|results|].CommitReq?
    requires (err == Some(WritesDisabled) <==> off') && err != Some(FsyncFailed) && (off ==> off')
    ensures Handled(burst, results + [err], appended + [touched], off')
  {
  }

  lemma AllHandled(burst: seq<Request>, results: seq<Option<WriteError>>, appended: seq<bool>, off: bool)
    requires Handled(burst, results, appended, off) && |results| == |burst|
    ensures Replied(burst, results, appended, true)
    ensures forall r :: Poisoned(results, appended, r) ==> Replied(burst, r, appended, false)
  {
  }

  lemma AppendedMore(burst: seq<Request>, ts: seq<int>, appended: seq<bool>, i: nat, t: int, touched: bool)
    requires i == |ts| == |appended| < |burst|
    requires touched ==> !burst[i].CommitReq?
    ensures Appended(burst[..i + 1], ts + [t], appended + [touched]) ==
      Appended(burst[..i], ts, appended) + if touched then [RecordOf(burst[i], t)] else []
  {
    assert burst[..i + 1][..i] == burst[..i];
  }
}
