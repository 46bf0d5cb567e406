/** The running engine refines a plain map, under every interleaving of the writer with a compaction pass. */
module Refinement {
  import opened Bytes
  import opened Wrappers
  import opened Record
  import opened Log
  import opened Keydirs
  import opened View
  import opened Compaction
  import opened Reopen
  import opened Engine

  /** Get: look the key up, and read that many bytes at that place. */
  ghost function Get(s: Sys, k: Key): Option<Value> {
    if k in s.cur.kd then ReadEntry(s.cur.segs, s.cur.kd[k]) else None
  }

  function Lookup(store: Store, k: Key): Option<Value> {
    if k in store then Some(store[k]) else None
  }

  ghost predicate PassOk(s: Sys) {
    s.pass.Some? ==>
      && PassInv(s.cur, s.pass.value) && s.pass.value.mid < s.nextID && s.pass.value.cands != {}
      && (s.pass.value.ready ==> s.pass.value.todo == [])
  }

  /** A pass without an id is as good under the next free one as it was when it chose its inputs. */
  ghost predicate PickOk(s: Sys) {
    s.picked.Some? ==>
      var c := s.picked.value.(mid := s.nextID);
      s.pass.None? && PassInv(s.cur, c) && c.cands != {} && c.merged == [] && c.rewrites == [] && !c.ready
  }

  ghost predicate PhaseOk(s: Sys) {
    match s.phase
    case Rotating(n, _) => n < s.nextID && n !in s.cur.segs && (s.pass.Some? ==> n != s.pass.value.mid)
    case RotationRenamed(n) => n < s.nextID && n !in s.cur.segs && (s.pass.Some? ==> n != s.pass.value.mid)
    case Committing(_) => s.pass.Some? && s.pass.value.ready
    case CommitRenamed => s.pass.Some? && s.pass.value.ready
    case _ => true
  }

  ghost predicate MemInv(s: Sys) {
    && Sound(s.cur, s.last)
    && (forall i :: i in s.cur.segs ==> i < s.nextID)
    && s.cur.count == |s.hist| && s.cur.store == Replay(s.hist) && s.durable <= |s.hist|
    && (forall v :: v in s.survivors ==> v.count <= |s.hist|)
    && PassOk(s) && PickOk(s) && PhaseOk(s)
  }

  lemma InitMem(maxSize: nat)
    ensures MemInv(Init(maxSize))
  {
    var s := Init(maxSize);
    assert LogItems([]) == [];
  }

  lemma MemActive(s: Sys)
    requires MemInv(s)
    ensures s.cur.active in s.cur.segs
  {
  }

  lemma MemWrite(s: Sys, r: Record)
    requires MemInv(s) && Enabled(s, WriteRecord(r))
    ensures MemInv(Next(s, WriteRecord(r)))
  {
    hide Sound, PassCore, Reaches, LogItems, RecordItems, ValidRecord, PublishAll, ApplyAll, LogSize;
    WriteSound(s.cur, s.last, r);
    WriteReplays(s.cur, r, s.hist);
    if s.pass.Some? {
      WritePassKeeps(s.cur, s.last, s.pass.value, r);
    }
    if s.picked.Some? {
      WritePassKeeps(s.cur, s.last, s.picked.value.(mid := s.nextID), r);
    }
  }

  lemma MemBeginRotation(s: Sys)
    requires MemInv(s) && Enabled(s, BeginRotation)
    ensures MemInv(Next(s, BeginRotation))
  {
    hide Sound, PassCore, Reaches, LogItems, Replay;
    if s.picked.Some? {
      assert s.nextID + 1 !in s.cur.segs;
      Renumber(s.cur, s.picked.value.(mid := s.nextID), s.nextID + 1);
    }
  }

  lemma MemRotation(s: Sys)
    requires MemInv(s) && Enabled(s, FinishRotation)
    ensures MemInv(Next(s, FinishRotation))
  {
    hide Sound, PassInv, Replay;
    RotateSound(s.cur, s.phase.next, s.last);
    if s.pass.Some? {
      RotatePassKeeps(s.cur, s.last, s.pass.value, s.phase.next);
    }
    if s.picked.Some? {
      RotatePassKeeps(s.cur, s.last, s.picked.value.(mid := s.nextID), s.phase.next);
    }
  }

  lemma MemScan(s: Sys)
    requires MemInv(s) && Enabled(s, Scan)
    ensures MemInv(Next(s, Scan))
  {
    hide Sound, PassCore, Reaches, LogItems, RecordItems, ValidRecord, Replay, ScanOne;
    var c := s.pass.value;
    ScanKeeps(s.cur, s.last, c);
    ScanFields(s.cur.kd, c);
    MarksKeep(s.cur, ScanOne(s.cur.kd, c), s.cur.count, c.ready);
  }

  lemma ScanFields(kd: Keydir, c: Pass)
    requires c.todo != []
    ensures var d := ScanOne(kd, c);
      d.mid == c.mid && d.cands == c.cands && d.ready == c.ready && d.seen == c.seen && d.cut == c.cut
  {
  }

  lemma MemSyncMerged(s: Sys)
    requires MemInv(s) && Enabled(s, SyncMerged)
    ensures MemInv(Next(s, SyncMerged))
  {
    hide Sound, PassCore, Reaches, LogItems, RecordItems, ValidRecord, Replay;
    MarksKeep(s.cur, s.pass.value, s.pass.value.seen, true);
  }

  lemma MemSnapshot(s: Sys, order: seq<nat>)
    requires MemInv(s) && Enabled(s, Snapshot(order))
    ensures MemInv(Next(s, Snapshot(order)))
  {
    hide Sound, PassCore, Reaches, Start, Replay;
    SnapshotStarts(s, order);
    var t := Next(s, Snapshot(order));
    var c := Start(s.cur, order, s.nextID);
    assert t.picked == Some(c) && c.(mid := t.nextID) == c;
  }

  lemma SnapshotStarts(s: Sys, order: seq<nat>)
    requires MemInv(s) && Enabled(s, Snapshot(order))
    ensures forall i :: 0 <= i < |order| ==> order[i] in s.cur.segs
    ensures var c := Start(s.cur, order, s.nextID);
      PassInv(s.cur, c) && c.mid == s.nextID && c.cands != {} && c.merged == [] && c.rewrites == [] && !c.ready
  {
    hide Sound, PassCore, Reaches, Start;
    MemActive(s);
    assert s.nextID !in s.cur.segs;
    StartPass(s.cur, s.last, order, s.nextID);
    StartFields(s.cur, order, s.nextID);
    assert order[0] in s.cur.segs.Keys - {s.cur.active};
  }

  lemma StartFields(v: View, order: seq<nat>, mid: nat)
    requires forall i :: 0 <= i < |order| ==> order[i] in v.segs
    ensures var c := Start(v, order, mid);
      c.mid == mid && !c.ready && c.seen == v.count && c.rewrites == [] && c.merged == []
      && c.cands == v.segs.Keys - {v.active} && c.cut == v.seal
  {
  }

  lemma MemTakeId(s: Sys)
    requires MemInv(s) && Enabled(s, TakeId)
    ensures MemInv(Next(s, TakeId))
  {
    hide Sound, PassInv, Replay;
  }

  lemma MemCommit(s: Sys, l: Label)
    requires MemInv(s) && Enabled(s, l) && (l.FinishCommit? || l.FinishCommitUncertain?)
    ensures MemInv(Next(s, l))
  {
    hide Sound, PassInv, Replay, Commit, LogItems, ValidRecord;
    CommitSound(s.cur, s.last, s.pass.value);
    CommitFields(s.cur, s.pass.value);
    assert s.pass.value.mid < s.nextID;
  }

  lemma CommitFields(v: View, c: Pass)
    ensures var w := Commit(v, c);
      w.count == v.count && w.store == v.store && forall i :: i in w.segs ==> i in v.segs || i == c.mid
  {
    hide SwapAll;
  }

  lemma MemQuiet(s: Sys, l: Label)
    requires MemInv(s) && Enabled(s, l)
    requires !l.WriteRecord? && !l.BeginRotation? && !l.FinishRotation? && !l.Snapshot? && !l.TakeId? && !l.Scan?
    requires !l.SyncMerged? && !l.FinishCommit? && !l.FinishCommitUncertain? && !Reopens(l)
    ensures MemInv(Next(s, l))
  {
    hide Sound, PassInv, LogItems, RecordItems, ValidRecord, SwapAll, Replay;
  }

  /** Every step of a session keeps the running engine's invariant, however the writer and the compactor interleave
      and whatever the syncs and manifest renames return. */
  lemma MemStep(s: Sys, l: Label)
    requires MemInv(s) && Enabled(s, l) && !Reopens(l)
    ensures MemInv(Next(s, l))
  {
    hide MemInv, Next, Enabled;
    match l
    case WriteRecord(r) => MemWrite(s, r);
    case BeginRotation => MemBeginRotation(s);
    case FinishRotation => MemRotation(s);
    case Snapshot(order) => MemSnapshot(s, order);
    case TakeId => MemTakeId(s);
    case Scan => MemScan(s);
    case SyncMerged => MemSyncMerged(s);
    case FinishCommit => MemCommit(s, l);
    case FinishCommitUncertain => MemCommit(s, l);
    case _ => MemQuiet(s, l);
  }

  /** What Get reads is what the plain map holds. */
  lemma GetReads(s: Sys, k: Key)
    requires MemInv(s)
    ensures Get(s, k) == Lookup(s.cur.store, k)
  {
    hide ReadEntry, Timed;
    assert LocatedAt(s.cur, k);
    if k in s.cur.kd {
      EntryReads(s.cur, s.last, k);
    }
  }

  // ---------------------------------------------------------------- whole runs

  /** The state after a list of steps, where each is enabled when its turn comes. */
  ghost function Run(s: Sys, labels: seq<Label>): Option<Sys>
    decreases |labels|
  {
    if labels == [] then Some(s)
    else if Enabled(s, labels[0]) && (forall v :: v in s.survivors ==> v.count <= |s.hist|) then
      Run(Next(s, labels[0]), labels[1..])
    else None
  }

  /** A run without a crash. */
  ghost predicate Session(labels: seq<Label>) {
    forall i :: 0 <= i < |labels| ==> !Reopens(labels[i])
  }

  /** The writes of a run, in order. */
  ghost function Writes(labels: seq<Label>): Log {
    if labels == [] then []
    else (if labels[0].WriteRecord? then [labels[0].rec] else []) + Writes(labels[1..])
  }

  lemma RunStep(s: Sys, labels: seq<Label>)
    requires labels != [] && Run(s, labels).Some?
    ensures Enabled(s, labels[0]) && (forall v :: v in s.survivors ==> v.count <= |s.hist|)
    ensures Run(Next(s, labels[0]), labels[1..]) == Run(s, labels)
    ensures Writes(labels) == (if labels[0].WriteRecord? then [labels[0].rec] else []) + Writes(labels[1..])
  {
    hide Enabled, Next;
  }

  lemma {:induction false} RunKeeps(s: Sys, labels: seq<Label>)
    requires MemInv(s) && Session(labels) && Run(s, labels).Some?
    ensures MemInv(Run(s, labels).value)
    ensures Run(s, labels).value.hist == s.hist + Writes(labels)
    decreases |labels|
  {
    hide MemInv, Enabled, Next;
    if labels == [] {
      assert s.hist + Writes(labels) == s.hist;
    } else {
      RunStep(s, labels);
      MemStep(s, labels[0]);
      HistGrows(s, labels[0]);
      var t := Next(s, labels[0]);
      RunKeeps(t, labels[1..]);
      var now := if labels[0].WriteRecord? then [labels[0].rec] else [];
      assert s.hist + now + Writes(labels[1..]) == s.hist + (now + Writes(labels[1..]));
    }
  }

  lemma HistGrows(s: Sys, l: Label)
    requires Enabled(s, l) && !Reopens(l) && forall v :: v in s.survivors ==> v.count <= |s.hist|
    ensures Next(s, l).hist == s.hist + if l.WriteRecord? then [l.rec] else []
  {
    hide ScanOne, Start, Write, Rotate, Commit;
  }

  /** Refinement within a session: from any state the engine can be in, Get answers for every key as the plain map of
      that state does after the run's writes, in order and nothing else; no compaction, rotation or sync step is
      visible. */
  lemma SessionRefinesMap(s: Sys, labels: seq<Label>, k: Key)
    requires MemInv(s) && Session(labels) && Run(s, labels).Some?
    ensures Get(Run(s, labels).value, k) == Lookup(Replay(s.hist + Writes(labels)), k)
  {
    hide MemInv, Enabled, Run, Get, Replay;
    RunKeeps(s, labels);
    var t := Run(s, labels).value;
    GetReads(t, k);
    MemStore(t);
  }

  lemma MemStore(s: Sys)
    requires MemInv(s)
    ensures s.cur.store == Replay(s.hist)
  {
  }

  /** labels takes s to t without a crash. */
  ghost predicate Leads(s: Sys, labels: seq<Label>, t: Sys) {
    Session(labels) && Run(s, labels) == Some(t) && MemInv(s)
  }

  lemma {:induction false} RunConcat(s: Sys, a: seq<Label>, b: seq<Label>)
    requires Run(s, a).Some?
    ensures Run(s, a + b) == Run(Run(s, a).value, b)
    decreases |a|
  {
    hide Enabled, Next;
    if a == [] {
      assert a + b == b;
    } else {
      RunStep(s, a);
      RunConcat(Next(s, a[0]), a[1..], b);
      assert (a + b)[1..] == a[1..] + b;
    }
  }

  lemma OneMoreStep(s: Sys, labels: seq<Label>, t: Sys, l: Label)
    requires Run(s, labels) == Some(t) && Enabled(t, l) && forall v :: v in t.survivors ==> v.count <= |t.hist|
    ensures Run(s, labels + [l]) == Some(Next(t, l))
  {
    hide Enabled, Next;
    RunConcat(s, labels, [l]);
    assert [l][1..] == [];
    assert Run(t, [l]) == Run(Next(t, l), [l][1..]);
  }

  lemma Extend(s: Sys, labels: seq<Label>, t: Sys, l: Label)
    requires Leads(s, labels, t) && Enabled(t, l) && !Reopens(l)
    ensures MemInv(t) && (forall v :: v in t.survivors ==> v.count <= |t.hist|)
    ensures Leads(s, labels + [l], Next(t, l)) && MemInv(Next(t, l))
  {
    hide Enabled, Next, Sound, PassOk, PickOk, PhaseOk, Replay;
    RunKeeps(s, labels);
    RunConcat(s, labels, [l]);
    assert Run(t, [l]) == Run(Next(t, l), [l][1..]);
    MemStep(t, l);
  }

  lemma LeadsSelf(s: Sys)
    requires MemInv(s)
    ensures Leads(s, [], s)
  {
    hide Enabled, Next, MemInv;
  }
}
