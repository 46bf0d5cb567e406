/** What the history of a run consists of: the writes of its callers that survived, and nothing that recovery has
    invented, as far as a key is concerned that every step spares. */
module Histories {
  import opened Bytes
  import opened Wrappers
  import opened Record
  import opened Log
  import opened Keydirs
  import opened View
  import opened Compaction
  import opened Reopen
  import opened Engine
  import opened Refinement
  import opened Durability
  import opened CrashSafety

  // ---------------------------------------------------------------- what a recovery changes

  /** A repair writes each key the two maps differ on, and no other. */
  lemma {:induction false} RepairKeys(a: Store, b: Store, k: Key)
    ensures var log := Repair(a, b);
      && (forall i :: 0 <= i < |log| ==> log[i].flag == FLAG_PUT || log[i].flag == FLAG_TOMBSTONE)
      && (k in Differ(a, b) <==> exists i :: 0 <= i < |log| && log[i].key == k)
    decreases Differ(a, b)
  {
    if Differ(a, b) != {} {
      var log := Repair(a, b);
      RepairStep(a, b);
      RepairHead(a, b, k);
      RepairKeys(Applied(a, log[0]), b, k);
      assert forall i :: 0 < i < |log| ==> log[i] == log[1..][i - 1];
    }
  }

  lemma RepairHead(a: Store, b: Store, k: Key)
    requires Differ(a, b) != {}
    ensures Repair(a, b) != []
    ensures var r := Repair(a, b)[0]; k in Differ(a, b) <==> k == r.key || k in Differ(Applied(a, r), b)
  {
    var j :| j in Differ(a, b) && Repair(a, b) ==
      (var op := if j in b then Put(j, b[j]) else Delete(j);
       [if j in b then PutRecord(0, j, b[j]) else TombstoneRecord(0, j)] + Repair(Apply(a, op), b));
    var op := if j in b then Put(j, b[j]) else Delete(j);
    assert Differ(Apply(a, op), b) == Differ(a, b) - {j};
  }

  /** What Open takes the history for, and what it changes of it. */
  lemma OpenedHist(s: Sys, v: View, scan: seq<nat>, freshID: nat)
    requires Finds(s, v, scan)
    ensures var before := s.hist[..v.count]; var t := Opened(s, v, scan, freshID);
      t.hist == before + Repair(Replay(before), t.cur.store) && t.cur.store == Contents(v.segs, Reopened(scan, v.segs))
  {
    hide Reopened, Contents, Replay, Repair, SegsClock, LogSize;
  }

  /** Recovery changes the plain map at k exactly when it brings k back. */
  lemma StoreExactly(s: Sys, v: View, scan: seq<nat>, k: Key)
    requires Finds(s, v, scan) && Inv(s) && v in s.survivors && KeyInv(v, k)
    ensures k in Differ(v.store, Contents(v.segs, Reopened(scan, v.segs))) <==> !StaysGone(v, scan, k)
  {
    hide Inv, Dated, Reopened, ReadEntry, StaysGone, NewestAt, DeletedAt, At;
    SurvivorFacts(s, v);
    DatedValid(v, s.last);
    ReopenKeyExact(v, s.last, scan, k);
    if k in v.kd {
      AtReads(v.segs, k, v.kd[k], v.store[k]);
    }
    if k in Reopened(scan, v.segs) {
      var val := ReopenedNames(v.segs, scan, k);
      AtReads(v.segs, k, Reopened(scan, v.segs)[k], val);
    }
  }

  /** What recovery adds to the history has to do with k exactly when k is brought back. */
  lemma RepairExactly(s: Sys, v: View, scan: seq<nat>, freshID: nat, k: Key)
    requires Finds(s, v, scan) && Inv(s) && v in s.survivors && KeyInv(v, k)
    ensures var hist := Opened(s, v, scan, freshID).hist;
      && s.hist[..v.count] <= hist
      && (forall i :: v.count <= i < |hist| ==> hist[i].flag == FLAG_PUT || hist[i].flag == FLAG_TOMBSTONE)
      && ((exists i :: v.count <= i < |hist| && hist[i].key == k) <==> !StaysGone(v, scan, k))
  {
    hide Inv, Opened, KeyInv, StaysGone, Contents, Reopened, Replay, Repair, Differ;
    SurvivorFacts(s, v);
    OpenedHist(s, v, scan, freshID);
    StoreExactly(s, v, scan, k);
    var hist, n := Opened(s, v, scan, freshID).hist, v.count;
    var log := Repair(v.store, Contents(v.segs, Reopened(scan, v.segs)));
    RepairKeys(v.store, Contents(v.segs, Reopened(scan, v.segs)), k);
    assert hist == s.hist[..n] + log;
    assert forall i :: n <= i < |hist| ==> hist[i] == log[i - n];
    assert forall i :: 0 <= i < |log| ==> log[i] == hist[n + i];
  }

  /** A crash loses nothing but the end of the history and adds nothing to it exactly when no deleted key comes back. */
  lemma HistoryExactly(s: Sys, v: View, scan: seq<nat>, freshID: nat)
    requires Finds(s, v, scan) && Inv(s) && v in s.survivors && forall k :: KeyInv(v, k)
    ensures Opened(s, v, scan, freshID).hist == s.hist[..v.count] <==> NoneComesBack(v, scan)
  {
    hide Inv, Opened, KeyInv, StaysGone;
    SurvivorFacts(s, v);
    var hist := Opened(s, v, scan, freshID).hist;
    if NoneComesBack(v, scan) {
      if |hist| > v.count {
        RepairExactly(s, v, scan, freshID, hist[v.count].key);
      }
      RepairExactly(s, v, scan, freshID, []);
      assert hist == hist[..v.count];
    } else {
      var k :| !StaysGone(v, scan, k);
      RepairExactly(s, v, scan, freshID, k);
    }
  }

  // ---------------------------------------------------------------- the writes of the callers

  /** Which records of the history callers have written; the others recovery has added. */
  ghost function MarksAfter(marks: seq<bool>, s: Sys, l: Label): seq<bool>
    requires Enabled(s, l) && forall v :: v in s.survivors ==> v.count <= |s.hist|
  {
    if l.WriteRecord? then marks + [true]
    else if Reopens(l) then MarksCut(marks, l.found.count, |Next(s, l).hist|)
    else marks
  }

  /** The first n marks, and none up to size. */
  ghost function MarksCut(marks: seq<bool>, n: nat, size: nat): (after: seq<bool>)
    ensures |after| == size
  {
    seq(size, i => 0 <= i < n && i < |marks| && marks[i])
  }

  ghost function Marks(marks: seq<bool>, s: Sys, labels: seq<Label>): seq<bool>
    decreases |labels|
  {
    if labels == [] || !Enabled(s, labels[0]) || exists v :: v in s.survivors && v.count > |s.hist| then marks
    else Marks(MarksAfter(marks, s, labels[0]), Next(s, labels[0]), labels[1..])
  }

  /** The history without what recovery has added: the writes of the callers that survived, in order. */
  ghost function Written(hist: Log, marks: seq<bool>): Log {
    if hist == [] then [] else
      var n := |hist| - 1;
      Written(hist[..n], marks) + if n < |marks| && marks[n] then [hist[n]] else []
  }

  lemma {:induction false} WrittenCut(hist: Log, marks: seq<bool>, n: nat)
    requires n <= |hist|
    ensures Written(hist[..n], marks) <= Written(hist, marks)
  {
    if n == |hist| {
      assert hist[..n] == hist;
    } else {
      var m := |hist| - 1;
      WrittenCut(hist[..m], marks, n);
      assert hist[..m][..n] == hist[..n];
    }
  }

  /** What recovery adds is not the callers'. */
  lemma {:induction false} WrittenMore(hist: Log, marks: seq<bool>, after: Log)
    requires hist <= after
    ensures Written(after, MarksCut(marks, |hist|, |after|)) == Written(hist, marks)
    decreases |after|
  {
    if after == [] {
    } else if after == hist {
      WrittenSame(hist, marks, MarksCut(marks, |hist|, |after|));
    } else {
      var m := |after| - 1;
      WrittenMore(hist, marks, after[..m]);
      WrittenSame(after[..m], MarksCut(marks, |hist|, m), MarksCut(marks, |hist|, |after|));
      assert Written(after, MarksCut(marks, |hist|, |after|)) ==
        Written(after[..m], MarksCut(marks, |hist|, |after|)) + [];
    }
  }

  lemma {:induction false} WrittenSame(hist: Log, marks: seq<bool>, others: seq<bool>)
    requires forall i :: 0 <= i < |hist| ==> ((i < |marks| && marks[i]) <==> (i < |others| && others[i]))
    ensures Written(hist, marks) == Written(hist, others)
  {
    if hist != [] {
      WrittenSame(hist[..|hist| - 1], marks, others);
    }
  }

  lemma WrittenOne(hist: Log, marks: seq<bool>, r: Record)
    requires |marks| == |hist|
    ensures Written(hist + [r], marks + [true]) == Written(hist, marks) + [r]
  {
    assert (hist + [r])[..|hist|] == hist;
    WrittenSame(hist, marks, marks + [true]);
  }

  /** The writes of the callers that the history holds: one more with each write, what is left of them is a prefix after
      a crash, with all that were synced in it, and no other step touches them. */
  lemma WrittenStep(marks: seq<bool>, s: Sys, l: Label)
    requires Inv(s) && Enabled(s, l) && |marks| == |s.hist|
    ensures s.durable <= |s.hist| && forall v :: v in s.survivors ==> v.count <= |s.hist|
    ensures |MarksAfter(marks, s, l)| == |Next(s, l).hist|
    ensures var was, now := Written(s.hist, marks), Written(Next(s, l).hist, MarksAfter(marks, s, l));
      if l.WriteRecord? then now == was + [l.rec]
      else if l.CrashAndOpen? then Written(s.hist[..s.durable], marks) <= now <= was
      else now == was
  {
    hide Inv, Next, Enabled, Written, Replay;
    WrittenCounts(s);
    if Reopens(l) {
      WrittenReopen(marks, s, l);
    } else {
      HistGrows(s, l);
      if l.WriteRecord? {
        WrittenOne(s.hist, marks, l.rec);
      } else {
        assert s.hist + [] == s.hist;
      }
    }
  }

  lemma WrittenReopen(marks: seq<bool>, s: Sys, l: Label)
    requires Inv(s) && Enabled(s, l) && Reopens(l)
    requires s.durable <= |s.hist| && forall v :: v in s.survivors ==> v.count <= |s.hist|
    ensures var was, now := Written(s.hist, marks), Written(Next(s, l).hist, MarksAfter(marks, s, l));
      && Written(s.hist[..s.durable], marks) <= now <= was && (l.ExitAndOpen? ==> now == was)
  {
    hide Inv, Next, Enabled, Written, Replay, Opened, Resumed, Lists;
    Reopening(s, l);
    SurvivorFacts(s, l.found);
    ReopenedHist(s, l);
    var front, after := s.hist[..l.found.count], Next(s, l).hist;
    assert |front| == l.found.count;
    WrittenMore(front, marks, after);
    WrittenCut(s.hist, marks, l.found.count);
    WrittenCut(front, marks, s.durable);
    assert front[..s.durable] == s.hist[..s.durable];
    assert l.ExitAndOpen? ==> front == s.hist;
  }

  lemma WrittenCounts(s: Sys)
    requires Inv(s)
    ensures s.durable <= |s.hist| && forall v :: v in s.survivors ==> v.count <= |s.hist|
  {
    hide Sound, DiskInv, PassOk, PickOk, PhaseOk, Abandoned, SolidFull, Apart;
  }

  lemma ReopenedHist(s: Sys, l: Label)
    requires Inv(s) && Enabled(s, l) && Reopens(l) && Finds(s, l.found, l.scan)
    requires forall v :: v in s.survivors ==> v.count <= |s.hist|
    ensures s.hist[..l.found.count] <= Next(s, l).hist
    ensures Next(s, l).hist == Opened(s, l.found, l.scan, l.freshID).hist
  {
    hide Inv, Enabled, Next, Resumed, Opened, Replay, Lists;
    Reopening(s, l);
    OpenedHist(s, l.found, l.scan, l.freshID);
    if l.ExitAndOpen? {
      ResumedFields(s, l.found, l.scan, l.freshID);
    }
  }

  /** Nothing that recovery has added has to do with k. */
  ghost predicate Untouched(hist: Log, marks: seq<bool>, k: Key) {
    && |marks| == |hist|
    && forall i :: 0 <= i < |hist| && !marks[i] ==>
         (hist[i].flag == FLAG_PUT || hist[i].flag == FLAG_TOMBSTONE) && hist[i].key != k
  }

  ghost predicate Agree(a: Store, b: Store, k: Key) {
    (k in a <==> k in b) && (k in a ==> a[k] == b[k])
  }

  lemma {:induction false} OpsAgree(a: Store, b: Store, ops: seq<Op>, k: Key)
    requires Agree(a, b, k)
    ensures Agree(ApplyOps(a, ops), ApplyOps(b, ops), k)
  {
    if ops != [] {
      OpsAgree(a, b, ops[..|ops| - 1], k);
    }
  }

  /** So what the plain map holds at k comes from the callers' writes alone. */
  lemma {:induction false} WrittenAgrees(hist: Log, marks: seq<bool>, k: Key)
    requires forall i :: 0 <= i < |hist| && !(i < |marks| && marks[i]) ==>
      (hist[i].flag == FLAG_PUT || hist[i].flag == FLAG_TOMBSTONE) && hist[i].key != k
    ensures Agree(Replay(hist), Replay(Written(hist, marks)), k)
  {
    hide RecordOps;
    if hist != [] {
      var n := |hist| - 1;
      WrittenAgrees(hist[..n], marks, k);
      if n < |marks| && marks[n] {
        ReplayMore(Written(hist[..n], marks), hist[n]);
        OpsAgree(Replay(hist[..n]), Replay(Written(hist[..n], marks)), RecordOps(hist[n]), k);
      } else {
        OneOp(Replay(hist[..n]), hist[n]);
        assert Written(hist[..n], marks) + [] == Written(hist[..n], marks);
      }
    }
  }

  /** Marking what a restart has left, and what recovery adds to it, goes on as it should. */
  lemma UntouchedCut(hist: Log, marks: seq<bool>, n: nat, after: Log, k: Key)
    requires Untouched(hist, marks, k) && n <= |hist| && hist[..n] <= after
    requires forall i :: n <= i < |after| ==>
      (after[i].flag == FLAG_PUT || after[i].flag == FLAG_TOMBSTONE) && after[i].key != k
    ensures Untouched(after, MarksCut(marks, n, |after|), k)
  {
    assert forall i :: 0 <= i < n ==> after[i] == hist[i];
  }

  lemma MarksReopen(marks: seq<bool>, s: Sys, l: Label, k: Key)
    requires Safe(s, k) && Enabled(s, l) && Spares(s, l, k) && Untouched(s.hist, marks, k) && Reopens(l)
    requires forall v :: v in s.survivors ==> v.count <= |s.hist|
    ensures Untouched(Next(s, l).hist, MarksAfter(marks, s, l), k)
  {
    hide Safe, Enabled, Next, Untouched, Opened, Resumed, StaysGone, Replay, KeyInv, Inv;
    assert Inv(s) by { SafeInv(s, k); }
    Reopening(s, l);
    FoundKey(s, l.found, k);
    RepairExactly(s, l.found, l.scan, l.freshID, k);
    ReopenedHist(s, l);
    UntouchedCut(s.hist, marks, l.found.count, Next(s, l).hist, k);
  }

  lemma MarksStep(marks: seq<bool>, s: Sys, l: Label, k: Key)
    requires Safe(s, k) && Enabled(s, l) && Spares(s, l, k) && Untouched(s.hist, marks, k)
    requires forall v :: v in s.survivors ==> v.count <= |s.hist|
    ensures Untouched(Next(s, l).hist, MarksAfter(marks, s, l), k)
  {
    hide Safe, Next, Enabled, Spares;
    if Reopens(l) {
      MarksReopen(marks, s, l, k);
    } else {
      HistGrows(s, l);
    }
  }

  lemma {:induction false} MarksRun(marks: seq<bool>, s: Sys, labels: seq<Label>, k: Key)
    requires Safe(s, k) && SparingRun(s, labels, k) && Run(s, labels).Some? && Untouched(s.hist, marks, k)
    ensures Untouched(Run(s, labels).value.hist, Marks(marks, s, labels), k)
    decreases |labels|
  {
    hide Safe, Enabled, Next, Spares, Untouched, MarksAfter;
    if labels != [] {
      RunStep(s, labels);
      MarksStep(marks, s, labels[0], k);
      SafeStep(s, labels[0], k);
      MarksRun(MarksAfter(marks, s, labels[0]), Next(s, labels[0]), labels[1..], k);
    }
  }

  /** Refinement through crashes and restarts: in every run that spares k, Get answers for k as the plain map of the
      callers' own writes that survived, whatever recovery has made of other keys. */
  lemma KeyRefinesWrites(maxSize: nat, labels: seq<Label>, k: Key)
    requires SparingRun(Init(maxSize), labels, k) && Run(Init(maxSize), labels).Some?
    ensures var t := Run(Init(maxSize), labels).value; var marks := Marks([], Init(maxSize), labels);
      |marks| == |t.hist| && Get(t, k) == Lookup(Replay(Written(t.hist, marks)), k)
  {
    hide MemInv, DiskInv, Run, Get, Replay, Marks, SparingRun;
    InitSafe(maxSize, k);
    InitHist(maxSize);
    MarksRun([], Init(maxSize), labels, k);
    var t := Run(Init(maxSize), labels).value;
    EngineRefinesMap(maxSize, labels, k);
    WrittenAgrees(t.hist, Marks([], Init(maxSize), labels), k);
  }

  // ---------------------------------------------------------------- the plain reading of a run

  /** The writes of a run, cut at each crash to those that survived it. */
  ghost function Genuine(hist: Log, labels: seq<Label>): Log
    decreases |labels|
  {
    if labels == [] then hist
    else
      var l := labels[0];
      Genuine(if l.WriteRecord? then hist + [l.rec]
              else if l.CrashAndOpen? && l.found.count <= |hist| then hist[..l.found.count]
              else hist, labels[1..])
  }

  lemma GenuineReopen(s: Sys, l: Label)
    requires (forall k :: Safe(s, k)) && Enabled(s, l) && Prudent(s, l) && Reopens(l) && Finds(s, l.found, l.scan)
    requires forall v :: v in s.survivors ==> v.count <= |s.hist|
    ensures Next(s, l).hist == s.hist[..l.found.count]
  {
    hide Safe, Opened, Resumed, StaysGone, KeyInv, Enabled, Next, Inv, Replay;
    assert Inv(s) by { SafeInv(s, []); }
    assert NoneComesBack(l.found, l.scan) by { PrudentFinds(s, l); }
    Reopening(s, l);
    forall k ensures KeyInv(l.found, k) {
      assert Safe(s, k);
      FoundKey(s, l.found, k);
    }
    HistoryExactly(s, l.found, l.scan, l.freshID);
    ReopenedHist(s, l);
  }

  lemma PrudentFinds(s: Sys, l: Label)
    requires Prudent(s, l) && Reopens(l) && Finds(s, l.found, l.scan)
    ensures NoneComesBack(l.found, l.scan)
  {
    hide StaysGone;
  }

  lemma SafeInv(s: Sys, k: Key)
    requires Safe(s, k)
    ensures Inv(s)
  {
    hide Inv;
  }

  lemma GenuineStep(s: Sys, l: Label)
    requires (forall k :: Safe(s, k)) && Enabled(s, l) && Prudent(s, l)
    requires forall v :: v in s.survivors ==> v.count <= |s.hist|
    ensures Next(s, l).hist ==
      if l.WriteRecord? then s.hist + [l.rec]
      else if l.CrashAndOpen? && l.found.count <= |s.hist| then s.hist[..l.found.count]
      else s.hist
  {
    hide Safe, Enabled, Next, Prudent, Inv, Lists;
    if Reopens(l) {
      assert Inv(s) by { SafeInv(s, []); }
      Reopening(s, l);
      GenuineReopen(s, l);
      assert l.ExitAndOpen? ==> s.hist[..l.found.count] == s.hist;
    } else {
      HistGrows(s, l);
      assert s.hist + [] == s.hist;
    }
  }

  lemma FoundKey(s: Sys, v: View, k: Key)
    requires Safe(s, k) && v in s.survivors
    ensures KeyInv(v, k)
  {
    hide KeyInv, Inv, PassKey;
  }

  lemma {:induction false} GenuineRun(s: Sys, labels: seq<Label>)
    requires (forall k :: Safe(s, k)) && PrudentRun(s, labels) && Run(s, labels).Some?
    ensures Run(s, labels).value.hist == Genuine(s.hist, labels)
    decreases |labels|
  {
    hide Safe, Enabled, Next, Prudent;
    if labels != [] {
      var l := labels[0];
      RunStep(s, labels);
      GenuineStep(s, l);
      forall k ensures Safe(Next(s, l), k) {
        PrudentSpares(s, l, k);
        SafeStep(s, l, k);
      }
      GenuineRun(Next(s, l), labels[1..]);
    }
  }

  /** In a run whose commits are prudent and whose restarts bring nothing back, through any number of crashes, Get
      answers for every key as the plain map of the writes that survived. */
  lemma PrudentRefinesWrites(maxSize: nat, labels: seq<Label>, k: Key)
    requires PrudentRun(Init(maxSize), labels) && Run(Init(maxSize), labels).Some?
    ensures Get(Run(Init(maxSize), labels).value, k) == Lookup(Replay(Genuine([], labels)), k)
  {
    hide Safe, Run, Get, Replay, PrudentRun, Genuine;
    forall j ensures Safe(Init(maxSize), j) {
      InitSafe(maxSize, j);
    }
    InitHist(maxSize);
    GenuineRun(Init(maxSize), labels);
    EngineRefinesMap(maxSize, labels, k);
  }

  lemma InitHist(maxSize: nat)
    ensures Init(maxSize).hist == []
  {
  }
}
