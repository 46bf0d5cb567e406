/** Runs that show where two promises end: a deleted key that Open brings back, and a synced put that a commit
    drops in favour of a record the crash then loses. */
module Scenarios {
  import opened Bytes
  import opened Wrappers
  import opened Record
  import opened Log
  import opened Keydirs
  import opened View
  import opened Compaction
  import opened Reopen
  import opened Engine
  import opened Refinement
  import opened Durability
  import opened CrashSafety

  /** The four steps of a rotation that goes well. */
  lemma RotateOnce(s0: Sys, labels: seq<Label>, s: Sys) returns (more: seq<Label>, t: Sys)
    requires Leads(s0, labels, s) && s.phase.Idle? && !s.disabled
    requires s.cur in s.survivors && s.gen == s.cur.gen && s.cur.count == |s.hist|
    ensures Leads(s0, more, t) && t.phase.Idle? && !t.disabled && t.pass == s.pass && t.picked == s.picked
    ensures t.cur in t.survivors && t.gen == t.cur.gen
    ensures t.cur == Rotate(s.cur, s.nextID, s.last) && t.nextID == s.nextID + 1 && t.last == s.last
    ensures t.hist == s.hist && t.durable == |s.hist| && t.maxSize == s.maxSize
  {
    hide MemInv, Run, Session;
    Extend(s0, labels, s, BeginRotation);
    var s1 := Next(s, BeginRotation);
    var l1 := labels + [BeginRotation];
    Extend(s0, l1, s1, SyncDirForRotation);
    var s2 := Next(s1, SyncDirForRotation);
    var l2 := l1 + [SyncDirForRotation];
    Extend(s0, l2, s2, RenameForRotation);
    var s3 := Next(s2, RenameForRotation);
    assert Rotate(s.cur, s.nextID, s.last) in s3.survivors by {
      assert s.cur in s1.survivors && s.cur in s2.survivors;
    }
    var l3 := l2 + [RenameForRotation];
    Extend(s0, l3, s3, FinishRotation);
    more, t := l3 + [FinishRotation], Next(s3, FinishRotation);
  }

  /** One put, then two rotations: the smallest engine with something to compact. */
  lemma PutAndRotateTwice(maxSize: nat, k: Key, val: Value) returns (labels: seq<Label>, s: Sys)
    requires ValidKey(k) && |val| <= MAX_VAL_LEN
    ensures Leads(Init(maxSize), labels, s) && s.phase.Idle? && !s.disabled && s.pass.None? && s.picked.None?
    ensures s.cur.segs == map[0 := [PutRecord(1, k, val)], 1 := [], 2 := []] && s.cur.active == 2
    ensures s.cur.kd == map[k := Entry(0, HEADER_SIZE + |k|, |val|, 1)]
    ensures s.nextID == 3 && s.last == 1 && s.hist == [PutRecord(1, k, val)] && s.durable == 1
    ensures s.cur in s.survivors && s.gen == s.cur.gen && s.cur.count == 1 && s.maxSize == maxSize
  {
    hide MemInv, Run, RecordItems;
    var r := PutRecord(1, k, val);
    var s0 := Init(maxSize);
    InitMem(maxSize);
    assert Leads(s0, [], s0) by { InitLeads(maxSize); }
    Extend(s0, [], s0, WriteRecord(r));
    var s1 := Next(s0, WriteRecord(r));
    WrittenItems(1, k, val, [], 0);
    var item := Item(Put(k, val), HEADER_SIZE + |k|, 1);
    assert PublishAll(map[], 0, [item]) == map[k := EntryOf(0, item)] by {
      assert [item][..0] == [];
    }
    assert [] + [r] == [r];
    assert s1.cur.segs == map[0 := [r]];
    var l2, s2 := RotateOnce(s0, [] + [WriteRecord(r)], s1);
    labels, s := RotateOnce(s0, l2, s2);
  }

  lemma InitLeads(maxSize: nat)
    ensures Leads(Init(maxSize), [], Init(maxSize))
  {
    hide Enabled, Next;
    InitMem(maxSize);
  }

  lemma ItemsOfOne(r: Record, k: Key, op: Op)
    requires (r == PutRecord(r.tstamp, k, r.value) && op == Put(k, r.value))
             || (r == TombstoneRecord(r.tstamp, k) && op == Delete(k))
    ensures LogItems([r]) == [Item(op, HEADER_SIZE + |k|, r.tstamp)]
  {
    WrittenItems(r.tstamp, k, r.value, [], 0);
    assert [r][..0] == [];
    assert LogItems([]) == [] && LogSize([]) == 0;
  }

  lemma TaggedPair(i: nat, j: nat, segs: Segs)
    requires i in segs && j in segs
    ensures Tagged([i, j], segs) == Tag(i, LogItems(segs[i])) + Tag(j, LogItems(segs[j]))
  {
    hide LogItems;
    assert [i, j][..1] == [i] && [i][..0] == [];
    assert Tagged([i], segs) == Tagged([], segs) + Tag(i, LogItems(segs[i]));
  }

  /** v is a view that a crash may leave with the manifest renamed last. */
  ghost predicate MaySurvive(s: Sys, v: View) {
    v in s.survivors && v.gen == s.gen
  }

  /** A whole pass over segments 0 and 1, up to where the writer takes it, with nothing written in between. */
  lemma PassTwo(s0: Sys, labels: seq<Label>, s: Sys, v: View) returns (more: seq<Label>, t: Sys, c: Pass)
    requires Leads(s0, labels, s) && s.phase.Idle? && !s.disabled && s.pass.None? && s.picked.None?
    requires s.cur.segs.Keys == {0, 1, 2} && s.cur.active == 2 && |Tagged([0, 1], s.cur.segs)| == 1
    ensures c == ScanOne(s.cur.kd, Start(s.cur, [0, 1], s.nextID)).(seen := s.cur.count, ready := true)
    ensures Leads(s0, more, t) && t.phase == Committing(c.rewrites == []) && !t.disabled
    ensures t.pass == Some(c) && t.cur == s.cur
    ensures c.cands == {0, 1} && t.gen == s.gen
    ensures t.last == s.last && t.maxSize == s.maxSize && t.hist == s.hist && t.durable == s.durable
    ensures MaySurvive(s, v) ==> MaySurvive(t, v)
  {
    hide MemInv, Run, Session, Tagged, Commit;
    Extend(s0, labels, s, Snapshot([0, 1]));
    var p1 := Next(s, Snapshot([0, 1]));
    var k1 := labels + [Snapshot([0, 1])];
    StartFields(s.cur, [0, 1], s.nextID);
    Extend(s0, k1, p1, TakeId);
    var s1 := Next(p1, TakeId);
    var l1 := k1 + [TakeId];
    Extend(s0, l1, s1, Scan);
    var s2 := Next(s1, Scan);
    var l2 := l1 + [Scan];
    assert s2.pass.value.todo == [];
    Extend(s0, l2, s2, SyncMerged);
    var s3 := Next(s2, SyncMerged);
    var l3 := l2 + [SyncMerged];
    c := s3.pass.value;
    Extend(s0, l3, s3, BeginCommit);
    more, t := l3 + [BeginCommit], Next(s3, BeginCommit);
  }

  /** The commit, from the writer taking it up to the rename of its manifest. */
  lemma RenameTwo(s0: Sys, labels: seq<Label>, s: Sys, v: View) returns (more: seq<Label>, t: Sys)
    requires Leads(s0, labels, s) && !s.disabled && s.pass.Some? && s.phase == Committing(s.pass.value.rewrites == [])
    ensures Leads(s0, more, t) && !t.disabled && t.pass == s.pass && t.phase.CommitRenamed? && t.cur == s.cur
    ensures t.last == s.last && t.maxSize == s.maxSize && t.hist == s.hist && t.durable == s.durable
    ensures t.gen == s.gen + 1
    ensures MaySurvive(s, v) ==> v in t.survivors && MaySurvive(t, Commit(v, s.pass.value))
  {
    hide MemInv, Run, Session, Commit;
    assert Commit(v, s.pass.value).gen == v.gen + 1 by { CommitHasFields(v, s.pass.value); }
    var l1, s1 := labels, s;
    if !s.phase.dirSynced {
      Extend(s0, labels, s, SyncDirForCommit);
      l1, s1 := labels + [SyncDirForCommit], Next(s, SyncDirForCommit);
    }
    Extend(s0, l1, s1, RenameForCommit);
    more, t := l1 + [RenameForCommit], Next(s1, RenameForCommit);
  }

  /** That pass, committed and cleaned up. */
  lemma CompactTwo(s0: Sys, labels: seq<Label>, s: Sys, v: View) returns (more: seq<Label>, t: Sys, c: Pass)
    requires Leads(s0, labels, s) && s.phase.Idle? && !s.disabled && s.pass.None? && s.picked.None?
    requires s.cur.segs.Keys == {0, 1, 2} && s.cur.active == 2 && |Tagged([0, 1], s.cur.segs)| == 1
    ensures c == ScanOne(s.cur.kd, Start(s.cur, [0, 1], s.nextID)).(seen := s.cur.count, ready := true)
    ensures Leads(s0, more, t) && t.phase.Idle? && !t.disabled && t.pass.None? && t.cur == Commit(s.cur, c)
    ensures t.last == s.last && t.maxSize == s.maxSize && t.hist == s.hist && t.durable == s.durable
    ensures MaySurvive(s, v) ==> MaySurvive(t, Commit(v, c))
  {
    hide MemInv, Run, Session, Tagged, Commit, ScanOne, Start;
    var l1, s1;
    l1, s1, c := PassTwo(s0, labels, s, v);
    var l2, s2 := RenameTwo(s0, l1, s1, v);
    Extend(s0, l2, s2, FinishCommit);
    more, t := UnlinkTwo(s0, l2 + [FinishCommit], Next(s2, FinishCommit));
  }

  lemma UnlinkTwo(s0: Sys, labels: seq<Label>, s: Sys) returns (more: seq<Label>, t: Sys)
    requires Leads(s0, labels, s) && s.phase == Retiring({0, 1})
    ensures Leads(s0, more, t) && t.phase.Idle? && t.disabled == s.disabled && t.pass == s.pass && t.cur == s.cur
    ensures t.last == s.last && t.maxSize == s.maxSize && t.hist == s.hist && t.durable == s.durable
    ensures t.survivors == s.survivors && t.gen == s.gen
  {
    hide MemInv, Run, Session, Commit;
    Extend(s0, labels, s, Unlink(0));
    var s1 := Next(s, Unlink(0));
    assert s1.phase == Retiring({1}) by { assert {0, 1} - {0} == {1}; }
    Extend(s0, labels + [Unlink(0)], s1, Unlink(1));
    more, t := labels + [Unlink(0)] + [Unlink(1)], Next(s1, Unlink(1));
  }

  lemma CommitPicture(v: View, c: Pass)
    requires v.segs.Keys == {0, 1, 2} && c.cands == {0, 1} && c.mid == 3
    ensures Commit(v, c).segs == if c.rewrites == [] then map[2 := v.segs[2]] else map[2 := v.segs[2], 3 := c.merged]
    ensures Commit(v, c).active == v.active
  {
  }

  /** A tombstone scanned before the put it should hide hides nothing. */
  lemma BackAgain(k: Key, items: seq<TItem>)
    requires |items| == 2 && items[0].item.op == Delete(k)
    requires items[1].item.op.Put? && items[1].item.op.key == k
    ensures k in Recover(map[], items)
  {
    assert Bare(items, k, 1);
    KeysRecovered(items, k);
  }

  lemma DeletedNow(kd: Keydir, id: nat, item: Item)
    requires item.op.Delete?
    ensures item.op.key !in PublishAll(kd, id, [item])
  {
    assert [item][..0] == [];
  }

  /** The put of a run that then compacts it: its record is in segment 3, behind the active segment 2. */
  lemma PutAndCompact(maxSize: nat, k: Key, val: Value) returns (labels: seq<Label>, s: Sys)
    requires ValidKey(k) && |val| <= MAX_VAL_LEN
    ensures Leads(Init(maxSize), labels, s) && s.phase.Idle? && !s.disabled && s.pass.None? && s.last == 1
    ensures s.cur.segs == map[2 := [], 3 := [PutRecord(1, k, val)]] && s.cur.active == 2
  {
    hide Leads, RecordItems, Commit, LogItems;
    var l1, s1 := PutAndRotateTwice(maxSize, k, val);
    var put := PutRecord(1, k, val);
    ItemsOfOne(put, k, Put(k, val));
    TaggedPair(0, 1, s1.cur.segs);
    NoItems();
    var c;
    labels, s, c := CompactTwo(Init(maxSize), l1, s1, s1.cur);
    var x := TItem(0, Item(Put(k, val), HEADER_SIZE + |k|, 1));
    assert Tagged([0, 1], s1.cur.segs)[0] == x;
    assert Live(s1.cur.kd, x);
    assert [] + [put] == [put];
    CommitPicture(s1.cur, c);
  }

  lemma NoItems()
    ensures LogItems([]) == [] && LogSize([]) == 0
  {
  }

  /** Put, compact, delete, reopen: for every key and value, in a run where every step goes well, the engine answers
      not found, and the keydir that Open rebuilds from its segments has the key again. */
  lemma DeletedKeyComesBack(maxSize: nat, k: Key, val: Value) returns (labels: seq<Label>, s: Sys)
    requires ValidKey(k) && |val| <= MAX_VAL_LEN
    ensures Session(labels) && Run(Init(maxSize), labels) == Some(s) && s.phase.Idle? && s.pass.None?
    ensures Get(s, k) == None
    ensures Lists([2, 3], s.cur.segs.Keys) && k in Reopened([2, 3], s.cur.segs)
  {
    hide MemInv, Run, Session, RecordItems, LogItems, ReadEntry;
    var l, u := PutAndCompact(maxSize, k, val);
    var tomb := TombstoneRecord(2, k);
    Extend(Init(maxSize), l, u, WriteRecord(tomb));
    s, labels := Next(u, WriteRecord(tomb)), l + [WriteRecord(tomb)];
    assert [] + [tomb] == [tomb];
    assert s.cur.segs == map[2 := [tomb], 3 := [PutRecord(1, k, val)]];
    NoItems();
    WrittenItems(2, k, val, [], 0);
    DeletedNow(u.cur.kd, 2, Item(Delete(k), HEADER_SIZE + |k|, 2));
    ItemsOfOne(tomb, k, Delete(k));
    ItemsOfOne(PutRecord(1, k, val), k, Put(k, val));
    TaggedPair(2, 3, s.cur.segs);
    BackAgain(k, Tagged([2, 3], s.cur.segs));
  }

  /** And after the restart the engine serves it. */
  lemma DeletedKeyServed(maxSize: nat, k: Key, val: Value) returns (labels: seq<Label>, s: Sys, t: Sys)
    requires ValidKey(k) && |val| <= MAX_VAL_LEN
    ensures Session(labels) && Run(Init(maxSize), labels) == Some(s) && Get(s, k) == None
    ensures Run(Init(maxSize), labels + [CrashAndOpen(s.cur, [2, 3], 4)]) == Some(t) && Get(t, k).Some?
  {
    hide MemInv, Run, Session, DiskInv, Opened, Get, Next, Reopened;
    labels, s := DeletedKeyComesBack(maxSize, k, val);
    var crash := CrashAndOpen(s.cur, [2, 3], 4);
    Reached(maxSize, labels);
    CurrentSurvives(s);
    assert Enabled(s, crash);
    t := Next(s, crash);
    OneMoreStep(Init(maxSize), labels, s, crash);
    InvStep(s, crash);
    OpenedHas(s, s.cur, [2, 3], 4, k);
    GetReads(t, k);
    SoundKeys(t, k);
  }

  lemma OpenedHas(s: Sys, v: View, order: seq<nat>, freshID: nat, k: Key)
    requires Enabled(s, CrashAndOpen(v, order, freshID)) && (forall v :: v in s.survivors ==> v.count <= |s.hist|)
    requires k in Reopened(order, v.segs)
    ensures k in Next(s, CrashAndOpen(v, order, freshID)).cur.kd
  {
    hide Reopened, Contents, Repair, Replay, SegsClock, LogSize;
  }

  lemma SoundKeys(s: Sys, k: Key)
    requires MemInv(s)
    ensures k in s.cur.kd <==> k in s.cur.store
  {
    assert LocatedAt(s.cur, k);
  }

  /** Put, sync, overwrite, compact, crash: when the overwrite has not been synced before the compactor meets the old
      record, the old record is dropped as dead, and the crash that loses the overwrite leaves neither. The view v
      has the synced put in its history, and nothing at k in its segments. */
  lemma SyncedPutLost(maxSize: nat, k: Key, val: Value, val': Value)
    returns (labels: seq<Label>, s: Sys, v: View)
    requires ValidKey(k) && |val| <= MAX_VAL_LEN && |val'| <= MAX_VAL_LEN
    ensures Session(labels) && Run(Init(maxSize), labels) == Some(s)
    ensures s.hist == [PutRecord(1, k, val), PutRecord(2, k, val')]
    ensures v in s.survivors && s.durable == v.count == 1 && k in Replay(s.hist[..1])
    ensures Lists([2], v.segs.Keys) && k !in Reopened([2], v.segs)
  {
    hide MemInv, Run, Session, RecordItems, LogItems, Commit, Replay;
    var l1, s1 := PutAndRotateTwice(maxSize, k, val);
    var put, over := PutRecord(1, k, val), PutRecord(2, k, val');
    Extend(Init(maxSize), l1, s1, WriteRecord(over));
    var s2 := Next(s1, WriteRecord(over));
    var l2 := l1 + [WriteRecord(over)];
    assert s2.hist == [put, over];
    Overwritten(s1.cur, over, k);
    ItemsOfOne(put, k, Put(k, val));
    NoItems();
    TaggedPair(0, 1, s2.cur.segs);
    assert MaySurvive(s2, s1.cur);
    var c;
    labels, s, c := CompactTwo(Init(maxSize), l2, s2, s1.cur);
    assert c.rewrites == [];
    v := Commit(s1.cur, c);
    CommitPicture(s1.cur, c);
    CommitHasFields(s1.cur, c);
    assert v.segs == map[2 := []];
    NothingIn(v.segs);
    assert s.hist[..1] == [put];
    ReplayOne(put, k);
  }

  lemma Overwritten(v: View, r: Record, k: Key)
    requires v.active in v.segs && r == PutRecord(r.tstamp, k, r.value)
    ensures k in Write(v, r).kd && Write(v, r).kd[k].fileID == v.active
  {
    var items := RecordItems(r, LogSize(v.segs[v.active]));
    WrittenItems(r.tstamp, k, r.value, [], LogSize(v.segs[v.active]));
    assert items[..0] == [];
  }

  lemma NothingIn(segs: Segs)
    requires segs == map[2 := []]
    ensures Lists([2], segs.Keys) && Reopened([2], segs) == map[]
  {
    assert [2][..0] == [];
    assert Tagged([2], segs) == Tagged([], segs) + Tag(2, LogItems([]));
  }

  lemma ReplayOne(r: Record, k: Key)
    requires r == PutRecord(r.tstamp, k, r.value)
    ensures k in Replay([r])
  {
    assert [r][..0] == [];
    assert [Put(k, r.value)][..0] == [];
    assert ApplyOps(map[], [Put(k, r.value)]) == Apply(map[], Put(k, r.value));
  }
}
