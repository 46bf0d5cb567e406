/** Open: reconcile the manifest with the directory, rebuild the keydir from hints and scans in ascending id order, and
    resolve the active segment and the next id. */
module Opening {
  import opened Bytes
  import opened Wrappers
  import opened Record
  import opened Log
  import opened Keydirs
  import opened KeydirIndex
  import opened View
  import opened Compaction
  import opened Reopen
  import opened Engine
  import opened Refinement
  import opened Durability
  import opened Histories
  import opened Scan
  import opened Recovery
  import opened Manifest
  import opened Db
  import Hint

  // ---------------------------------------------------------------- what is on the disk

  /** Replaying the entries does what scanning the log does. */
  ghost predicate Replays(es: seq<Hint.HintEntry>, id: nat, log: Log) {
    && (forall kd: Keydir :: Hint.ReplayAll(kd, id, es) == Recover(kd, Tag(id, LogItems(log))))
    && (forall last: int :: Hint.HintClock(last, es) == LogClock(last, log))
  }

  /** A hint file that is used stands for its segment. */
  ghost predicate Faithful(file: seq<byte>, id: nat, log: Log) {
    forall es :: Hint.IsHintFile(file, es) && (forall i :: 0 <= i < |es| ==> Hint.InBounds(es[i], LogSize(log)))
      ==> Replays(es, id, log)
  }

  /** The bytes of the sealed segments are their logs; those of the active one may go on with a torn record. */
  ghost predicate OnDisk(b: seq<byte>, log: Log, active: bool) {
    ValidLog(log) && if active then ScanFrom(b, 0).recs == log && !ScanFrom(b, 0).rest.Bad? else b == Print(log)
  }

  ghost predicate Directory(disk: map<nat, seq<byte>>, hints: map<nat, seq<byte>>, segs: Segs, active: nat) {
    && active in segs && segs.Keys <= disk.Keys
    && forall i :: i in segs ==>
         OnDisk(disk[i], segs[i], i == active) && (i in hints && i != active ==> Faithful(hints[i], i, segs[i]))
  }

  /** Replaying the hint of a pass does what scanning its merged segment does. */
  lemma PassReplays(v: View, c: Pass)
    requires PassCore(v, c)
    ensures Replays(Hint.HintOf(c.rewrites), c.mid, c.merged)
  {
    hide LogItems, Recover;
    var hint, n := Hint.HintOf(c.rewrites), |c.merged|;
    assert hint[..n] == hint && c.merged[..n] == c.merged;
    forall kd: Keydir ensures Hint.ReplayAll(kd, c.mid, hint) == Recover(kd, Tag(c.mid, LogItems(c.merged))) {
      Hint.HintRefinesScan(kd, 0, v, c, n);
    }
    forall last: int ensures Hint.HintClock(last, hint) == LogClock(last, c.merged) {
      Hint.HintRefinesScan(map[], last, v, c, n);
    }
  }

  lemma HintFaithful(file: seq<byte>, es: seq<Hint.HintEntry>, i: nat, log: Log)
    requires Hint.IsHintFile(file, es) && Replays(es, i, log)
    ensures Faithful(file, i, log)
  {
    hide Hint.IsHintFile, Replays;
    forall fs | Hint.IsHintFile(file, fs) ensures fs == es {
      Hint.HintRoundTrip(file, fs, es);
    }
  }

  /** So the hint a pass writes for its merged segment is faithful. */
  lemma PassHintFaithful(file: seq<byte>, v: View, c: Pass)
    requires PassCore(v, c) && Hint.IsHintFile(file, Hint.HintOf(c.rewrites))
    ensures Faithful(file, c.mid, c.merged)
  {
    hide PassCore, Faithful, Replays, Hint.IsHintFile;
    PassReplays(v, c);
    HintFaithful(file, Hint.HintOf(c.rewrites), c.mid, c.merged);
  }

  /** The active segment of a crashed engine, cut at any byte behind the records that survived and before the end of
      the next one, is on the disk as Directory asks. */
  lemma CutOnDisk(log: Log, n: nat)
    requires ValidLog(log) && n <= LogSize(log)
    ensures OnDisk(Print(log)[..n], log[..Whole(log, n)], true)
  {
    hide ParseAt, Print;
    ScanOfCut(log, n);
  }

  lemma SealedScan(log: Log)
    requires ValidLog(log)
    ensures ScanFrom(Print(log), 0) == Found(log, LogSize(log), Clean)
  {
    hide ParseAt, ValidRecord, Print;
    var n := LogSize(log);
    ScanOfCut(log, n);
    assert log[..|log|] == log;
    assert Print(log)[..n] == Print(log);
  }

  lemma ActiveScan(b: seq<byte>, log: Log)
    requires OnDisk(b, log, true)
    ensures var f := ScanFrom(b, 0); f.recs == log && b[..f.good] == Print(log) && f.good == LogSize(log)
  {
    hide ParseAt;
    ScanExact(b, []);
    assert [] + ScanFrom(b, 0).recs == ScanFrom(b, 0).recs;
  }

  // ---------------------------------------------------------------- the keydir

  /** The keys of a map, in ascending order. */
  method SortedIds(ids: set<nat>) returns (order: seq<nat>)
    ensures Lists(order, ids)
  {
    var out: seq<nat> := [];
    var left := ids;
    while left != {}
      invariant left <= ids && forall id :: id in out <==> id in ids && id !in left
      decreases |left|
    {
      var id :| id in left;
      left := left - {id};
      out := out + [id];
    }
    order := Canonical(out);
    forall i | 0 <= i < |order| ensures order[i] in ids {
      assert order[i] in order;
    }
  }

  /** One segment of recover: its hint unless it is the active one, and a scan when there is no hint to use. */
  method RecoverOne(db: DB, id: nat, isActive: bool, hint: Option<seq<byte>>, ghost log: Log) returns (ok: bool)
    requires id in db.segments && OnDisk(db.segments[id], log, isActive)
    requires hint.Some? && !isActive ==> Faithful(hint.value, id, log)
    modifies db`segments, db`lastTstamp, db.keydir
    ensures ok && db.segments == old(db.segments)[id := Print(log)]
    ensures db.keydir.index == Recover(old(db.keydir.index), Tag(id, LogItems(log)))
    ensures db.lastTstamp == LogClock(old(db.lastTstamp), log)
  {
    hide LogItems, Recover, LogClock, ScanFrom, Hint.IsHintFile, Print;
    if !isActive {
      ghost var kd, last := db.keydir.index, db.lastTstamp;
      var used, es := Hint.TryRecoverFromHint(db, id, hint);
      if used.Used? {
        assert Replays(es, id, log);
        assert db.segments == db.segments[id := Print(log)];
        return true;
      }
      SealedScan(log);
      WholeSlice(db.segments[id]);
    } else {
      ActiveScan(db.segments[id], log);
    }
    ok := RecoverSegment(db, id, isActive);
  }

  lemma WholeSlice<T>(b: seq<T>)
    ensures b[..|b|] == b
  {
  }

  lemma NextSegment(order: seq<nat>, segs: Segs, i: nat, last: int)
    requires i < |order| && forall j :: 0 <= j < |order| ==> order[j] in segs
    ensures Reopened(order[..i + 1], segs) ==
      Recover(Reopened(order[..i], segs), Tag(order[i], LogItems(segs[order[i]])))
    ensures SegsClock(last, order[..i + 1], segs) == LogClock(SegsClock(last, order[..i], segs), segs[order[i]])
  {
    hide LogItems, Recover, LogClock;
    assert order[..i + 1][..i] == order[..i];
    RecoverSplit(map[], Tagged(order[..i], segs), Tag(order[i], LogItems(segs[order[i]])));
  }

  /** recover: from hints and scans, torn tail or not, what comes out is the keydir and the clock of the logs. */
  method RecoverAll(db: DB, activeID: nat, hints: map<nat, seq<byte>>, ghost segs: Segs)
    returns (ok: bool, ghost order: seq<nat>)
    requires db.segments.Keys == segs.Keys && Directory(db.segments, hints, segs, activeID)
    requires db.keydir.index == map[] && db.lastTstamp == 0
    modifies db`segments, db`lastTstamp, db.keydir
    ensures ok && Lists(order, segs.Keys)
    ensures db.keydir.index == Reopened(order, segs) && db.lastTstamp == SegsClock(0, order, segs)
    ensures db.segments.Keys == segs.Keys
    ensures forall i :: i in segs ==> ValidLog(segs[i]) && db.segments[i] == Print(segs[i])
  {
    hide Reopened, SegsClock, Print, OnDisk, Faithful, LogItems, Recover, LogClock, Restored, Directory;
    var ids := SortedIds(db.segments.Keys);
    order := ids;
    NoSegments(db.segments, hints, segs, activeID);
    assert order[..0] == [];
    for i := 0 to |ids|
      invariant Restored(db.segments, old(db.segments), segs, order[..i])
      invariant db.keydir.index == Reopened(order[..i], segs) && db.lastTstamp == SegsClock(0, order[..i], segs)
    {
      var id := ids[i];
      NotYet(db.segments, old(db.segments), hints, segs, activeID, order, i);
      ok := RecoverOne(db, id, id == activeID, if id in hints then Some(hints[id]) else None, segs[id]);
      NextSegment(order, segs, i, 0);
    }
    assert order[..|ids|] == order;
    AllRestored(db.segments, old(db.segments), segs, order);
    ok := true;
  }

  /** The segments of done hold their logs, the others what they held. */
  ghost predicate Restored(now: map<nat, seq<byte>>, was: map<nat, seq<byte>>, segs: Segs, done: seq<nat>) {
    && now.Keys == segs.Keys
    && forall j :: j in segs ==>
         if j in done then ValidLog(segs[j]) && now[j] == Print(segs[j]) else j in was && now[j] == was[j]
  }

  lemma AllRestored(now: map<nat, seq<byte>>, was: map<nat, seq<byte>>, segs: Segs, order: seq<nat>)
    requires Restored(now, was, segs, order) && Lists(order, segs.Keys)
    ensures now.Keys == segs.Keys && forall i :: i in segs ==> ValidLog(segs[i]) && now[i] == Print(segs[i])
  {
    hide Print, ValidLog;
  }

  lemma NotYet(now: map<nat, seq<byte>>, was: map<nat, seq<byte>>, hints: map<nat, seq<byte>>, segs: Segs,
               activeID: nat, order: seq<nat>, i: nat)
    requires i < |order| && Lists(order, segs.Keys) && Restored(now, was, segs, order[..i])
    requires Directory(was, hints, segs, activeID)
    ensures var id := order[i];
      && id in segs && id in now && OnDisk(now[id], segs[id], id == activeID)
      && (id in hints && id != activeID ==> Faithful(hints[id], id, segs[id]))
      && ValidLog(segs[id]) && Restored(now[id := Print(segs[id])], was, segs, order[..i + 1])
  {
    hide Faithful, Print, ScanFrom;
    var id := order[i];
    assert id !in order[..i];
    assert order[..i + 1] == order[..i] + [id];
    assert id in segs;
  }

  lemma NoSegments(was: map<nat, seq<byte>>, hints: map<nat, seq<byte>>, segs: Segs, activeID: nat)
    requires Directory(was, hints, segs, activeID) && was.Keys == segs.Keys
    ensures Restored(was, was, segs, [])
    ensures Reopened([], segs) == map[] && SegsClock(0, [], segs) == 0
  {
    hide OnDisk, Faithful, Print;
  }

  // ---------------------------------------------------------------- Open

  /** The view the directory holds: the one the manifest names, or all of it with the newest id active. */
  ghost predicate Holds(file: Option<Manifest>, disk: map<nat, seq<byte>>, v: View) {
    if file.Some? then ManifestOf(v, file.value)
    else disk.Keys == v.segs.Keys && v.active in disk && forall i :: i in disk ==> i <= v.active
  }

  ghost predicate FirstBoot(file: Option<Manifest>, disk: map<nat, seq<byte>>) {
    file.None? && disk == map[]
  }

  /** The segment files the manifest names, and an id above all of theirs. */
  method LoadSegments(disk: map<nat, seq<byte>>, existing: seq<nat>, onDisk: seq<nat>)
    returns (segments: map<nat, seq<byte>>, nextID: nat)
    requires Lists(onDisk, disk.Keys) && forall i :: 0 <= i < |existing| ==> existing[i] in disk
    ensures segments == map i | i in disk && i in existing :: disk[i]
    ensures forall i :: i in disk ==> i < nextID
    ensures disk == map[] ==> nextID == 0
  {
    segments, nextID := map[], 0;
    for k := 0 to |existing|
      invariant segments.Keys == set i | i in existing[..k]
      invariant forall i :: i in segments ==> i in disk && segments[i] == disk[i]
      invariant k == 0 ==> nextID == 0
    {
      segments := segments[existing[k] := disk[existing[k]]];
      if existing[k] + 1 > nextID {
        nextID := existing[k] + 1;
      }
      assert existing[..k + 1] == existing[..k] + [existing[k]];
    }
    assert existing[..|existing|] == existing;
    if |onDisk| > 0 {
      var maxOnDisk := onDisk[|onDisk| - 1];
      if maxOnDisk + 1 > nextID {
        nextID := maxOnDisk + 1;
      }
    }
    forall i | i in disk ensures i < nextID {
      var k :| 0 <= k < |onDisk| && onDisk[k] == i;
      assert onDisk[k] <= onDisk[|onDisk| - 1];
    }
    assert |existing| > 0 ==> existing[0] in disk;
    assert |onDisk| > 0 ==> onDisk[0] in disk;
  }

  /** The fields of the engine that runs on. */
  ghost predicate Runs(db: DB, s: Sys)
    reads db, db.keydir
  {
    Mirror(db.Values(), s) && db.sys == s && db.lastTstamp == s.last
  }

  lemma MirrorOpened(f: Fields, s: Sys, v: View, order: seq<nat>, freshID: nat)
    requires Finds(s, v, order) && s.maxSize == f.maxSegmentSize
    requires f.segments.Keys == v.segs.Keys
    requires forall i :: i in v.segs ==> ValidLog(v.segs[i]) && f.segments[i] == Print(v.segs[i])
    requires f.index == Reopened(order, v.segs) && f.lastTstamp == SegsClock(0, order, v.segs)
    requires !f.writesDisabled
    ensures |f.segments[v.active]| == LogSize(v.segs[v.active]) && Opened(s, v, order, freshID).last == f.lastTstamp
    ensures var room := |f.segments[v.active]| < f.maxSegmentSize;
      Mirror(if room then f.(active := v.active, nextID := freshID)
             else f.(segments := f.segments[freshID := []], active := freshID, nextID := freshID + 1),
             Opened(s, v, order, freshID))
  {
    hide Reopened, SegsClock, Repair, Contents, Replay, LogItems, Print, LogSize;
    assert ValidLog([]) && Print([]) == [] by { NothingPrinted(); }
  }

  lemma NothingPrinted()
    ensures ValidLog([]) && Print([]) == []
  {
  }

  function Restrict(disk: map<nat, seq<byte>>, ids: set<nat>): map<nat, seq<byte>> {
    map i | i in disk && i in ids :: disk[i]
  }

  /** What reconciling such a directory gives. */
  lemma HoldsReconciled(file: Option<Manifest>, disk: map<nat, seq<byte>>, hints: map<nat, seq<byte>>, v: View,
                        onDisk: seq<nat>)
    requires Holds(file, disk, v) && Directory(disk, hints, v.segs, v.active) && Lists(onDisk, disk.Keys)
    ensures file.Some? ==> WellFormed(file.value) && Lists(file.value.segments, v.segs.Keys)
    ensures file.Some? ==> file.value.active == Some(v.active)
    ensures file.Some? ==> forall id :: id in file.value.segments ==> id in onDisk
    ensures file.None? ==> Lists(onDisk, v.segs.Keys) && onDisk != [] && onDisk[|onDisk| - 1] == v.active
    ensures var kept := Restrict(disk, v.segs.Keys);
      kept.Keys == v.segs.Keys && Directory(kept, hints, v.segs, v.active)
  {
    hide OnDisk, Faithful;
    if file.None? {
      assert v.active in onDisk;
      assert |onDisk| > 0 && onDisk[|onDisk| - 1] in disk.Keys;
    }
  }

  /** The active segment is promoted, not replaced. */
  ghost predicate HasRoom(v: View, maxSize: nat) {
    v.active in v.segs && LogSize(v.segs[v.active]) < maxSize
  }

  /** The part of Open behind the loading of existing segments. */
  method OpenExisting(db: DB, activeID: nat, bootstrapped: bool, hints: map<nat, seq<byte>>, publishOk: bool,
                      ghost s: Sys, ghost v: View)
    returns (ok: bool, written: Option<Manifest>, ghost order: seq<nat>)
    requires v.active in v.segs && activeID == v.active
    requires db.segments.Keys == v.segs.Keys && Directory(db.segments, hints, v.segs, v.active)
    requires db.Values() == Fields(db.segments, 0, db.nextID, 0, false, s.maxSize, map[]) && v.count <= |s.hist|
    modifies db, db.keydir
    ensures ok <==> publishOk || (!bootstrapped && HasRoom(v, s.maxSize))
    ensures ok ==> Lists(order, v.segs.Keys) && Runs(db, Opened(s, v, order, old(db.nextID)))
    ensures written.Some? <==> bootstrapped || !HasRoom(v, s.maxSize)
    ensures ok && written.Some? ==> ManifestOf(db.sys.cur, written.value)
    ensures ok ==> db.active == if HasRoom(v, s.maxSize) then v.active else old(db.nextID)
  {
    hide Reopened, SegsClock, Print, Directory, Mirror, Opened, Restored, WellFormed, ManifestOf;
    var okay;
    okay, order := RecoverAll(db, activeID, hints, v.segs);
    MirrorOpened(db.Values(), s, v, order, db.nextID);
    var room := |db.segments[activeID]| < db.maxSegmentSize;
    ghost var t := Opened(s, v, order, db.nextID);
    if room {
      db.active := activeID;
    } else {
      db.segments := db.segments[db.nextID := []];
      db.active := db.nextID;
      db.nextID := db.nextID + 1;
    }
    written := None;
    if bootstrapped || !room {
      written := WriteLive(db);
      if !publishOk {
        return false, written, order;
      }
    }
    db.sys := t;
    if written.Some? {
      MirrorManifest(db.Values(), t, written.value);
    }
    return true, written, order;
  }

  /** The manifest of the segment table. */
  method WriteLive(db: DB) returns (m: Option<Manifest>)
    requires db.active in db.segments
    ensures m.Some? && WellFormed(m.value) && m.value.active == Some(db.active)
    ensures forall id :: id in m.value.segments <==> id in db.segments
  {
    hide WellFormed;
    var live := SortedIds(db.segments.Keys);
    m := WriteManifest(live, db.active);
  }

  /** A manifest of the segment table is one of the view it stands for. */
  lemma MirrorManifest(f: Fields, s: Sys, m: Manifest)
    requires Mirror(f, s) && WellFormed(m) && m.active == Some(f.active)
    requires forall id :: id in m.segments <==> id in f.segments
    ensures ManifestOf(s.cur, m)
  {
    hide WellFormed;
    assert f.segments.Keys == s.cur.segs.Keys;
  }

  lemma DirectoryActive(disk: map<nat, seq<byte>>, hints: map<nat, seq<byte>>, segs: Segs, active: nat)
    requires Directory(disk, hints, segs, active)
    ensures active in segs
  {
  }

  lemma MirrorFirstBoot(f: Fields)
    requires f == Fields(map[0 := []], 0, 1, 0, false, f.maxSegmentSize, map[])
    ensures Mirror(f, Init(f.maxSegmentSize)) && Init(f.maxSegmentSize).last == 0
  {
  }

  /** Open on a directory that holds the view v of an engine in state s: it fails only when a manifest it has to write
      fails; otherwise the engine that comes up is, field for field, the machine's after the crash step. */
  method Open(file: Option<Manifest>, disk: map<nat, seq<byte>>, hints: map<nat, seq<byte>>,
              maxSegmentSize: nat, syncOnPut: bool, publishOk: bool, ghost s: Sys, ghost v: View)
    returns (r: Option<DB>, written: Option<Manifest>, ghost order: seq<nat>, ghost freshID: nat)
    requires FirstBoot(file, disk) || (Holds(file, disk, v) && Directory(disk, hints, v.segs, v.active))
    requires v.count <= |s.hist| && s.maxSize == maxSegmentSize
    ensures r.None? <==> !publishOk && (file.None? || !HasRoom(v, maxSegmentSize))
    ensures r.Some? ==> fresh(r.value) && fresh(r.value.keydir) && r.value.syncOnPut == syncOnPut
    ensures r.Some? && FirstBoot(file, disk) ==> Runs(r.value, Init(maxSegmentSize))
    ensures r.Some? && !FirstBoot(file, disk) ==>
      v.active in v.segs && Lists(order, v.segs.Keys) && Runs(r.value, Opened(s, v, order, freshID))
    ensures r.Some? && !FirstBoot(file, disk) ==> forall i :: i in disk ==> i < freshID
    ensures r.Some? && !FirstBoot(file, disk) ==>
      r.value.active == if LogSize(v.segs[v.active]) < maxSegmentSize then v.active else freshID
    ensures r.Some? ==> (written.Some? <==> file.None? || LogSize(v.segs[v.active]) >= maxSegmentSize)
    ensures r.Some? && written.Some? ==> ManifestOf(r.value.sys.cur, written.value)
  {
    hide Directory, Mirror, Opened, Init, Holds, WellFormed, ManifestOf;
    order, freshID, written := [], 0, None;
    var onDisk := SortedIds(disk.Keys);
    assert disk == map[] ==> onDisk == [] by { ListsNothing(onDisk, disk.Keys); }
    if !FirstBoot(file, disk) {
      HoldsReconciled(file, disk, hints, v, onDisk);
      DirectoryActive(disk, hints, v.segs, v.active);
    }
    var found := Reconcile(file, onDisk);
    if found.Refused? {
      return None, written, order, freshID;
    }
    var segments, nextID := LoadSegments(disk, found.ids, onDisk);
    var db := new DB.Recovering(maxSegmentSize, syncOnPut, segments, nextID);
    freshID := nextID;
    if |found.ids| > 0 {
      SameSegments(segments, disk, found.ids, v.segs.Keys);
      var activeID := if found.Bootstrap? then found.ids[|found.ids| - 1] else found.active;
      var ok;
      ok, written, order := OpenExisting(db, activeID, found.Bootstrap?, hints, publishOk, s, v);
      if !ok {
        return None, written, order, freshID;
      }
      return Some(db), written, order, freshID;
    }
    db.segments := db.segments[db.nextID := []];
    db.active := db.nextID;
    db.nextID := db.nextID + 1;
    written := WriteLive(db);
    if !publishOk {
      return None, written, order, freshID;
    }
    MirrorFirstBoot(db.Values());
    db.sys := Init(maxSegmentSize);
    MirrorManifest(db.Values(), db.sys, written.value);
    return Some(db), written, order, freshID;
  }

  lemma ListsNothing(order: seq<nat>, ids: set<nat>)
    requires Lists(order, ids)
    ensures ids == {} ==> order == []
  {
    assert order != [] ==> order[0] in ids;
  }

  lemma SameSegments(segments: map<nat, seq<byte>>, disk: map<nat, seq<byte>>, ids: seq<nat>, keys: set<nat>)
    requires Lists(ids, keys) && segments == map i | i in disk && i in ids :: disk[i]
    ensures segments == Restrict(disk, keys)
  {
  }

  /** Whatever the crash has left, the engine that Open returns is valid, and its plain map is that of its history: the
      records that survived, none that was synced missing among them, and nothing else exactly when no deleted key has
      come back. */
  lemma OpenAfterCrash(s: Sys, v: View, order: seq<nat>, freshID: nat)
    requires Finds(s, v, order) && Inv(s) && v in s.survivors && forall i :: i in v.segs ==> i < freshID
    ensures var t := Opened(s, v, order, freshID);
      Inv(t) && t.cur.store == Replay(t.hist) && s.durable <= v.count && s.hist[..v.count] <= t.hist
    ensures (forall k :: KeyInv(v, k)) ==>
      (Opened(s, v, order, freshID).hist == s.hist[..v.count] <==> NoneComesBack(v, order))
  {
    hide Inv, Replay, Opened, KeyInv, StaysGone, Enabled, Lists, NoneComesBack;
    assert Enabled(s, CrashAndOpen(v, order, freshID)) by { CanCrash(s, v, order, freshID); }
    SurvivorFacts(s, v);
    OpenedHist(s, v, order, freshID);
    OpenedNext(s, v, order, freshID);
    OpenedInv(s, v, order, freshID);
    OpenedStore(Opened(s, v, order, freshID));
    if forall k :: KeyInv(v, k) {
      HistoryExactly(s, v, order, freshID);
    }
  }

  lemma CanCrash(s: Sys, v: View, order: seq<nat>, freshID: nat)
    requires Finds(s, v, order) && v in s.survivors && forall i :: i in v.segs ==> i < freshID
    ensures Enabled(s, CrashAndOpen(v, order, freshID))
  {
  }

  lemma OpenedNext(s: Sys, v: View, order: seq<nat>, freshID: nat)
    requires Inv(s) && Enabled(s, CrashAndOpen(v, order, freshID))
    ensures Finds(s, v, order) && forall u :: u in s.survivors ==> u.count <= |s.hist|
    ensures Engine.Next(s, CrashAndOpen(v, order, freshID)) == Opened(s, v, order, freshID)
  {
    hide Inv, Enabled, Engine.Next, Opened, Lists;
    Reopening(s, CrashAndOpen(v, order, freshID));
  }

  lemma OpenedStore(s: Sys)
    requires Inv(s)
    ensures s.cur.store == Replay(s.hist)
  {
  }
}
