/** One compaction pass: the records it copies, the rewrites it collects, and the commit that swaps them in,
    against a keydir that the writer keeps changing. */
module Compaction {
  import opened Bytes
  import opened Record
  import opened Log
  import opened Keydirs
  import opened View

  /** An operation together with the segment it is in. */
  datatype TItem = TItem(id: nat, item: Item)

  function Tag(id: nat, items: seq<Item>): (tagged: seq<TItem>)
    ensures |tagged| == |items| && forall i :: 0 <= i < |items| ==> tagged[i] == TItem(id, items[i])
  {
    seq(|items|, i requires 0 <= i < |items| => TItem(id, items[i]))
  }

  /** All operations of the segments of order, one segment after the other. */
  ghost function Tagged(order: seq<nat>, segs: Segs): seq<TItem>
    requires forall i :: 0 <= i < |order| ==> order[i] in segs
  {
    if order == [] then [] else
      var n := |order| - 1;
      Tagged(order[..n], segs) + Tag(order[n], LogItems(segs[order[n]]))
  }

  /** The compactor's private state: the immutable inputs, the id and records of the merged segment, the rewrites,
      and what is left to scan. cut is the clock when the active segment of the snapshot was opened, seen the
      number of records written before the latest keydir lookup. */
  datatype Pass = Pass(cands: set<nat>, mid: nat, cut: int, todo: seq<TItem>, merged: Log,
                       rewrites: seq<Rewrite>, seen: nat, ready: bool)

  /** The liveness rule: the keydir names exactly this segment, offset and length. */
  predicate Live(kd: Keydir, x: TItem) {
    && x.item.op.Put? && x.item.op.key in kd
    && kd[x.item.op.key].fileID == x.id
    && kd[x.item.op.key].pos == x.item.pos
    && kd[x.item.op.key].len == |x.item.op.value|
  }

  /** Look one operation up, and copy it if it is live. */
  function ScanOne(kd: Keydir, c: Pass): Pass
    requires c.todo != []
  {
    var x := c.todo[0];
    if Live(kd, x) then
      var k, val, t := x.item.op.key, x.item.op.value, x.item.tstamp;
      c.(todo := c.todo[1..],
         merged := c.merged + [PutRecord(t, k, val)],
         rewrites := c.rewrites + [Rewrite(k, EntryOf(x.id, x.item),
                                           Entry(c.mid, LogSize(c.merged) + HEADER_SIZE + |k|, |val|, t))])
    else c.(todo := c.todo[1..])
  }

  // ---------------------------------------------------------------- what a pass keeps

  /** The inputs are immutable segments, all older than everything that will not be retired. */
  ghost predicate Split(v: View, c: Pass) {
    && c.cands <= v.segs.Keys && v.active !in c.cands && c.mid !in v.segs && c.cut <= v.seal
    && forall s, item :: Has(v.segs, s, item) ==> (s in c.cands <==> item.tstamp <= c.cut)
  }

  ghost predicate TodoOk(v: View, c: Pass) {
    && (forall i :: 0 <= i < |c.todo| ==> c.todo[i].id in c.cands && Has(v.segs, c.todo[i].id, c.todo[i].item))
    && (forall i, j :: 0 <= i < j < |c.todo| ==>
          c.todo[i].id != c.todo[j].id || c.todo[i].item.pos != c.todo[j].item.pos)
  }

  /** Copy i is the encoding of the record its rewrite names, and its new entry points at its value. */
  ghost predicate Copied(segs: Segs, c: Pass, i: int)
    requires 0 <= i < |c.merged| && i < |c.rewrites|
  {
    var m, r := c.merged[i], c.rewrites[i];
    && ValidRecord(m) && m == PutRecord(r.oldEntry.tstamp, r.key, m.value)
    && r.oldEntry.fileID in c.cands && At(segs, r.key, r.oldEntry, m.value)
    && r.newEntry == Entry(c.mid, LogSize(c.merged[..i]) + HEADER_SIZE + |r.key|, r.oldEntry.len, r.oldEntry.tstamp)
  }

  ghost predicate Copies(v: View, c: Pass) {
    && |c.merged| == |c.rewrites| && DistinctKeys(c.rewrites)
    && forall i :: 0 <= i < |c.merged| ==> Copied(v.segs, c, i)
  }

  /** Nothing copied is looked at again. */
  ghost predicate ScannedOnce(c: Pass) {
    forall i, j :: 0 <= i < |c.rewrites| && 0 <= j < |c.todo| ==>
      c.todo[j].id != c.rewrites[i].oldEntry.fileID || c.todo[j].item.pos != c.rewrites[i].oldEntry.pos
  }

  ghost predicate Rewritten(c: Pass, k: Key, e: Entry) {
    exists i :: Matches(c.rewrites, k, e, i)
  }

  ghost predicate Pending(c: Pass, k: Key, e: Entry) {
    exists i :: 0 <= i < |c.todo| && c.todo[i].id == e.fileID && c.todo[i].item.pos == e.pos
  }

  /** If k's entry is in an input segment, it is still to be scanned or has its rewrite. */
  ghost predicate ReachesAt(v: View, c: Pass, k: Key) {
    k in v.kd && v.kd[k].fileID in c.cands ==> Pending(c, k, v.kd[k]) || Rewritten(c, k, v.kd[k])
  }

  ghost predicate Reaches(v: View, c: Pass) {
    forall k :: ReachesAt(v, c, k)
  }

  ghost predicate GoneSince(segs: Segs, cands: set<nat>, k: Key) {
    exists s, d :: s !in cands && Has(segs, s, d) && d.op == Delete(k)
  }

  /** If k was copied, it is as it was then, or has been written since, outside the inputs. */
  ghost predicate SettledAt(v: View, c: Pass, k: Key) {
    forall i :: 0 <= i < |c.rewrites| && c.rewrites[i].key == k ==>
      if k in v.kd then v.kd[k] == c.rewrites[i].oldEntry || v.kd[k].fileID !in c.cands
      else GoneSince(v.segs, c.cands, k)
  }

  ghost predicate Settled(v: View, c: Pass) {
    forall k :: SettledAt(v, c, k)
  }

  /** What holds between a pass and the files of every view of the same manifest. */
  ghost predicate PassCore(v: View, c: Pass) {
    Split(v, c) && TodoOk(v, c) && Copies(v, c) && ScannedOnce(c)
  }

  /** What holds besides for a view the pass has looked at since its last record. */
  ghost predicate PassInv(v: View, c: Pass) {
    PassCore(v, c) && Settled(v, c) && Reaches(v, c)
  }

  // ---------------------------------------------------------------- the start of a pass

  ghost predicate Lists(order: seq<nat>, ids: set<nat>) {
    && (forall i :: 0 <= i < |order| ==> order[i] in ids)
    && (forall s :: s in ids ==> s in order)
    && (forall i, j :: 0 <= i < j < |order| ==> order[i] < order[j])
  }

  ghost function Start(v: View, order: seq<nat>, mid: nat): Pass
    requires forall i :: 0 <= i < |order| ==> order[i] in v.segs
  {
    Pass(v.segs.Keys - {v.active}, mid, v.seal, Tagged(order, v.segs), [], [], v.count, false)
  }

  lemma {:induction false} TaggedHas(order: seq<nat>, segs: Segs, i: nat)
    requires forall i :: 0 <= i < |order| ==> order[i] in segs
    requires i < |Tagged(order, segs)|
    ensures Tagged(order, segs)[i].id in order
    ensures Has(segs, Tagged(order, segs)[i].id, Tagged(order, segs)[i].item)
  {
    var n := |order| - 1;
    if i < |Tagged(order[..n], segs)| {
      TaggedHas(order[..n], segs, i);
    }
  }

  lemma {:induction false} TaggedAll(order: seq<nat>, segs: Segs, s: nat, item: Item) returns (i: nat)
    requires forall i :: 0 <= i < |order| ==> order[i] in segs
    requires s in order && Has(segs, s, item)
    ensures i < |Tagged(order, segs)| && Tagged(order, segs)[i] == TItem(s, item)
  {
    hide LogItems;
    var n := |order| - 1;
    if s in order[..n] {
      i := TaggedAll(order[..n], segs, s, item);
    } else {
      var j :| 0 <= j < |LogItems(segs[s])| && LogItems(segs[s])[j] == item;
      i := |Tagged(order[..n], segs)| + j;
    }
  }

  /** Distinct segments and, within one, distinct positions in ascending order. */
  lemma {:induction false} TaggedOrdered(order: seq<nat>, segs: Segs, i: nat, j: nat)
    requires forall i :: 0 <= i < |order| ==> order[i] in segs
    requires forall i, j :: 0 <= i < j < |order| ==> order[i] != order[j]
    requires ValidSegs(segs)
    requires i < j < |Tagged(order, segs)|
    ensures var x, y := Tagged(order, segs)[i], Tagged(order, segs)[j];
      x.id == y.id ==> x.item.pos < y.item.pos
  {
    var n := |order| - 1;
    var front := Tagged(order[..n], segs);
    if j < |front| {
      TaggedOrdered(order[..n], segs, i, j);
    } else if i < |front| {
      TaggedHas(order[..n], segs, i);
    } else {
      LogItemsOrdered(segs[order[n]]);
    }
  }

  lemma StartPass(v: View, last: int, order: seq<nat>, mid: nat)
    requires Sound(v, last) && mid !in v.segs
    requires Lists(order, v.segs.Keys - {v.active})
    ensures PassInv(v, Start(v, order, mid))
  {
    hide LogItems;
    var c := Start(v, order, mid);
    forall i | 0 <= i < |c.todo| ensures c.todo[i].id in c.cands && Has(v.segs, c.todo[i].id, c.todo[i].item) {
      TaggedHas(order, v.segs, i);
    }
    forall i, j | 0 <= i < j < |c.todo|
      ensures c.todo[i].id != c.todo[j].id || c.todo[i].item.pos != c.todo[j].item.pos
    {
      TaggedOrdered(order, v.segs, i, j);
    }
    forall k | k in v.kd && v.kd[k].fileID in c.cands ensures Pending(c, k, v.kd[k]) {
      assert LocatedAt(v, k);
      var e := v.kd[k];
      var i := TaggedAll(order, v.segs, e.fileID, Item(Put(k, v.store[k]), e.pos, e.tstamp));
    }
  }

  // ---------------------------------------------------------------- one lookup

  lemma SamePos(segs: Segs, s: nat, x: Item, y: Item)
    requires ValidSegs(segs) && Has(segs, s, x) && Has(segs, s, y) && x.pos == y.pos
    ensures x == y
  {
    hide LogItems;
    LogItemsOrdered(segs[s]);
    var items := LogItems(segs[s]);
    var i :| 0 <= i < |items| && items[i] == x;
    var j :| 0 <= j < |items| && items[j] == y;
    assert i < j || j < i || i == j;
  }

  lemma {:induction false} ItemValid(log: Log, i: nat)
    requires ValidLog(log) && i < |LogItems(log)|
    ensures ValidOp(LogItems(log)[i].op) && IsInt64(LogItems(log)[i].tstamp)
  {
    var n := |log| - 1;
    if i < |LogItems(log[..n])| {
      ItemValid(log[..n], i);
    } else {
      assert ValidRecord(log[n]);
    }
  }

  /** The copy of a put item is a well-formed record. */
  lemma CopyValid(segs: Segs, s: nat, item: Item)
    requires ValidSegs(segs) && Has(segs, s, item) && item.op.Put?
    ensures ValidRecord(PutRecord(item.tstamp, item.op.key, item.op.value))
  {
    hide LogItems;
    var i :| 0 <= i < |LogItems(segs[s])| && LogItems(segs[s])[i] == item;
    ItemValid(segs[s], i);
  }

  /** The record a live operation belongs to is the one its key's entry names, timestamp included. */
  lemma LiveEntry(v: View, last: int, c: Pass)
    requires Sound(v, last) && PassInv(v, c) && c.todo != [] && Live(v.kd, c.todo[0])
    ensures var x := c.todo[0]; v.kd[x.item.op.key] == EntryOf(x.id, x.item)
    ensures var x := c.todo[0]; At(v.segs, x.item.op.key, EntryOf(x.id, x.item), x.item.op.value)
  {
    hide LogItems, Timed, Split, Copies, ScannedOnce, Reaches, Settled;
    var x := c.todo[0];
    var k := x.item.op.key;
    assert LocatedAt(v, k);
    SamePos(v.segs, x.id, x.item, Item(Put(k, v.store[k]), v.kd[k].pos, v.kd[k].tstamp));
  }

  lemma ScanTodo(v: View, c: Pass)
    requires PassInv(v, c) && c.todo != []
    ensures TodoOk(v, ScanOne(v.kd, c)) && Split(v, ScanOne(v.kd, c))
  {
  }

  lemma ScanCopies(v: View, last: int, c: Pass)
    requires Sound(v, last) && PassInv(v, c) && c.todo != [] && Live(v.kd, c.todo[0])
    ensures Copies(v, ScanOne(v.kd, c))
  {
    hide LogItems, Timed, Split, Reaches, ValidRecord, LogSize, At;
    var x, d := c.todo[0], ScanOne(v.kd, c);
    LiveEntry(v, last, c);
    CopyValid(v.segs, x.id, x.item);
    forall i | 0 <= i < |c.rewrites| ensures c.rewrites[i].key != x.item.op.key {
      assert SettledAt(v, c, x.item.op.key);
      assert v.kd[x.item.op.key] == EntryOf(x.id, x.item);
    }
    forall i | 0 <= i < |d.merged| ensures Copied(v.segs, d, i) {
      assert d.merged[..i] == c.merged[..i];
      if i < |c.merged| {
        assert Copied(v.segs, c, i);
      }
    }
  }

  lemma ScanReaches(v: View, last: int, c: Pass)
    requires Sound(v, last) && PassInv(v, c) && c.todo != []
    ensures Reaches(v, ScanOne(v.kd, c))
  {
    hide LogItems, Timed, Split, Copies, ScannedOnce, Settled;
    var x, d := c.todo[0], ScanOne(v.kd, c);
    forall k | k in v.kd && v.kd[k].fileID in d.cands
      ensures Pending(d, k, v.kd[k]) || Rewritten(d, k, v.kd[k])
    {
      assert ReachesAt(v, c, k) && LocatedAt(v, k);
      if Rewritten(c, k, v.kd[k]) {
        var i :| Matches(c.rewrites, k, v.kd[k], i);
        assert Matches(d.rewrites, k, v.kd[k], i);
      } else {
        var i :| 0 <= i < |c.todo| && c.todo[i].id == v.kd[k].fileID && c.todo[i].item.pos == v.kd[k].pos;
        if i > 0 {
          assert d.todo[i - 1] == c.todo[i];
        } else {
          SamePos(v.segs, x.id, x.item, Item(Put(k, v.store[k]), v.kd[k].pos, v.kd[k].tstamp));
          assert Live(v.kd, x);
          assert Matches(d.rewrites, k, v.kd[k], |c.rewrites|);
        }
      }
    }
  }

  lemma ScanSettled(v: View, last: int, c: Pass)
    requires Sound(v, last) && PassInv(v, c) && c.todo != [] && Live(v.kd, c.todo[0])
    ensures Settled(v, ScanOne(v.kd, c)) && ScannedOnce(ScanOne(v.kd, c))
  {
    hide LogItems, Timed, Split, Copies, Reaches, Located;
    LiveEntry(v, last, c);
    forall k ensures SettledAt(v, ScanOne(v.kd, c), k) {
      assert SettledAt(v, c, k);
    }
  }

  lemma ScanKeeps(v: View, last: int, c: Pass)
    requires Sound(v, last) && PassInv(v, c) && c.todo != []
    ensures PassInv(v, ScanOne(v.kd, c))
  {
    hide Sound, Split, TodoOk, Copied, ScannedOnce, Reaches, Settled;
    ScanTodo(v, c);
    ScanReaches(v, last, c);
    if Live(v.kd, c.todo[0]) {
      ScanCopies(v, last, c);
      ScanSettled(v, last, c);
    } else {
      ScanDead(v, c);
    }
  }

  lemma ScanDead(v: View, c: Pass)
    requires PassInv(v, c) && c.todo != [] && !Live(v.kd, c.todo[0])
    ensures var d := ScanOne(v.kd, c); Copies(v, d) && ScannedOnce(d) && Settled(v, d)
  {
    hide LogItems, LogSize, ValidRecord, At;
    var d := ScanOne(v.kd, c);
    forall i | 0 <= i < |d.merged| ensures Copied(v.segs, d, i) {
      assert Copied(v.segs, c, i);
    }
    forall k ensures SettledAt(v, d, k) {
      assert SettledAt(v, c, k);
    }
  }

  // ---------------------------------------------------------------- the writer in between

  lemma WritePassScope(v: View, last: int, c: Pass, r: Record)
    requires Sound(v, last) && PassInv(v, c) && ValidRecord(r) && last < r.tstamp
    ensures Split(Write(v, r), c) && TodoOk(Write(v, r), c) && Copies(Write(v, r), c)
  {
    hide LogItems, RecordItems, ValidRecord, Located, LogSize;
    forall s, item
      ensures Has(Write(v, r).segs, s, item) <==>
        Has(v.segs, s, item) || (s == v.active && item in RecordItems(r, LogSize(v.segs[v.active])))
    {
      HasAfterWrite(v, r, s, item);
    }
    forall i | 0 <= i < |c.merged| ensures Copied(Write(v, r).segs, c, i) {
      assert Copied(v.segs, c, i);
    }
  }

  lemma WritePassKey(v: View, last: int, c: Pass, r: Record, k: Key)
    requires Dated(v, last) && Split(v, c) && SettledAt(v, c, k)
    ensures SettledAt(Write(v, r), c, k)
    ensures ReachesAt(v, c, k) ==> ReachesAt(Write(v, r), c, k)
  {
    hide LogItems, RecordItems, LogSize, Has;
    assert v.active in v.segs by { TimedActive(v, last); }
    var w := Write(v, r);
    var items := RecordItems(r, LogSize(v.segs[v.active]));
    var m := LastDecides(v.kd, v.store, v.active, items, k);
    if k !in w.kd && exists i :: 0 <= i < |c.rewrites| && c.rewrites[i].key == k {
      if Untouched(items, k) {
        var i :| 0 <= i < |c.rewrites| && c.rewrites[i].key == k;
        var s, d :| s !in c.cands && Has(v.segs, s, d) && d.op == Delete(k);
        HasAfterWrite(v, r, s, d);
      } else {
        HasAfterWrite(v, r, v.active, items[m]);
      }
      assert GoneSince(w.segs, c.cands, k);
    }
  }

  lemma WritePassKeeps(v: View, last: int, c: Pass, r: Record)
    requires Sound(v, last) && PassInv(v, c) && ValidRecord(r) && last < r.tstamp
    ensures v.active in v.segs && PassInv(Write(v, r), c)
  {
    hide Write, LocatedAt, Timed, ValidSegs, ValidRecord, Split, TodoOk, Copies, ScannedOnce, ReachesAt, SettledAt;
    assert v.active in v.segs by { TimedActive(v, last); }
    WritePassScope(v, last, c, r);
    forall k ensures SettledAt(Write(v, r), c, k) && ReachesAt(Write(v, r), c, k) {
      assert SettledAt(v, c, k) && ReachesAt(v, c, k);
      WritePassKey(v, last, c, r, k);
    }
  }

  lemma RotatePassKey(v: View, last: int, c: Pass, next: nat, k: Key)
    requires next !in v.segs && SettledAt(v, c, k)
    ensures SettledAt(Rotate(v, next, last), c, k)
  {
    hide LogItems;
    var w := Rotate(v, next, last);
    if k !in w.kd && exists i :: 0 <= i < |c.rewrites| && c.rewrites[i].key == k {
      var i :| 0 <= i < |c.rewrites| && c.rewrites[i].key == k;
      var s, d :| s !in c.cands && Has(v.segs, s, d) && d.op == Delete(k);
      assert Has(w.segs, s, d);
    }
  }

  lemma RotatePassKeeps(v: View, last: int, c: Pass, next: nat)
    requires Sound(v, last) && PassInv(v, c) && next !in v.segs && next != c.mid
    ensures PassInv(Rotate(v, next, last), c)
  {
    hide LogItems, LogSize, ValidRecord, Located, SettledAt;
    var w := Rotate(v, next, last);
    forall s, item ensures Has(w.segs, s, item) <==> Has(v.segs, s, item) {
      HasAfterRotate(v, next, last, s, item);
    }
    forall i | 0 <= i < |c.merged| ensures Copied(w.segs, c, i) {
      assert Copied(v.segs, c, i);
    }
    forall k ensures SettledAt(w, c, k) && ReachesAt(w, c, k) {
      assert SettledAt(v, c, k) && ReachesAt(v, c, k);
      RotatePassKey(v, last, c, next, k);
    }
  }

  // ---------------------------------------------------------------- the commit

  /** The inputs leave, the merged segment enters if it holds anything, and the rewrites are swapped in. */
  ghost function Commit(v: View, c: Pass): View {
    var kept := map s | s in v.segs && s !in c.cands :: v.segs[s];
    v.(gen := v.gen + 1,
       segs := if c.rewrites == [] then kept else kept[c.mid := c.merged],
       kd := SwapAll(v.kd, c.rewrites))
  }

  ghost function CopyItem(c: Pass, i: int): Item
    requires 0 <= i < |c.merged|
  {
    Item(Put(c.merged[i].key, c.merged[i].value),
         LogSize(c.merged[..i]) + HEADER_SIZE + |c.merged[i].key|, c.merged[i].tstamp)
  }

  lemma {:induction false} MergedItems(c: Pass, n: nat)
    requires n <= |c.merged| && forall i :: 0 <= i < |c.merged| ==> c.merged[i].flag == FLAG_PUT
    ensures |LogItems(c.merged[..n])| == n
    ensures forall i :: 0 <= i < n ==> LogItems(c.merged[..n])[i] == CopyItem(c, i)
  {
    if n > 0 {
      MergedItems(c, n - 1);
      assert c.merged[..n] == c.merged[..n - 1] + [c.merged[n - 1]];
      Append(c.merged[..n - 1], c.merged[n - 1]);
    }
  }

  lemma CopyFlags(v: View, c: Pass)
    requires Copies(v, c)
    ensures forall i :: 0 <= i < |c.merged| ==> c.merged[i].flag == FLAG_PUT
  {
    forall i | 0 <= i < |c.merged| ensures c.merged[i].flag == FLAG_PUT {
      assert Copied(v.segs, c, i);
    }
  }

  lemma HasAfterCommit(v: View, c: Pass, s: nat, item: Item)
    requires Copies(v, c) && c.mid !in v.segs
    ensures Has(Commit(v, c).segs, s, item) <==>
      if s == c.mid then exists i :: 0 <= i < |c.merged| && item == CopyItem(c, i)
      else s !in c.cands && Has(v.segs, s, item)
  {
    hide LogItems, Copied, CopyItem;
    if s == c.mid {
      CopyFlags(v, c);
      MergedItems(c, |c.merged|);
      assert c.merged[..|c.merged|] == c.merged;
    }
  }

  /** What copy i is a copy of. */
  lemma CopyOf(v: View, c: Pass, i: int)
    requires Copies(v, c) && Split(v, c) && 0 <= i < |c.merged|
    ensures var r := c.rewrites[i];
      CopyItem(c, i) == Item(Put(r.key, c.merged[i].value), r.newEntry.pos, r.newEntry.tstamp)
      && r.newEntry == Entry(c.mid, r.newEntry.pos, |c.merged[i].value|, r.oldEntry.tstamp)
      && r.oldEntry.fileID in c.cands && At(v.segs, r.key, r.oldEntry, c.merged[i].value)
      && r.oldEntry.tstamp <= c.cut
  {
    hide LogItems, LogSize, ValidRecord;
    assert Copied(v.segs, c, i);
  }

  /** The commit keeps k: its record is outside the inputs, or has its rewrite. */
  ghost predicate Kept(v: View, c: Pass, k: Key) {
    k in v.kd && v.kd[k].fileID in c.cands ==> Rewritten(c, k, v.kd[k])
  }

  /** What the swaps leave at k: the new entry where k's record was an input, the old entry elsewhere. */
  lemma SwappedEntry(v: View, last: int, c: Pass, k: Key) returns (i: int)
    requires Dated(v, last) && PassCore(v, c) && LocatedAt(v, k) && Kept(v, c, k) && k in v.kd
    ensures k in Commit(v, c).kd
    ensures var e := v.kd[k];
      if e.fileID in c.cands then
        Matches(c.rewrites, k, e, i) && Commit(v, c).kd[k] == c.rewrites[i].newEntry
        && c.merged[i].value == v.store[k]
      else Commit(v, c).kd[k] == e
  {
    hide LogItems, LogSize, ValidRecord, Timed, ScannedOnce, SwapAll, TodoOk;
    var e := v.kd[k];
    i := 0;
    SwapAllAt(v.kd, c.rewrites, k);
    forall j | Matches(c.rewrites, k, e, j) ensures e.fileID in c.cands {
      CopyOf(v, c, j);
    }
    if e.fileID in c.cands {
      i :| Matches(c.rewrites, k, e, i);
      CopyOf(v, c, i);
      SamePos(v.segs, e.fileID, Item(Put(k, v.store[k]), e.pos, e.tstamp),
              Item(Put(k, c.merged[i].value), e.pos, e.tstamp));
    }
  }

  lemma CommitKey(v: View, c: Pass, k: Key)
    requires Copies(v, c)
    ensures k in Commit(v, c).kd <==> k in v.kd
  {
    hide SwapAll, Copied;
    SwapAllAt(v.kd, c.rewrites, k);
  }

  lemma CommitLocated(v: View, last: int, c: Pass, k: Key)
    requires Dated(v, last) && PassCore(v, c) && LocatedAt(v, k) && Kept(v, c, k)
    ensures LocatedAt(Commit(v, c), k)
  {
    hide LogItems, LogSize, ValidRecord, Timed, ScannedOnce, SwapAll, TodoOk, CopyItem;
    var w := Commit(v, c);
    CommitKey(v, c, k);
    if k in w.kd {
      var i := SwappedEntry(v, last, c, k);
      var e := w.kd[k];
      if v.kd[k].fileID in c.cands {
        CopyOf(v, c, i);
      }
      HasAfterCommit(v, c, e.fileID, Item(Put(k, v.store[k]), e.pos, e.tstamp));
    }
  }

  lemma CommitTimed(v: View, last: int, c: Pass)
    requires Dated(v, last) && Split(v, c) && Copies(v, c)
    ensures Dated(Commit(v, c), last)
  {
    hide LogItems, LogSize, SwapAll, CopyItem, ValidRecord;
    var w := Commit(v, c);
    forall s, item | Has(w.segs, s, item)
      ensures item.tstamp <= last && (if s == v.active then v.seal < item.tstamp else item.tstamp <= v.seal)
    {
      HasAfterCommit(v, c, s, item);
      if s == c.mid {
        var i :| 0 <= i < |c.merged| && item == CopyItem(c, i);
        CopyOf(v, c, i);
      }
    }
    forall i | 0 <= i < |c.merged| ensures ValidRecord(c.merged[i]) {
      assert Copied(v.segs, c, i);
    }
  }

  lemma CommitNewest(v: View, last: int, c: Pass, k: Key)
    requires Dated(v, last) && PassCore(v, c) && KeyInv(v, k) && Kept(v, c, k)
    ensures NewestAt(Commit(v, c), k)
  {
    hide LogItems, LogSize, ValidRecord, ScannedOnce, SwapAll, TodoOk, CopyItem, Copied, DeletedAt;
    var w := Commit(v, c);
    CommitKey(v, c, k);
    forall s, item | Has(w.segs, s, item) && item.op.key == k && k in w.kd
      ensures NotNewer(s, item, w.kd[k])
    {
      HasAfterCommit(v, c, s, item);
      var i := SwappedEntry(v, last, c, k);
      if s == c.mid {
        var j :| 0 <= j < |c.merged| && item == CopyItem(c, j);
        CopyOf(v, c, j);
        if v.kd[k].fileID in c.cands {
          assert i == j;
        }
      }
    }
  }

  lemma CommitDeleted(v: View, last: int, c: Pass, k: Key)
    requires Dated(v, last) && PassCore(v, c) && KeyInv(v, k) && SettledAt(v, c, k)
    ensures DeletedAt(Commit(v, c), k)
  {
    hide LogItems, LogSize, ValidRecord, ScannedOnce, SwapAll, TodoOk, CopyItem, Copied, NewestAt, LocatedAt;
    var w := Commit(v, c);
    CommitKey(v, c, k);
    forall s, item | Has(w.segs, s, item) && item.op.Put? && item.op.key == k && k !in w.kd
      ensures Hidden(w.segs, s, item)
    {
      HasAfterCommit(v, c, s, item);
      if s == c.mid {
        var i :| 0 <= i < |c.merged| && item == CopyItem(c, i);
        CopyOf(v, c, i);
        var t, d :| t !in c.cands && Has(v.segs, t, d) && d.op == Delete(k);
        HasAfterCommit(v, c, t, d);
        assert Hides(t, d, s, item);
      } else {
        var t, d :| Has(v.segs, t, d) && Hides(t, d, s, item);
        HasAfterCommit(v, c, t, d);
      }
    }
  }

  /** A key that the commit keeps is as recoverable after it as before. */
  lemma CommitKeepsKey(v: View, last: int, c: Pass, k: Key)
    requires Dated(v, last) && PassCore(v, c) && KeyInv(v, k) && SettledAt(v, c, k) && Kept(v, c, k)
    ensures KeyInv(Commit(v, c), k)
  {
    hide Commit, PassCore, Dated, LocatedAt, NewestAt, DeletedAt, SettledAt, Kept;
    CommitLocated(v, last, c, k);
    CommitNewest(v, last, c, k);
    CommitDeleted(v, last, c, k);
  }

  /** A pass that has looked at everything keeps every key. */
  lemma PassKeeps(v: View, c: Pass, k: Key)
    requires ReachesAt(v, c, k) && c.todo == []
    ensures Kept(v, c, k)
  {
  }

  /** The commit keeps the running view sound, whatever the writer did while the pass was scanning: no entry is left in
      an input. */
  lemma CommitSound(v: View, last: int, c: Pass)
    requires Sound(v, last) && PassInv(v, c) && c.todo == []
    ensures Sound(Commit(v, c), last)
  {
    hide Commit, Split, Copies, TodoOk, ScannedOnce, SettledAt, ReachesAt, LocatedAt, Timed, ValidSegs, Kept;
    CommitTimed(v, last, c);
    forall k ensures LocatedAt(Commit(v, c), k) {
      assert ReachesAt(v, c, k) && LocatedAt(v, k);
      PassKeeps(v, c, k);
      CommitLocated(v, last, c, k);
    }
  }

  /** And it keeps every key of it recoverable. */
  lemma CommitKeeps(v: View, last: int, c: Pass)
    requires ViewInv(v, last) && PassInv(v, c) && c.todo == []
    ensures ViewInv(Commit(v, c), last)
  {
    hide Commit, Split, Copies, TodoOk, ScannedOnce, SettledAt, ReachesAt, KeyInv, Timed, ValidSegs, Kept;
    CommitTimed(v, last, c);
    forall k ensures KeyInv(Commit(v, c), k) {
      assert ReachesAt(v, c, k) && SettledAt(v, c, k) && KeyInv(v, k);
      PassKeeps(v, c, k);
      CommitKeepsKey(v, last, c, k);
    }
  }

  /** The marks of a pass play no part in any of this. */
  lemma MarksKeepKey(v: View, c: Pass, seen: nat, ready: bool, k: Key)
    ensures var d := c.(seen := seen, ready := ready);
      (SettledAt(v, c, k) <==> SettledAt(v, d, k)) && (ReachesAt(v, c, k) <==> ReachesAt(v, d, k))
  {
    var d := c.(seen := seen, ready := ready);
    forall e ensures (Pending(c, k, e) <==> Pending(d, k, e)) && (Rewritten(c, k, e) <==> Rewritten(d, k, e)) {
    }
  }

  lemma MarksKeep(v: View, c: Pass, seen: nat, ready: bool)
    requires PassCore(v, c)
    ensures PassCore(v, c.(seen := seen, ready := ready))
    ensures PassInv(v, c) ==> PassInv(v, c.(seen := seen, ready := ready))
  {
    hide LogItems, LogSize, ValidRecord, At, Has, SettledAt, ReachesAt;
    var d := c.(seen := seen, ready := ready);
    forall i | 0 <= i < |d.merged| ensures Copied(v.segs, d, i) {
      assert Copied(v.segs, c, i);
    }
    forall k | PassInv(v, c) ensures SettledAt(v, d, k) && ReachesAt(v, d, k) {
      assert SettledAt(v, c, k) && ReachesAt(v, c, k);
      MarksKeepKey(v, c, seen, ready, k);
    }
  }

  // ---------------------------------------------------------------- views that lag behind

  /** v is u without some of the records at the end of its active segment. */
  ghost predicate Lags(v: View, u: View) {
    && v.active == u.active && v.seal == u.seal && v.segs.Keys == u.segs.Keys
    && forall i :: i in v.segs ==> v.segs[i] <= u.segs[i] && (i != v.active ==> v.segs[i] == u.segs[i])
  }

  lemma LagsSelf(v: View)
    ensures Lags(v, v)
  {
  }

  lemma LagsWrite(v: View, u: View, r: Record)
    requires Lags(v, u) && u.active in u.segs
    ensures Lags(v, Write(u, r))
  {
  }

  lemma {:induction false} PrefixItems(a: Log, b: Log)
    requires a <= b
    ensures LogItems(a) <= LogItems(b)
    decreases |b|
  {
    hide RecordItems;
    if a != b {
      PrefixItems(a, b[..|b| - 1]);
    }
  }

  lemma LagsHas(v: View, u: View, s: nat, item: Item)
    requires Lags(v, u) && Has(v.segs, s, item)
    ensures Has(u.segs, s, item)
  {
    hide LogItems;
    PrefixItems(v.segs[s], u.segs[s]);
  }

  /** What a pass over u is a pass over v, as far as the files are concerned. */
  lemma LagCore(v: View, u: View, c: Pass)
    requires Lags(v, u) && PassCore(u, c)
    ensures PassCore(v, c)
  {
    hide LogItems, LogSize, ValidRecord;
    forall s, item | Has(v.segs, s, item) ensures Has(u.segs, s, item) {
      LagsHas(v, u, s, item);
    }
    forall i | 0 <= i < |c.merged| ensures Copied(v.segs, c, i) {
      assert Copied(u.segs, c, i);
    }
  }

  /** A pass that has copied nothing may still be given another id. */
  lemma RenumberKey(v: View, c: Pass, mid: nat, k: Key)
    requires c.rewrites == []
    ensures SettledAt(v, c.(mid := mid), k)
    ensures ReachesAt(v, c, k) ==> ReachesAt(v, c.(mid := mid), k)
  {
    var d := c.(mid := mid);
    forall e ensures (Pending(c, k, e) <==> Pending(d, k, e)) && (Rewritten(c, k, e) <==> Rewritten(d, k, e)) {
    }
  }

  lemma Renumber(v: View, c: Pass, mid: nat)
    requires PassInv(v, c) && c.merged == [] && c.rewrites == [] && mid !in v.segs
    ensures PassInv(v, c.(mid := mid))
  {
    hide LogItems, At, SettledAt, ReachesAt;
    forall k ensures SettledAt(v, c.(mid := mid), k) && ReachesAt(v, c.(mid := mid), k) {
      assert ReachesAt(v, c, k);
      RenumberKey(v, c, mid, k);
    }
  }

  /** A record that is live in u and sealed is live, at the same place, in every view that lags behind u. */
  lemma LagEntry(v: View, u: View, last: int, k: Key)
    requires Dated(v, last) && Dated(u, last) && KeyInv(v, k) && KeyInv(u, k) && Lags(v, u)
    requires k in u.kd && u.kd[k].fileID != u.active
    ensures k in v.kd && v.kd[k] == u.kd[k]
  {
    hide LogItems, Timed;
    var e := u.kd[k];
    var item := Item(Put(k, u.store[k]), e.pos, e.tstamp);
    assert Has(v.segs, e.fileID, item);
    if k !in v.kd {
      var t, d :| Has(v.segs, t, d) && Hides(t, d, e.fileID, item);
      LagsHas(v, u, t, d);
    } else {
      var item' := Item(Put(k, v.store[k]), v.kd[k].pos, v.kd[k].tstamp);
      assert NotNewer(e.fileID, item, v.kd[k]);
      LagsHas(v, u, v.kd[k].fileID, item');
      assert NotNewer(v.kd[k].fileID, item', e);
      SamePos(v.segs, e.fileID, item, item');
    }
  }

  /** Looking up one operation in u leaves k settled in every view that lags behind u. */
  lemma LagScan(v: View, u: View, last: int, c: Pass, k: Key)
    requires Dated(v, last) && Sound(u, last) && Lags(v, u) && KeyInv(v, k) && KeyInv(u, k)
    requires SettledAt(v, c, k) && PassInv(u, c) && c.todo != []
    ensures SettledAt(v, ScanOne(u.kd, c), k)
  {
    hide LogItems, LogSize, Copied, Has, Reaches, Dated, KeyInv, ScannedOnce;
    var x := c.todo[0];
    if Live(u.kd, x) && x.item.op.key == k {
      LiveEntry(u, last, c);
      assert x.id != u.active;
      LagEntry(v, u, last, k);
    }
  }

  lemma LagCommit(v: View, u: View, c: Pass)
    requires Lags(v, u) && v.active !in c.cands && v.active != c.mid
    ensures Lags(Commit(v, c), Commit(u, c))
  {
  }
}
