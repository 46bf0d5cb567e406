/** A view: a manifest's segments with the keydir and the plain map they stand for.
    The running engine is one view; each outcome a crash may leave is another. */
module View {
  import opened Wrappers
  import opened Record
  import opened Log
  import opened Keydirs

  type Segs = map<nat, Log>

  /** gen numbers the manifests in order of publication, seal is the clock when the active segment was
      opened, count the number of records written so far; store is what Get must answer. */
  datatype View = View(gen: nat, segs: Segs, active: nat, seal: int, kd: Keydir, store: Store, count: nat)

  // ---------------------------------------------------------------- what a view keeps

  ghost predicate Has(segs: Segs, s: nat, item: Item) {
    s in segs && item in LogItems(segs[s])
  }

  ghost predicate ValidSegs(segs: Segs) {
    forall s :: s in segs ==> ValidLog(segs[s])
  }

  /** Entry e names a record that puts val at k, in a segment that is there. */
  ghost predicate At(segs: Segs, k: Key, e: Entry, val: Value) {
    e.len == |val| && Has(segs, e.fileID, Item(Put(k, val), e.pos, e.tstamp))
  }

  /** The entry of k does not dangle, and what it points at is the plain map's value. */
  ghost predicate LocatedAt(v: View, k: Key) {
    (k in v.kd <==> k in v.store) && (k in v.kd ==> At(v.segs, k, v.kd[k], v.store[k]))
  }

  ghost predicate Located(v: View) {
    forall k :: LocatedAt(v, k)
  }

  /** No record is later than the clock, and the active segment is later than all the others. */
  ghost predicate Timed(v: View, last: int) {
    && v.active in v.segs && v.seal <= last
    && forall s, item :: Has(v.segs, s, item) ==>
         item.tstamp <= last && (if s == v.active then v.seal < item.tstamp else item.tstamp <= v.seal)
  }

  ghost predicate NotNewer(s: nat, item: Item, e: Entry) {
    item.tstamp < e.tstamp || (item.tstamp == e.tstamp && s == e.fileID && item.pos <= e.pos)
  }

  /** If k is live, its entry is the newest record of k anywhere. */
  ghost predicate NewestAt(v: View, k: Key) {
    forall s, item :: Has(v.segs, s, item) && item.op.key == k && k in v.kd ==> NotNewer(s, item, v.kd[k])
  }

  /** Tombstone d of segment t is newer than the put item of segment s. */
  ghost predicate Hides(t: nat, d: Item, s: nat, item: Item) {
    && d.op == Delete(item.op.key)
    && if s == t then item.tstamp <= d.tstamp && item.pos < d.pos else item.tstamp < d.tstamp
  }

  ghost predicate Hidden(segs: Segs, s: nat, item: Item) {
    exists t, d :: Has(segs, t, d) && Hides(t, d, s, item)
  }

  /** If k is gone, every put of it has a newer tombstone that is still there. */
  ghost predicate DeletedAt(v: View, k: Key) {
    forall s, item :: Has(v.segs, s, item) && item.op.Put? && item.op.key == k && k !in v.kd ==> Hidden(v.segs, s, item)
  }

  /** The segments are well formed and their records dated. */
  ghost predicate Dated(v: View, last: int) {
    ValidSegs(v.segs) && Timed(v, last)
  }

  /** All that reading needs. */
  ghost predicate Sound(v: View, last: int) {
    Dated(v, last) && Located(v)
  }

  /** All that rebuilding the keydir at k needs. */
  ghost predicate KeyInv(v: View, k: Key) {
    LocatedAt(v, k) && NewestAt(v, k) && DeletedAt(v, k)
  }

  ghost predicate ViewInv(v: View, last: int) {
    Dated(v, last) && forall k :: KeyInv(v, k)
  }

  // ---------------------------------------------------------------- a write

  ghost function Write(v: View, r: Record): View
    requires v.active in v.segs
  {
    var log := v.segs[v.active];
    var items := RecordItems(r, LogSize(log));
    v.(segs := v.segs[v.active := log + [r]],
       kd := PublishAll(v.kd, v.active, items),
       store := ApplyAll(v.store, items),
       count := v.count + 1)
  }

  lemma HasAfterWrite(v: View, r: Record, s: nat, item: Item)
    requires v.active in v.segs
    ensures Has(Write(v, r).segs, s, item) <==>
      Has(v.segs, s, item) || (s == v.active && item in RecordItems(r, LogSize(v.segs[v.active])))
  {
    Append(v.segs[v.active], r);
  }

  lemma WriteLocated(v: View, last: int, r: Record, k: Key)
    requires Dated(v, last) && LocatedAt(v, k)
    ensures LocatedAt(Write(v, r), k)
  {
    hide RecordItems, LogItems, Timed;
    assert v.active in v.segs by { TimedActive(v, last); }
    var w := Write(v, r);
    var items := RecordItems(r, LogSize(v.segs[v.active]));
    var m := LastDecides(v.kd, v.store, v.active, items, k);
    if k in w.kd {
      var item := Item(Put(k, w.store[k]), w.kd[k].pos, w.kd[k].tstamp);
      HasAfterWrite(v, r, w.kd[k].fileID, item);
      if !Untouched(items, k) {
        assert items[m] == item;
      }
    }
  }

  lemma WriteTimed(v: View, last: int, r: Record)
    requires Dated(v, last) && ValidRecord(r) && last < r.tstamp
    ensures Dated(Write(v, r), r.tstamp)
  {
    hide RecordItems, LogItems, ValidRecord;
    var w := Write(v, r);
    forall s, item | Has(w.segs, s, item)
      ensures item.tstamp <= r.tstamp && (if s == v.active then v.seal < item.tstamp else item.tstamp <= v.seal)
    {
      HasAfterWrite(v, r, s, item);
    }
  }

  lemma WriteNewest(v: View, last: int, r: Record, k: Key)
    requires Dated(v, last) && KeyInv(v, k) && ValidRecord(r) && last < r.tstamp
    ensures NewestAt(Write(v, r), k)
  {
    hide RecordItems, LogItems, ValidRecord, DeletedAt, LocatedAt;
    var w := Write(v, r);
    var off := LogSize(v.segs[v.active]);
    var items := RecordItems(r, off);
    RecordItemsOrdered(r, off);
    var m := LastDecides(v.kd, v.store, v.active, items, k);
    forall s, item | Has(w.segs, s, item) && item.op.key == k && k in w.kd
      ensures NotNewer(s, item, w.kd[k])
    {
      HasAfterWrite(v, r, s, item);
      if !Has(v.segs, s, item) {
        var i :| 0 <= i < |items| && items[i] == item;
        assert i <= m;
      }
    }
  }

  lemma WriteDeleted(v: View, last: int, r: Record, k: Key)
    requires Dated(v, last) && KeyInv(v, k) && ValidRecord(r) && last < r.tstamp
    ensures DeletedAt(Write(v, r), k)
  {
    hide RecordItems, LogItems, ValidRecord, NewestAt, LocatedAt;
    var w := Write(v, r);
    var off := LogSize(v.segs[v.active]);
    var items := RecordItems(r, off);
    RecordItemsOrdered(r, off);
    var m := LastDecides(v.kd, v.store, v.active, items, k);
    forall s, item | Has(w.segs, s, item) && item.op.Put? && item.op.key == k && k !in w.kd
      ensures Hidden(w.segs, s, item)
    {
      HasAfterWrite(v, r, s, item);
      if Untouched(items, k) {
        assert Has(v.segs, s, item);
        var t, d :| Has(v.segs, t, d) && Hides(t, d, s, item);
        HasAfterWrite(v, r, t, d);
      } else {
        HasAfterWrite(v, r, v.active, items[m]);
        if !Has(v.segs, s, item) {
          var i :| 0 <= i < |items| && items[i] == item;
          assert i < m;
        } else if s == v.active {
          LogItemsOrdered(v.segs[s]);
        }
        assert Hides(v.active, items[m], s, item);
      }
    }
  }

  /** Any write of a new record keeps a view sound. */
  lemma WriteSound(v: View, last: int, r: Record)
    requires Sound(v, last) && ValidRecord(r) && last < r.tstamp
    ensures Sound(Write(v, r), r.tstamp)
  {
    hide LocatedAt, Timed, ValidRecord, ValidSegs, Write;
    assert v.active in v.segs by { TimedActive(v, last); }
    WriteTimed(v, last, r);
    forall k ensures LocatedAt(Write(v, r), k) {
      WriteLocated(v, last, r, k);
    }
  }

  /** And keeps each key recoverable. */
  lemma WriteKeepsKey(v: View, last: int, r: Record, k: Key)
    requires Dated(v, last) && KeyInv(v, k) && ValidRecord(r) && last < r.tstamp
    ensures KeyInv(Write(v, r), k)
  {
    hide LocatedAt, NewestAt, DeletedAt, Timed, ValidRecord, ValidSegs, Write;
    assert v.active in v.segs by { TimedActive(v, last); }
    WriteLocated(v, last, r, k);
    WriteNewest(v, last, r, k);
    WriteDeleted(v, last, r, k);
  }

  lemma WriteKeeps(v: View, last: int, r: Record)
    requires ViewInv(v, last) && ValidRecord(r) && last < r.tstamp
    ensures ViewInv(Write(v, r), r.tstamp)
  {
    hide KeyInv, Timed, ValidRecord, ValidSegs, Write;
    assert v.active in v.segs by { TimedActive(v, last); }
    WriteTimed(v, last, r);
    forall k ensures KeyInv(Write(v, r), k) {
      WriteKeepsKey(v, last, r, k);
    }
  }

  lemma TimedActive(v: View, last: int)
    requires Timed(v, last)
    ensures v.active in v.segs
  {
  }

  lemma DatedLater(v: View, last: int, later: int)
    requires Dated(v, last) && last <= later
    ensures Dated(v, later)
  {
  }

  // ---------------------------------------------------------------- a rotation

  /** The active segment is sealed and an empty one takes its place. */
  ghost function Rotate(v: View, next: nat, last: int): View {
    v.(gen := v.gen + 1, segs := v.segs[next := []], active := next, seal := last)
  }

  lemma HasAfterRotate(v: View, next: nat, last: int, s: nat, item: Item)
    requires next !in v.segs
    ensures Has(Rotate(v, next, last).segs, s, item) <==> Has(v.segs, s, item)
  {
  }

  lemma RotateDated(v: View, next: nat, last: int)
    requires Dated(v, last) && next !in v.segs
    ensures Dated(Rotate(v, next, last), last)
  {
    hide LogItems;
    forall s, item ensures Has(Rotate(v, next, last).segs, s, item) <==> Has(v.segs, s, item) {
      HasAfterRotate(v, next, last, s, item);
    }
  }

  lemma RotateSound(v: View, next: nat, last: int)
    requires Sound(v, last) && next !in v.segs
    ensures Sound(Rotate(v, next, last), last)
  {
    hide LogItems, Timed;
    var w := Rotate(v, next, last);
    RotateDated(v, next, last);
    forall k ensures LocatedAt(w, k) {
      assert LocatedAt(v, k);
    }
  }

  lemma RotateKeepsKey(v: View, next: nat, last: int, k: Key)
    requires KeyInv(v, k) && next !in v.segs
    ensures KeyInv(Rotate(v, next, last), k)
  {
    hide LogItems, NotNewer;
    var w := Rotate(v, next, last);
    forall s, item ensures Has(w.segs, s, item) <==> Has(v.segs, s, item) {
      HasAfterRotate(v, next, last, s, item);
    }
    forall s, item | Has(w.segs, s, item) && item.op.Put? && item.op.key == k && k !in w.kd
      ensures Hidden(w.segs, s, item)
    {
      var t, d :| Has(v.segs, t, d) && Hides(t, d, s, item);
      assert Has(w.segs, t, d);
    }
  }

  lemma RotateKeeps(v: View, next: nat, last: int)
    requires ViewInv(v, last) && next !in v.segs
    ensures ViewInv(Rotate(v, next, last), last)
  {
    hide KeyInv, Timed;
    RotateDated(v, next, last);
    forall k ensures KeyInv(Rotate(v, next, last), k) {
      RotateKeepsKey(v, next, last, k);
    }
  }

  // ---------------------------------------------------------------- a read

  /** The bytes an entry points at. */
  ghost function ReadEntry(segs: Segs, e: Entry): Option<Value> {
    if e.fileID !in segs || !ValidLog(segs[e.fileID]) then None
    else
      var b := Print(segs[e.fileID]);
      if e.pos + e.len <= |b| then Some(b[e.pos..e.pos + e.len]) else None
  }

  /** An entry that names a record reads its value. */
  lemma AtReads(segs: Segs, k: Key, e: Entry, val: Value)
    requires ValidSegs(segs) && At(segs, k, e, val)
    ensures ReadEntry(segs, e) == Some(val)
  {
    hide LogItems, Print;
    var log := segs[e.fileID];
    var i :| 0 <= i < |LogItems(log)| && LogItems(log)[i] == Item(Put(k, val), e.pos, e.tstamp);
    LogItemsShown(log, i);
  }

  lemma EntryReads(v: View, last: int, k: Key)
    requires Sound(v, last) && k in v.kd
    ensures k in v.store && ReadEntry(v.segs, v.kd[k]) == Some(v.store[k])
  {
    hide Timed, LogItems, Print, ReadEntry;
    assert LocatedAt(v, k);
    AtReads(v.segs, k, v.kd[k], v.store[k]);
  }
}
