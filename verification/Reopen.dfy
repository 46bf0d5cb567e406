/** What Open rebuilds from the segments of a view, and when that is the keydir Close left behind. */
module Reopen {
  import opened Wrappers
  import opened Record
  import opened Log
  import opened Keydirs
  import opened View
  import opened Compaction

  /** putIfNewer for a put; a tombstone deletes what is not newer than itself. */
  function Recover1(kd: Keydir, x: TItem): Keydir {
    var k := x.item.op.key;
    if k in kd && x.item.tstamp < kd[k].tstamp then kd
    else if x.item.op.Put? then kd[k := EntryOf(x.id, x.item)]
    else kd - {k}
  }

  function Recover(kd: Keydir, items: seq<TItem>): Keydir {
    if items == [] then kd
    else Recover1(Recover(kd, items[..|items| - 1]), items[|items| - 1])
  }

  /** The clock after a scan of a log: the largest timestamp of a record, or the clock before it. */
  function LogClock(last: int, log: Log): int {
    if log == [] then last else
      var before := LogClock(last, log[..|log| - 1]);
      if log[|log| - 1].tstamp > before then log[|log| - 1].tstamp else before
  }

  /** The clock after scanning the segments of order. */
  function SegsClock(last: int, order: seq<nat>, segs: Segs): int
    requires forall i :: 0 <= i < |order| ==> order[i] in segs
  {
    if order == [] then last else
      LogClock(SegsClock(last, order[..|order| - 1], segs), segs[order[|order| - 1]])
  }

  lemma {:induction false} LogClockBounds(last: int, log: Log)
    ensures last <= LogClock(last, log)
    ensures forall i :: 0 <= i < |LogItems(log)| ==> LogItems(log)[i].tstamp <= LogClock(last, log)
  {
    hide RecordItems;
    if log != [] {
      LogClockBounds(last, log[..|log| - 1]);
    }
  }

  /** The recovered clock is no earlier than any record scanned. */
  lemma {:induction false} SegsClockBounds(last: int, order: seq<nat>, segs: Segs, s: nat, item: Item)
    requires forall i :: 0 <= i < |order| ==> order[i] in segs
    ensures last <= SegsClock(last, order, segs)
    ensures s in order && Has(segs, s, item) ==> item.tstamp <= SegsClock(last, order, segs)
  {
    hide LogItems;
    if order != [] {
      var n := |order| - 1;
      SegsClockBounds(last, order[..n], segs, s, item);
      LogClockBounds(SegsClock(last, order[..n], segs), segs[order[n]]);
    }
  }

  lemma {:induction false} RecoverSplit(kd: Keydir, a: seq<TItem>, b: seq<TItem>)
    ensures Recover(Recover(kd, a), b) == Recover(kd, a + b)
  {
    if b == [] {
      assert a + b == a;
    } else {
      var n := |b| - 1;
      RecoverSplit(kd, a, b[..n]);
      assert (a + b)[..|a + b| - 1] == a + b[..n];
    }
  }

  // ---------------------------------------------------------------- the fold, key by key

  ghost predicate IsPut(items: seq<TItem>, k: Key, i: int) {
    0 <= i < |items| && items[i].item.op.Put? && items[i].item.op.key == k
  }

  /** A tombstone scanned after put i, and not older than it. */
  ghost predicate CoveredBy(items: seq<TItem>, k: Key, i: int, j: int)
    requires 0 <= i < |items|
  {
    i < j < |items| && items[j].item.op == Delete(k) && items[i].item.tstamp <= items[j].item.tstamp
  }

  ghost predicate Covered(items: seq<TItem>, k: Key, i: int)
    requires 0 <= i < |items|
  {
    exists j :: CoveredBy(items, k, i, j)
  }

  /** Put i is what the scan leaves at k: no tombstone covers it, and no put that is not covered is newer. */
  ghost predicate Survives(items: seq<TItem>, k: Key, i: int) {
    && IsPut(items, k, i) && !Covered(items, k, i)
    && forall j :: IsPut(items, k, j) && !Covered(items, k, j) ==>
         items[j].item.tstamp <= items[i].item.tstamp && (items[j].item.tstamp == items[i].item.tstamp ==> j <= i)
  }

  lemma CoveredLater(items: seq<TItem>, k: Key, i: int)
    requires items != [] && 0 <= i < |items| - 1
    ensures var n := |items| - 1;
      Covered(items, k, i) <==> Covered(items[..n], k, i) || CoveredBy(items, k, i, n)
  {
    var n := |items| - 1;
    forall j ensures j < n ==> (CoveredBy(items[..n], k, i, j) <==> CoveredBy(items, k, i, j)) {
    }
  }

  /** The scan ends with nothing at k exactly when a tombstone covers every put; otherwise with a survivor. */
  lemma {:induction false} RecoverAt(items: seq<TItem>, k: Key)
    ensures var kd := Recover(map[], items);
      if k in kd then exists i :: Survives(items, k, i) && kd[k] == EntryOf(items[i].id, items[i].item)
      else forall i :: IsPut(items, k, i) ==> Covered(items, k, i)
  {
    if items != [] {
      var n := |items| - 1;
      var front := items[..n];
      RecoverAt(front, k);
      forall i | 0 <= i < n
        ensures Covered(items, k, i) <==> Covered(front, k, i) || CoveredBy(items, k, i, n)
      {
        CoveredLater(items, k, i);
      }
      assert forall i :: i != n ==> (IsPut(items, k, i) <==> IsPut(front, k, i));
      RecoverStep(items, k);
    }
  }

  lemma RecoverStep(items: seq<TItem>, k: Key)
    requires items != []
    requires var n := |items| - 1; var front := items[..n]; var kd := Recover(map[], front);
      && (forall i :: 0 <= i < n ==> (Covered(items, k, i) <==> Covered(front, k, i) || CoveredBy(items, k, i, n)))
      && (forall i :: i != n ==> (IsPut(items, k, i) <==> IsPut(front, k, i)))
      && if k in kd then exists i :: Survives(front, k, i) && kd[k] == EntryOf(front[i].id, front[i].item)
         else forall i :: IsPut(front, k, i) ==> Covered(front, k, i)
    ensures var kd := Recover(map[], items);
      if k in kd then exists i :: Survives(items, k, i) && kd[k] == EntryOf(items[i].id, items[i].item)
      else forall i :: IsPut(items, k, i) ==> Covered(items, k, i)
  {
    var n := |items| - 1;
    var front, x := items[..n], items[n];
    var kd0, kd := Recover(map[], front), Recover(map[], items);
    hide Covered, Recover;
    RecoverLast(items);
    assert !Covered(items, k, n) by { NotCoveredAtEnd(items, k); }
    if x.item.op.key != k {
      if k in kd {
        var i :| Survives(front, k, i) && kd0[k] == EntryOf(front[i].id, front[i].item);
        assert Survives(items, k, i);
      }
    } else if k in kd0 && x.item.tstamp < kd0[k].tstamp {
      var i :| Survives(front, k, i) && kd0[k] == EntryOf(front[i].id, front[i].item);
      assert Survives(items, k, i);
    } else if x.item.op.Put? {
      assert Survives(items, k, n);
    }
  }

  lemma RecoverLast(items: seq<TItem>)
    requires items != []
    ensures Recover(map[], items) == Recover1(Recover(map[], items[..|items| - 1]), items[|items| - 1])
  {
  }

  lemma NotCoveredAtEnd(items: seq<TItem>, k: Key)
    requires items != []
    ensures !Covered(items, k, |items| - 1)
  {
  }

  // ---------------------------------------------------------------- a view and its recovery

  /** Some enumeration of the segments, in whatever order. */
  ghost predicate Enumerates(order: seq<nat>, ids: set<nat>) {
    && (forall i :: 0 <= i < |order| ==> order[i] in ids)
    && (forall s :: s in ids ==> s in order)
    && (forall i, j :: 0 <= i < j < |order| ==> order[i] != order[j])
  }

  ghost function Reopened(order: seq<nat>, segs: Segs): Keydir
    requires forall i :: 0 <= i < |order| ==> order[i] in segs
  {
    Recover(map[], Tagged(order, segs))
  }

  /** No record of the key is newer than this one. */
  ghost predicate Dominates(segs: Segs, s: nat, item: Item) {
    forall t, x :: Has(segs, t, x) && x.op.key == item.op.key ==> NotNewer(t, x, EntryOf(s, item))
  }

  lemma DominantSurvives(segs: Segs, order: seq<nat>, s: nat, item: Item) returns (i: int)
    requires ValidSegs(segs) && Enumerates(order, segs.Keys)
    requires Has(segs, s, item) && item.op.Put? && Dominates(segs, s, item)
    ensures Survives(Tagged(order, segs), item.op.key, i) && Tagged(order, segs)[i] == TItem(s, item)
  {
    hide LogItems;
    var items := Tagged(order, segs);
    i := TaggedAll(order, segs, s, item);
    forall j | 0 <= j < |items| && items[j].item.op.key == item.op.key
      ensures items[j].item.tstamp <= item.tstamp && (items[j].item.tstamp == item.tstamp ==> j <= i)
    {
      TaggedHas(order, segs, j);
      if i < j {
        TaggedOrdered(order, segs, i, j);
      }
    }
  }

  /** In whatever order the segments are scanned, a put with no newer record of its key is what recovery keeps. */
  lemma DominantRecovered(segs: Segs, order: seq<nat>, s: nat, item: Item)
    requires ValidSegs(segs) && Enumerates(order, segs.Keys)
    requires Has(segs, s, item) && item.op.Put? && Dominates(segs, s, item)
    ensures item.op.key in Reopened(order, segs) && Reopened(order, segs)[item.op.key] == EntryOf(s, item)
  {
    hide Recover, Tagged, Dominates, Has;
    var items, k := Tagged(order, segs), item.op.key;
    var i := DominantSurvives(segs, order, s, item);
    RecoverAt(items, k);
    var j :| Survives(items, k, j) && Recover(map[], items)[k] == EntryOf(items[j].id, items[j].item);
    assert i == j;
  }

  /** Scan order does not matter for a key whose newest record is a put: recovery ends with that put. */
  lemma PutsRecovered(v: View, last: int, order: seq<nat>, k: Key)
    requires Dated(v, last) && KeyInv(v, k) && Enumerates(order, v.segs.Keys) && k in v.kd
    ensures k in Reopened(order, v.segs) && Reopened(order, v.segs)[k] == v.kd[k]
  {
    hide LogItems, Timed, DeletedAt, Reopened;
    var e := v.kd[k];
    DominantRecovered(v.segs, order, e.fileID, Item(Put(k, v.store[k]), e.pos, e.tstamp));
  }

  /** A key with no record at all is not recovered. */
  lemma AbsentNotRecovered(segs: Segs, order: seq<nat>, k: Key)
    requires Enumerates(order, segs.Keys)
    requires forall s, item :: Has(segs, s, item) ==> item.op.key != k
    ensures k !in Reopened(order, segs)
  {
    hide LogItems, Covered;
    var items := Tagged(order, segs);
    KeysRecovered(items, k);
    forall i ensures !Bare(items, k, i) {
      if IsPut(items, k, i) {
        TaggedHas(order, segs, i);
      }
    }
  }

  /** A put that no later tombstone covers. */
  ghost predicate Bare(items: seq<TItem>, k: Key, i: int) {
    IsPut(items, k, i) && !Covered(items, k, i)
  }

  /** A scan leaves something at k exactly when some put of k is not covered. */
  lemma KeysRecovered(items: seq<TItem>, k: Key)
    ensures k in Recover(map[], items) <==> exists i :: Bare(items, k, i)
  {
    hide Covered;
    RecoverAt(items, k);
    if k in Recover(map[], items) {
      var i :| Survives(items, k, i) && Recover(map[], items)[k] == EntryOf(items[i].id, items[i].item);
      assert Bare(items, k, i);
    }
  }

  /** If k is gone, no put of it is scanned after every tombstone that hides it. */
  ghost predicate StaysGone(v: View, order: seq<nat>, k: Key)
    requires forall i :: 0 <= i < |order| ==> order[i] in v.segs
  {
    k !in v.kd ==> forall i :: !Bare(Tagged(order, v.segs), k, i)
  }

  ghost predicate NoneComesBack(v: View, order: seq<nat>)
    requires forall i :: 0 <= i < |order| ==> order[i] in v.segs
  {
    forall k :: StaysGone(v, order, k)
  }

  /** Of one key: a live one is rebuilt with its entry, and a deleted one stays gone exactly when no put of it is
      scanned after all the tombstones that are not older than it. */
  lemma ReopenKeyExact(v: View, last: int, order: seq<nat>, k: Key)
    requires Dated(v, last) && KeyInv(v, k) && Enumerates(order, v.segs.Keys)
    ensures k in v.kd ==> k in Reopened(order, v.segs) && Reopened(order, v.segs)[k] == v.kd[k]
    ensures (k in Reopened(order, v.segs) <==> k in v.kd) <==> StaysGone(v, order, k)
  {
    hide Dated, KeyInv, Bare, Tagged;
    KeysRecovered(Tagged(order, v.segs), k);
    if k in v.kd {
      PutsRecovered(v, last, order, k);
    }
  }

  /** Open rebuilds the keydir Close left, positions and timestamps included, exactly when no put of a deleted key
      is scanned after all the tombstones that are not older than it. */
  lemma ReopenExact(v: View, last: int, order: seq<nat>)
    requires ViewInv(v, last) && Enumerates(order, v.segs.Keys)
    ensures Reopened(order, v.segs) == v.kd <==> NoneComesBack(v, order)
  {
    hide Dated, KeyInv, StaysGone, Reopened;
    var kd := Reopened(order, v.segs);
    forall k
      ensures k in v.kd ==> k in kd && kd[k] == v.kd[k]
      ensures (k in kd <==> k in v.kd) <==> StaysGone(v, order, k)
    {
      assert KeyInv(v, k);
      ReopenKeyExact(v, last, order, k);
    }
    if NoneComesBack(v, order) {
      forall k ensures k in kd <==> k in v.kd {
        assert StaysGone(v, order, k);
      }
      assert kd == v.kd;
    }
  }

  // ---------------------------------------------------------------- conditions on segment ids alone

  /** No tombstone is in a segment with an id below that of a segment with an older put of its key. */
  ghost predicate NoTombstoneBelow(segs: Segs) {
    forall s, item, t, d :: Has(segs, s, item) && item.op.Put? && Has(segs, t, d) && Hides(t, d, s, item) ==> s <= t
  }

  lemma NoTombstoneBelowReopens(v: View, last: int, order: seq<nat>)
    requires ViewInv(v, last) && Lists(order, v.segs.Keys) && NoTombstoneBelow(v.segs)
    ensures Reopened(order, v.segs) == v.kd
  {
    hide LogItems, LocatedAt, Timed, NewestAt;
    var items := Tagged(order, v.segs);
    forall i, k | IsPut(items, k, i) && k !in v.kd ensures Covered(items, k, i) {
      assert KeyInv(v, k);
      TaggedHas(order, v.segs, i);
      var t, d :| Has(v.segs, t, d) && Hides(t, d, items[i].id, items[i].item);
      var j := TaggedAll(order, v.segs, t, d);
      if j < i {
        ScannedAscending(order, v.segs, j, i);
      }
      assert CoveredBy(items, k, i, j);
    }
    ReopenExact(v, last, order);
  }

  /** In ascending id order, an earlier operation is in a lower segment, or before it in the same one. */
  lemma {:induction false} ScannedAscending(order: seq<nat>, segs: Segs, i: nat, j: nat)
    requires Lists(order, segs.Keys) && ValidSegs(segs) && i < j < |Tagged(order, segs)|
    ensures var x, y := Tagged(order, segs)[i], Tagged(order, segs)[j];
      x.id < y.id || (x.id == y.id && x.item.pos < y.item.pos)
  {
    TaggedOrdered(order, segs, i, j);
    TaggedIds(order, segs, i, j);
  }

  lemma {:induction false} TaggedIds(order: seq<nat>, segs: Segs, i: nat, j: nat)
    requires forall i :: 0 <= i < |order| ==> order[i] in segs
    requires forall i, j :: 0 <= i < j < |order| ==> order[i] < order[j]
    requires i < j < |Tagged(order, segs)|
    ensures Tagged(order, segs)[i].id <= Tagged(order, segs)[j].id
  {
    var n := |order| - 1;
    var front := Tagged(order[..n], segs);
    if j < |front| {
      TaggedIds(order[..n], segs, i, j);
    } else if i < |front| {
      TaggedHas(order[..n], segs, i);
    }
  }

  /** Later segments hold later records: so it is as long as no compaction has committed. */
  ghost predicate Chronological(segs: Segs) {
    forall s, t, x, y :: s < t && Has(segs, s, x) && Has(segs, t, y) ==> x.tstamp < y.tstamp
  }

  lemma ChronologicalReopens(v: View, last: int, order: seq<nat>)
    requires ViewInv(v, last) && Lists(order, v.segs.Keys) && Chronological(v.segs)
    ensures Reopened(order, v.segs) == v.kd
  {
    hide ViewInv, LogItems;
    NoTombstoneBelowReopens(v, last, order);
  }

  // ---------------------------------------------------------------- what a rebuilt keydir answers

  /** What is read through a keydir. */
  ghost function Contents(segs: Segs, kd: Keydir): Store {
    map k | k in kd && ReadEntry(segs, kd[k]).Some? :: ReadEntry(segs, kd[k]).value
  }

  /** Whatever the segments hold and in whatever order they are scanned, each rebuilt entry names a put of its key. */
  lemma ReopenedNames(segs: Segs, order: seq<nat>, k: Key) returns (val: Value)
    requires ValidSegs(segs) && (forall i :: 0 <= i < |order| ==> order[i] in segs) && k in Reopened(order, segs)
    ensures At(segs, k, Reopened(order, segs)[k], val)
  {
    hide LogItems, Recover, Has;
    var items := Tagged(order, segs);
    RecoverAt(items, k);
    var i :| Survives(items, k, i) && Recover(map[], items)[k] == EntryOf(items[i].id, items[i].item);
    TaggedHas(order, segs, i);
    val := items[i].item.op.value;
    assert items[i].item == Item(Put(k, val), items[i].item.pos, items[i].item.tstamp);
  }

  /** So a rebuilt keydir serves what it reads. */
  lemma ReopenedLocated(v: View, order: seq<nat>)
    requires ValidSegs(v.segs) && forall i :: 0 <= i < |order| ==> order[i] in v.segs
    ensures var kd := Reopened(order, v.segs); Located(v.(kd := kd, store := Contents(v.segs, kd)))
  {
    hide At, ReadEntry, Reopened;
    var kd := Reopened(order, v.segs);
    forall k | k in kd ensures ReadEntry(v.segs, kd[k]).Some? && At(v.segs, k, kd[k], ReadEntry(v.segs, kd[k]).value) {
      var val := ReopenedNames(v.segs, order, k);
      AtReads(v.segs, k, kd[k], val);
    }
  }
}
