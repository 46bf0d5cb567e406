/** The keydir of keydir.go: an object whose methods change the map it holds. Each method runs under the keydir's own
    lock, so each is one step. */
module KeydirIndex {
  import opened Bytes
  import opened Wrappers
  import opened Record
  import opened Log
  import opened Keydirs
  import opened Compaction
  import opened Reopen
  import opened Order

  /** One element of an atomic batch: the entry counts only when delete is false. */
  datatype KeydirOp = KeydirOp(key: Key, entry: Entry, delete: bool)

  function ApplyOp(kd: Keydir, op: KeydirOp): Keydir {
    if op.delete then kd - {op.key} else kd[op.key := op.entry]
  }

  function ApplyKeydirOps(kd: Keydir, ops: seq<KeydirOp>): Keydir {
    if ops == [] then kd else ApplyOp(ApplyKeydirOps(kd, ops[..|ops| - 1]), ops[|ops| - 1])
  }

  /** op is what a write does to the keydir. */
  predicate IsPublish(op: KeydirOp, id: nat, item: Item) {
    op.key == item.op.key && op.delete == item.op.Delete? && (item.op.Put? ==> op.entry == EntryOf(id, item))
  }

  lemma {:induction false} BatchPublishes(kd: Keydir, ops: seq<KeydirOp>, id: nat, items: seq<Item>)
    requires |ops| == |items| && forall i :: 0 <= i < |ops| ==> IsPublish(ops[i], id, items[i])
    ensures ApplyKeydirOps(kd, ops) == PublishAll(kd, id, items)
  {
    if ops != [] {
      var n := |ops| - 1;
      BatchPublishes(kd, ops[..n], id, items[..n]);
    }
  }

  predicate InRange(k: Key, start: Option<Key>, end: Option<Key>) {
    (start.None? || !Less(k, start.value)) && (end.None? || Less(k, end.value))
  }

  /** A range has its start in it and not its end; a bound that is not given is no bound. */
  lemma InRangeMeans(k: Key, start: Option<Key>, end: Option<Key>)
    ensures InRange(k, start, end) <==>
      (start.Some? ==> start.value == k || Less(start.value, k)) && (end.Some? ==> Less(k, end.value))
  {
    hide Less;
    if start.Some? {
      LessTotal(k, start.value);
      LessIrreflexive(k);
      if Less(k, start.value) && Less(start.value, k) {
        LessTransitive(k, start.value, k);
      }
    }
  }

  datatype Pair = Pair(key: Key, entry: Entry)

  ghost predicate Ascending(pairs: seq<Pair>) {
    forall i, j :: 0 <= i < j < |pairs| ==> Less(pairs[i].key, pairs[j].key)
  }

  ghost predicate SameElements(a: seq<Pair>, b: seq<Pair>) {
    forall p :: p in a <==> p in b
  }

  ghost predicate UniqueKeys(pairs: seq<Pair>) {
    forall i, j :: 0 <= i < j < |pairs| ==> pairs[i].key != pairs[j].key
  }

  class Index {
    var index: Keydir

    constructor ()
      ensures index == map[]
    {
      index := map[];
    }

    method Get(k: Key) returns (r: Option<Entry>)
      ensures r == if k in index then Some(index[k]) else None
    {
      if k in index { return Some(index[k]); }
      return None;
    }

    method Put(k: Key, e: Entry)
      modifies this
      ensures index == old(index)[k := e]
    {
      index := index[k := e];
    }

    /** During recovery: the entry with the larger timestamp wins, and the later one of two that are equal. */
    method PutIfNewer(k: Key, e: Entry)
      modifies this
      ensures index == if k in old(index) && e.tstamp < old(index)[k].tstamp then old(index) else old(index)[k := e]
    {
      if k !in index || e.tstamp >= index[k].tstamp {
        index := index[k := e];
      }
    }

    method Delete(k: Key)
      modifies this
      ensures index == old(index) - {k}
    {
      index := index - {k};
    }

    method CompareAndSwap(k: Key, expected: Entry, newEntry: Entry) returns (swapped: bool)
      modifies this
      ensures swapped <==> k in old(index) && old(index)[k] == expected
      ensures index == Swapped(old(index), k, expected, newEntry)
      ensures index == if swapped then old(index)[k := newEntry] else old(index)
    {
      if k !in index || index[k] != expected {
        return false;
      }
      index := index[k := newEntry];
      return true;
    }

    /** All of a batch's changes in order, under one lock. */
    method ApplyBatch(ops: seq<KeydirOp>)
      modifies this
      ensures index == ApplyKeydirOps(old(index), ops)
    {
      if |ops| == 0 {
        return;
      }
      for i := 0 to |ops|
        invariant index == ApplyKeydirOps(old(index), ops[..i])
      {
        assert ops[..i + 1][..i] == ops[..i];
        if ops[i].delete {
          index := index - {ops[i].key};
        } else {
          index := index[ops[i].key := ops[i].entry];
        }
      }
      assert ops[..|ops|] == ops;
    }

    /** The entries with start <= key < end, in ascending key order. */
    method SnapshotRange(start: Option<Key>, end: Option<Key>) returns (pairs: seq<Pair>)
      ensures Ascending(pairs)
      ensures forall p :: p in pairs <==> p.key in index && p.entry == index[p.key] && InRange(p.key, start, end)
    {
      var out: seq<Pair> := [];
      var keys := index.Keys;
      while keys != {}
        invariant keys <= index.Keys && UniqueKeys(out)
        invariant forall p :: p in out <==>
          p.key in index && p.key !in keys && p.entry == index[p.key] && InRange(p.key, start, end)
        decreases |keys|
      {
        var k :| k in keys;
        keys := keys - {k};
        if start.Some? && Less(k, start.value) {
          continue;
        }
        if end.Some? && !Less(k, end.value) {
          continue;
        }
        out := out + [Pair(k, index[k])];
      }
      pairs := SortByKey(out);
    }
  }

  /** Sorts by key; the library's sort, here by insertion. */
  method SortByKey(pairs: seq<Pair>) returns (sorted: seq<Pair>)
    requires UniqueKeys(pairs)
    ensures Ascending(sorted) && SameElements(sorted, pairs)
  {
    sorted := [];
    for i := 0 to |pairs|
      invariant Ascending(sorted) && SameElements(sorted, pairs[..i])
    {
      assert pairs[..i + 1] == pairs[..i] + [pairs[i]];
      sorted := Insert(sorted, pairs[i]);
    }
    assert pairs[..|pairs|] == pairs;
  }

  method Insert(sorted: seq<Pair>, p: Pair) returns (r: seq<Pair>)
    requires Ascending(sorted) && forall q :: q in sorted ==> q.key != p.key
    ensures Ascending(r) && SameElements(r, sorted + [p])
  {
    var j := |sorted|;
    while j > 0 && Less(p.key, sorted[j - 1].key)
      invariant 0 <= j <= |sorted|
      invariant forall i :: j <= i < |sorted| ==> Less(p.key, sorted[i].key)
    {
      j := j - 1;
    }
    r := sorted[..j] + [p] + sorted[j..];
    if j > 0 {
      LessTotal(p.key, sorted[j - 1].key);
      forall i | 0 <= i < j ensures Less(sorted[i].key, p.key) {
        if i < j - 1 {
          LessTransitive(sorted[i].key, sorted[j - 1].key, p.key);
        }
      }
    }
    assert sorted == sorted[..j] + sorted[j..];
  }

  /** Both ends of the replayed forms: PutIfNewer for a put, and a delete of what is not newer for a tombstone. */
  method Replay1(keydir: Index, x: TItem)
    modifies keydir
    ensures keydir.index == Recover1(old(keydir.index), x)
  {
    var k := x.item.op.key;
    if x.item.op.Put? {
      keydir.PutIfNewer(k, EntryOf(x.id, x.item));
    } else {
      var existing := keydir.Get(k);
      if existing.None? || x.item.tstamp >= existing.value.tstamp {
        keydir.Delete(k);
      }
    }
  }
}
