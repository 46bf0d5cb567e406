/** The keydir as a value: where the latest value of each key is, and how each operation changes that. */
module Keydirs {
  import opened Record
  import opened Log

  /** keydirEntry: segment, offset and length of the value, timestamp of its record. */
  datatype Entry = Entry(fileID: nat, pos: nat, len: nat, tstamp: int)

  type Keydir = map<Key, Entry>

  /** The plain map the whole engine refines. */
  type Store = map<Key, Value>

  function EntryOf(id: nat, item: Item): Entry {
    Entry(id, item.pos, |OpValue(item.op)|, item.tstamp)
  }

  /** A write: put and delete are unconditional. */
  function Publish(kd: Keydir, id: nat, item: Item): Keydir {
    if item.op.Put? then kd[item.op.key := EntryOf(id, item)] else kd - {item.op.key}
  }

  function PublishAll(kd: Keydir, id: nat, items: seq<Item>): Keydir {
    if items == [] then kd
    else Publish(PublishAll(kd, id, items[..|items| - 1]), id, items[|items| - 1])
  }

  function Apply(store: Store, op: Op): Store {
    if op.Put? then store[op.key := op.value] else store - {op.key}
  }

  function ApplyAll(store: Store, items: seq<Item>): Store {
    if items == [] then store
    else Apply(ApplyAll(store, items[..|items| - 1]), items[|items| - 1].op)
  }

  /** items[m] is the last operation on k. */
  predicate LastOn(items: seq<Item>, k: Key, m: nat) {
    && m < |items| && items[m].op.key == k
    && forall i :: m < i < |items| ==> items[i].op.key != k
  }

  predicate Untouched(items: seq<Item>, k: Key) {
    forall i :: 0 <= i < |items| ==> items[i].op.key != k
  }

  /** What a list of writes leaves at k is decided by the last of them on k. */
  lemma {:induction false} LastDecides(kd: Keydir, store: Store, id: nat, items: seq<Item>, k: Key) returns (m: nat)
    ensures Untouched(items, k) || LastOn(items, k, m)
    ensures var kd', store' := PublishAll(kd, id, items), ApplyAll(store, items);
      if Untouched(items, k) then
        (k in kd' <==> k in kd) && (k in kd ==> kd'[k] == kd[k])
        && (k in store' <==> k in store) && (k in store ==> store'[k] == store[k])
      else if items[m].op.Put? then
        k in kd' && kd'[k] == EntryOf(id, items[m]) && k in store' && store'[k] == items[m].op.value
      else k !in kd' && k !in store'
  {
    m := 0;
    if items != [] {
      var n := |items| - 1;
      var prev := LastDecides(kd, store, id, items[..n], k);
      m := if items[n].op.key == k then n else prev;
      if items[n].op.key != k && !Untouched(items, k) {
        assert items[..n][prev] == items[prev];
      }
    }
  }

  /** compareAndSwap: replace the entry only where it is still exactly the expected one. */
  function Swapped(kd: Keydir, k: Key, expected: Entry, next: Entry): Keydir {
    if k in kd && kd[k] == expected then kd[k := next] else kd
  }

  /** One key whose value the compactor copied: the entry it saw, and the one for the copy. */
  datatype Rewrite = Rewrite(key: Key, oldEntry: Entry, newEntry: Entry)

  function SwapAll(kd: Keydir, rewrites: seq<Rewrite>): Keydir {
    if rewrites == [] then kd else
      var n := |rewrites| - 1;
      Swapped(SwapAll(kd, rewrites[..n]), rewrites[n].key, rewrites[n].oldEntry, rewrites[n].newEntry)
  }

  ghost predicate DistinctKeys(rewrites: seq<Rewrite>) {
    forall i, j :: 0 <= i < j < |rewrites| ==> rewrites[i].key != rewrites[j].key
  }

  ghost predicate Matches(rewrites: seq<Rewrite>, k: Key, e: Entry, i: int) {
    0 <= i < |rewrites| && rewrites[i].key == k && rewrites[i].oldEntry == e
  }

  /** With one rewrite a key, each swap stands or fails on the entry the key had before any of them. */
  lemma {:induction false} SwapAllAt(kd: Keydir, rewrites: seq<Rewrite>, k: Key)
    requires DistinctKeys(rewrites)
    ensures k in SwapAll(kd, rewrites) <==> k in kd
    ensures forall i :: k in kd && Matches(rewrites, k, kd[k], i) ==> SwapAll(kd, rewrites)[k] == rewrites[i].newEntry
    ensures k in kd && (forall i :: !Matches(rewrites, k, kd[k], i)) ==> SwapAll(kd, rewrites)[k] == kd[k]
  {
    if rewrites != [] {
      var n := |rewrites| - 1;
      var front := rewrites[..n];
      SwapAllAt(kd, front, k);
      if k in kd {
        assert forall i :: i != n ==> (Matches(front, k, kd[k], i) <==> Matches(rewrites, k, kd[k], i));
        if rewrites[n].key == k {
          assert forall i :: !Matches(front, k, kd[k], i);
          assert SwapAll(kd, front)[k] == kd[k];
          assert Matches(rewrites, k, kd[k], n) <==> kd[k] == rewrites[n].oldEntry;
        }
      }
    }
  }
}
