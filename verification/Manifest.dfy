/** The manifest of manifest.go: the list of live segment ids and the active one, as written, read and reconciled with
    the directory. Its JSON text is not part of this model. */
module Manifest {
  import opened Wrappers
  import opened View
  import opened Compaction
  import opened Engine
  import opened Refinement
  import opened Durability

  const VERSION := 1

  datatype Manifest = Manifest(version: int, segments: seq<nat>, active: Option<nat>)

  predicate Ascending(ids: seq<nat>) {
    forall i, j :: 0 <= i < j < |ids| ==> ids[i] <= ids[j]
  }

  predicate Strict(ids: seq<nat>) {
    forall i, j :: 0 <= i < j < |ids| ==> ids[i] < ids[j]
  }

  /** Insertion sort, as recover and listSegments write it out; the manifest calls the library's sort. */
  method SortIds(a: array<nat>)
    modifies a
    ensures Ascending(a[..]) && multiset(a[..]) == multiset(old(a[..]))
  {
    for i := 0 to a.Length
      invariant Ascending(a[..i]) && multiset(a[..]) == multiset(old(a[..]))
    {
      var j := i;
      while j > 0 && a[j - 1] > a[j]
        invariant 0 <= j <= i
        invariant forall k, m :: 0 <= k < m <= i && m != j ==> a[k] <= a[m]
        invariant multiset(a[..]) == multiset(old(a[..]))
      {
        a[j - 1], a[j] := a[j], a[j - 1];
        j := j - 1;
      }
    }
    assert a[..a.Length] == a[..];
  }

  /** The in-place dedup: the kept ids are written over the front of the slice that is still being read. */
  method Dedup(a: array<nat>) returns (n: nat)
    requires Ascending(a[..])
    modifies a
    ensures n <= a.Length && Strict(a[..n])
    ensures forall id :: id in a[..n] <==> id in old(a[..])
  {
    n := 0;
    for i := 0 to a.Length
      invariant n <= i && a[i..] == old(a[i..]) && Strict(a[..n])
      invariant i > 0 ==> n > 0 && a[n - 1] == a[i - 1] == old(a[i - 1])
      invariant forall id :: id in a[..n] <==> id in old(a[..i])
    {
      ghost var was := a[..];
      assert a[i] == a[i..][0] == old(a[..])[i];
      assert old(a[..i + 1]) == old(a[..i]) + [old(a[i])];
      if i == 0 || a[i] != a[i - 1] {
        assert n > 0 ==> a[n - 1] < a[i];
        a[n] := a[i];
        assert a[..n] == was[..n] && a[..n + 1] == a[..n] + [was[i]];
        n := n + 1;
      } else {
        assert a[n - 1] in a[..n];
      }
      assert a[i + 1..] == was[i..][1..];
    }
    assert old(a[..a.Length]) == old(a[..]);
  }

  /** The canonical form of a list of ids: ascending, each once. */
  method Canonical(ids: seq<nat>) returns (c: seq<nat>)
    ensures Strict(c) && forall id :: id in c <==> id in ids
  {
    var a := new nat[|ids|](i requires 0 <= i < |ids| => ids[i]);
    assert a[..] == ids;
    SortIds(a);
    MultisetKeeps(a[..], ids);
    var n := Dedup(a);
    return a[..n];
  }

  lemma MultisetKeeps(a: seq<nat>, b: seq<nat>)
    requires multiset(a) == multiset(b)
    ensures forall id :: id in a <==> id in b
  {
    forall id ensures id in a <==> id in b {
      assert id in a <==> id in multiset(a);
      assert id in b <==> id in multiset(b);
    }
  }

  /** There is one canonical form: manifests of the same live set are the same. */
  lemma {:induction false} CanonicalUnique(a: seq<nat>, b: seq<nat>)
    requires Strict(a) && Strict(b) && forall id :: id in a <==> id in b
    ensures a == b
    decreases |a|
  {
    assert b != [] ==> b[0] in a;
    if a != [] {
      assert a[0] in b;
      assert a[0] == b[0];
      forall id ensures id in a[1..] <==> id in b[1..] {
        assert id in a[1..] <==> id in a && id != a[0];
        assert id in b[1..] <==> id in b && id != b[0];
      }
      CanonicalUnique(a[1..], b[1..]);
    }
  }

  /** What readManifest accepts. */
  predicate WellFormed(m: Manifest) {
    m.version == VERSION && Strict(m.segments) && m.active.Some? && m.active.value in m.segments
  }

  method Contains(ids: seq<nat>, id: nat) returns (found: bool)
    ensures found <==> id in ids
  {
    for i := 0 to |ids|
      invariant id !in ids[..i]
    {
      if ids[i] == id {
        return true;
      }
      assert ids[..i + 1] == ids[..i] + [ids[i]];
    }
    assert ids[..|ids|] == ids;
    return false;
  }

  /** writeManifest up to its first write to the disk: a manifest that a reader accepts, or nothing if the active id is
      not among the ids. */
  method WriteManifest(ids: seq<nat>, active: nat) returns (m: Option<Manifest>)
    ensures m.Some? <==> active in ids
    ensures m.Some? ==> WellFormed(m.value) && m.value.active == Some(active)
    ensures m.Some? ==> forall id :: id in m.value.segments <==> id in ids
  {
    var dedup := Canonical(ids);
    var activeOK := Contains(dedup, active);
    if !activeOK {
      return None;
    }
    return Some(Manifest(VERSION, dedup, Some(active)));
  }

  /** readManifest after parsing: any departure from the canonical form is refused, never repaired. */
  method ReadManifest(m: Manifest) returns (r: Option<(seq<nat>, nat)>)
    ensures r.Some? <==> WellFormed(m)
    ensures r.Some? ==> r.value == (m.segments, m.active.value)
  {
    if m.version != VERSION {
      return None;
    }
    var i := 1;
    while i < |m.segments|
      invariant 1 <= i && (i <= |m.segments| ==> Strict(m.segments[..i])) && (i > |m.segments| ==> m.segments == [])
    {
      assert m.segments[..i + 1][..i] == m.segments[..i];
      if m.segments[i] <= m.segments[i - 1] {
        return None;
      }
      i := i + 1;
    }
    assert i == |m.segments| ==> m.segments[..i] == m.segments;
    if m.active.None? {
      return None;
    }
    var found := Contains(m.segments, m.active.value);
    if !found {
      return None;
    }
    return Some((m.segments, m.active.value));
  }

  datatype Reconciled = Live(ids: seq<nat>, active: nat) | Bootstrap(ids: seq<nat>) | Refused

  /** reconcileManifest: the manifest decides, provided every segment it lists is there; files it does not list are
      ignored. */
  method Reconcile(file: Option<Manifest>, onDisk: seq<nat>) returns (r: Reconciled)
    ensures file.None? ==> r == Bootstrap(onDisk)
    ensures file.Some? ==>
      r == if WellFormed(file.value) && (forall id :: id in file.value.segments ==> id in onDisk)
           then Live(file.value.segments, file.value.active.value) else Refused
  {
    if file.None? {
      return Bootstrap(onDisk);
    }
    var m := ReadManifest(file.value);
    if m.None? {
      return Refused;
    }
    var ids := m.value.0;
    for i := 0 to |ids|
      invariant forall j :: 0 <= j < i ==> ids[j] in onDisk
    {
      var there := Contains(onDisk, ids[i]);
      if !there {
        return Refused;
      }
    }
    return Live(ids, m.value.1);
  }

  /** The manifest of a view. */
  ghost predicate ManifestOf(v: View, m: Manifest) {
    WellFormed(m) && m.active == Some(v.active) && forall id :: id in m.segments <==> id in v.segs
  }

  /** Whichever survivor a crash leaves of the manifest swap, at any step of any run, the next Open is not refused: its
      manifest lists only segments whose directory entries are durable. */
  lemma SurvivorReconciles(maxSize: nat, labels: seq<Label>, v: View, m: Manifest, onDisk: seq<nat>)
    requires Run(Init(maxSize), labels).Some? && v in Run(Init(maxSize), labels).value.survivors && ManifestOf(v, m)
    requires forall id :: id in Run(Init(maxSize), labels).value.dirents ==> id in onDisk
    ensures Lists(m.segments, v.segs.Keys) && v.active in v.segs && forall id :: id in m.segments ==> id in onDisk
  {
    hide Init, Run;
    ManifestsDurable(maxSize, labels, v);
  }
}
