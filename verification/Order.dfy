/** Byte-lexicographic order on keys, as bytes.Compare decides it. */
module Order {
  import opened Bytes

  predicate Less(a: seq<byte>, b: seq<byte>)
    decreases |b|
  {
    b != [] && (a == [] || a[0] < b[0] || (a[0] == b[0] && Less(a[1..], b[1..])))
  }

  /** The two agree up to i, and a has the smaller byte there. */
  predicate SmallerAt(a: seq<byte>, b: seq<byte>, i: nat) {
    i < |a| && i < |b| && a[..i] == b[..i] && a[i] < b[i]
  }

  /** a comes first exactly when it is a proper prefix of b, or has the smaller byte where they first differ. */
  lemma {:induction false} LessMeans(a: seq<byte>, b: seq<byte>)
    ensures Less(a, b) <==> a < b || exists i :: 0 <= i < |a| && i < |b| && a[..i] == b[..i] && a[i] < b[i]
    decreases |b|
  {
    LessSmaller(a, b);
    if i: nat :| SmallerAt(a, b, i) {
      assert 0 <= i < |a| && i < |b| && a[..i] == b[..i] && a[i] < b[i];
    }
    if i :| 0 <= i < |a| && i < |b| && a[..i] == b[..i] && a[i] < b[i] {
      assert SmallerAt(a, b, i);
    }
  }

  lemma {:induction false} LessSmaller(a: seq<byte>, b: seq<byte>)
    ensures Less(a, b) <==> a < b || exists i: nat :: SmallerAt(a, b, i)
    decreases |b|
  {
    if a != [] && b != [] {
      var a', b' := a[1..], b[1..];
      assert a == [a[0]] + a' && b == [b[0]] + b';
      forall i: nat | SmallerAt(a, b, i) && i > 0 ensures a[0] == b[0] && SmallerAt(a', b', i - 1) {
        assert a[0] == a[..i][0] == b[..i][0];
        assert a'[..i - 1] == a[..i][1..] == b[..i][1..] == b'[..i - 1];
      }
      if a[0] == b[0] {
        LessSmaller(a', b');
        forall i: nat | SmallerAt(a', b', i) ensures SmallerAt(a, b, i + 1) {
          assert a[..i + 1] == [a[0]] + a'[..i] && b[..i + 1] == [b[0]] + b'[..i];
        }
      } else {
        assert a[0] < b[0] <==> SmallerAt(a, b, 0);
      }
    }
  }

  lemma {:induction false} LessIrreflexive(a: seq<byte>)
    ensures !Less(a, a)
  {
    if a != [] {
      LessIrreflexive(a[1..]);
    }
  }

  lemma {:induction false} LessTotal(a: seq<byte>, b: seq<byte>)
    ensures a == b || Less(a, b) || Less(b, a)
    decreases |b|
  {
    if a != [] && b != [] && a[0] == b[0] {
      LessTotal(a[1..], b[1..]);
      assert a == [a[0]] + a[1..] && b == [b[0]] + b[1..];
    }
  }

  lemma {:induction false} LessTransitive(a: seq<byte>, b: seq<byte>, c: seq<byte>)
    requires Less(a, b) && Less(b, c)
    ensures Less(a, c)
    decreases |c|
  {
    if a != [] && a[0] == b[0] == c[0] {
      LessTransitive(a[1..], b[1..], c[1..]);
    }
  }
}
