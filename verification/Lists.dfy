/** Lists of elements encoded one behind the other, where each encoding tells its own end. */
module Lists {
  import opened Bytes
  import opened Wrappers

  ghost function EncAll<T>(enc: T -> seq<byte>, xs: seq<T>): seq<byte> {
    if xs == [] then [] else EncAll(enc, xs[..|xs| - 1]) + enc(xs[|xs| - 1])
  }

  ghost predicate AllValid<T>(valid: T -> bool, xs: seq<T>) {
    forall i :: 0 <= i < |xs| ==> valid(xs[i])
  }

  predicate Begins(b: seq<byte>, e: seq<byte>) {
    e <= b
  }

  /** The same bytes at one place cannot begin with the encodings of two elements. */
  ghost predicate PrefixFree<T(!new)>(enc: T -> seq<byte>, valid: T -> bool) {
    forall x, y, b: seq<byte> :: valid(x) && valid(y) && Begins(b, enc(x)) && Begins(b, enc(y)) ==> x == y
  }

  lemma EncAppend<T>(enc: T -> seq<byte>, xs: seq<T>, x: T)
    ensures EncAll(enc, xs + [x]) == EncAll(enc, xs) + enc(x)
  {
    assert (xs + [x])[..|xs + [x]| - 1] == xs;
  }

  lemma {:induction false} EncConcat<T>(enc: T -> seq<byte>, xs: seq<T>, ys: seq<T>)
    ensures EncAll(enc, xs + ys) == EncAll(enc, xs) + EncAll(enc, ys)
  {
    if ys == [] {
      assert xs + ys == xs;
    } else {
      var n := |ys| - 1;
      EncConcat(enc, xs, ys[..n]);
      assert (xs + ys)[..|xs + ys| - 1] == xs + ys[..n];
    }
  }

  lemma SplitAt<T>(xs: seq<T>, i: nat)
    requires i < |xs|
    ensures xs == (xs[..i] + [xs[i]]) + xs[i + 1..] && xs[..i + 1] == xs[..i] + [xs[i]]
  {
  }

  /** Element i stands right behind the elements before it. */
  lemma EncAt<T>(enc: T -> seq<byte>, xs: seq<T>, i: nat)
    requires i < |xs|
    ensures EncAll(enc, xs) == EncAll(enc, xs[..i]) + (enc(xs[i]) + EncAll(enc, xs[i + 1..]))
  {
    var front, x, back := xs[..i], xs[i], xs[i + 1..];
    SplitAt(xs, i);
    EncConcat(enc, front + [x], back);
    EncAppend(enc, front, x);
    Regroup(EncAll(enc, front), enc(x), EncAll(enc, back));
  }

  /** Where element i starts. */
  ghost function StartOf<T>(enc: T -> seq<byte>, xs: seq<T>, i: nat): nat
    requires i <= |xs|
  {
    |EncAll(enc, xs[..i])|
  }

  /** Element i stands at its place in b. */
  ghost predicate Placed<T>(enc: T -> seq<byte>, b: seq<byte>, xs: seq<T>, i: nat)
    requires i < |xs|
  {
    StartOf(enc, xs, i) <= |b| && enc(xs[i]) <= b[StartOf(enc, xs, i)..]
  }

  /** Each element stands where those before it end, and nothing is left. */
  ghost predicate AllPlaced<T>(enc: T -> seq<byte>, b: seq<byte>, xs: seq<T>) {
    |b| == StartOf(enc, xs, |xs|) && forall i :: 0 <= i < |xs| ==> Placed(enc, b, xs, i)
  }

  lemma {:induction false} LaidOut<T>(enc: T -> seq<byte>, b: seq<byte>, xs: seq<T>)
    ensures b == EncAll(enc, xs) <==> AllPlaced(enc, b, xs)
    decreases |xs|
  {
    if xs == [] {
      assert xs[..0] == [];
    } else {
      LastPlaced(enc, b, xs);
      var n := |xs| - 1;
      var k := |EncAll(enc, xs[..n])|;
      if k <= |b| {
        LaidOut(enc, b[..k], xs[..n]);
      }
    }
  }

  /** All are in place when the last is and those before it are. */
  lemma LastPlaced<T>(enc: T -> seq<byte>, b: seq<byte>, xs: seq<T>)
    requires xs != []
    ensures var n := |xs| - 1; var k, e := |EncAll(enc, xs[..n])|, enc(xs[n]);
      && (b == EncAll(enc, xs) <==> k <= |b| && b[..k] == EncAll(enc, xs[..n]) && b[k..] == e)
      && (AllPlaced(enc, b, xs) <==> k <= |b| && AllPlaced(enc, b[..k], xs[..n]) && b[k..] == e)
  {
    var n := |xs| - 1;
    var front := xs[..n];
    var k, e := |EncAll(enc, front)|, enc(xs[n]);
    assert xs[..|xs|] == xs && front[..n] == front;
    if k <= |b| {
      assert b == b[..k] + b[k..];
      forall i | 0 <= i < n ensures Placed(enc, b[..k], front, i) <==> Placed(enc, b, xs, i) {
        assert front[..i] == xs[..i];
        PlacedShort(enc, b, front, i);
      }
      assert Placed(enc, b, xs, n) <==> e <= b[k..];
    }
  }

  /** An element that is not the last ends where the next one starts. */
  lemma PlacedShort<T>(enc: T -> seq<byte>, b: seq<byte>, front: seq<T>, i: nat)
    requires i < |front| && |EncAll(enc, front)| <= |b|
    ensures var k, j, e := |EncAll(enc, front)|, |EncAll(enc, front[..i])|, enc(front[i]);
      j + |e| <= k && (e <= b[j..] <==> e <= b[..k][j..])
  {
    EncAt(enc, front, i);
    var k, j, e := |EncAll(enc, front)|, |EncAll(enc, front[..i])|, enc(front[i]);
    assert b[..k][j..] == b[j..][..k - j];
  }

  /** What begins like an encoded list has its elements. */
  lemma {:induction false} Determined<T(!new)>(enc: T -> seq<byte>, valid: T -> bool, xs: seq<T>, done: seq<T>)
    requires PrefixFree(enc, valid) && AllValid(valid, xs) && AllValid(valid, done)
    requires |done| <= |xs| && EncAll(enc, done) <= EncAll(enc, xs)
    ensures xs[..|done|] == done
  {
    if done != [] {
      var n := |done| - 1;
      var d, e := EncAll(enc, done[..n]), enc(done[n]);
      assert d <= EncAll(enc, done);
      Determined(enc, valid, xs, done[..n]);
      assert xs[..n] == done[..n];
      EncAt(enc, xs, n);
      Behind(EncAll(enc, xs), d, e);
      BehindOne(EncAll(enc, xs), d, enc(xs[n]), EncAll(enc, xs[n + 1..]));
      assert Begins(EncAll(enc, xs)[|d|..], enc(xs[n])) && Begins(EncAll(enc, xs)[|d|..], e);
      assert xs[n] == done[n];
      SplitAt(xs, n);
    }
  }

  lemma BehindOne(all: seq<byte>, d: seq<byte>, e: seq<byte>, rest: seq<byte>)
    requires all == d + (e + rest)
    ensures e <= all[|d|..]
  {
    assert all[|d|..] == e + rest;
  }

  lemma Behind(all: seq<byte>, d: seq<byte>, e: seq<byte>)
    requires d + e <= all
    ensures e <= all[|d|..]
  {
    assert all[..|d + e|] == d + e;
    assert all[|d|..][..|e|] == all[..|d + e|][|d|..];
  }

  /** Two lists of the same length with the same bytes are the same. */
  lemma EncInjective<T(!new)>(enc: T -> seq<byte>, valid: T -> bool, xs: seq<T>, ys: seq<T>)
    requires PrefixFree(enc, valid) && AllValid(valid, xs) && AllValid(valid, ys)
    requires |xs| == |ys| && EncAll(enc, xs) == EncAll(enc, ys)
    ensures xs == ys
  {
    DeterminedAll(enc, valid, xs, ys);
  }

  /** While a list is read from the front of body, more of it is left, and the next element is where reading stopped. */
  lemma NextElement<T(!new)>(enc: T -> seq<byte>, valid: T -> bool, body: seq<byte>, xs: seq<T>, done: seq<T>)
    requires PrefixFree(enc, valid) && AllValid(valid, xs) && AllValid(valid, done)
    requires body == EncAll(enc, xs) && EncAll(enc, done) <= body && |done| < |xs|
    ensures xs[..|done|] == done && enc(xs[|done|]) <= body[|EncAll(enc, done)|..]
  {
    hide PrefixFree, AllValid;
    Determined(enc, valid, xs, done);
    EncAt(enc, xs, |done|);
    BehindOne(body, EncAll(enc, xs[..|done|]), enc(xs[|done|]), EncAll(enc, xs[|done| + 1..]));
  }

  ghost predicate NonEmpty<T(!new)>(enc: T -> seq<byte>, valid: T -> bool) {
    forall x :: valid(x) ==> enc(x) != []
  }

  /** While bytes are left, elements are left. */
  lemma MoreLeft<T(!new)>(enc: T -> seq<byte>, valid: T -> bool, xs: seq<T>, done: seq<T>)
    requires PrefixFree(enc, valid) && NonEmpty(enc, valid) && AllValid(valid, xs) && AllValid(valid, done)
    requires EncAll(enc, done) <= EncAll(enc, xs) && EncAll(enc, done) != EncAll(enc, xs)
    ensures |done| < |xs|
  {
    hide PrefixFree;
    if |xs| <= |done| {
      FrontShorter(enc, valid, done, |xs|);
      DeterminedAll(enc, valid, xs, done[..|xs|]);
    }
  }

  lemma DeterminedAll<T(!new)>(enc: T -> seq<byte>, valid: T -> bool, xs: seq<T>, done: seq<T>)
    requires PrefixFree(enc, valid) && AllValid(valid, xs) && AllValid(valid, done)
    requires |done| == |xs| && EncAll(enc, done) <= EncAll(enc, xs)
    ensures xs == done
  {
    Determined(enc, valid, xs, done);
    assert xs[..|done|] == xs;
  }

  lemma FrontShorter<T(!new)>(enc: T -> seq<byte>, valid: T -> bool, xs: seq<T>, n: nat)
    requires NonEmpty(enc, valid) && AllValid(valid, xs) && n <= |xs|
    ensures EncAll(enc, xs[..n]) <= EncAll(enc, xs) && AllValid(valid, xs[..n])
    ensures n < |xs| ==> |EncAll(enc, xs[..n])| < |EncAll(enc, xs)|
  {
    if n < |xs| {
      EncAt(enc, xs, n);
    } else {
      assert xs[..n] == xs;
    }
  }

  /** Equal bytes, equal lists. */
  lemma EncSame<T(!new)>(enc: T -> seq<byte>, valid: T -> bool, xs: seq<T>, ys: seq<T>)
    requires PrefixFree(enc, valid) && NonEmpty(enc, valid) && AllValid(valid, xs) && AllValid(valid, ys)
    requires EncAll(enc, xs) == EncAll(enc, ys)
    ensures xs == ys
  {
    if |xs| < |ys| {
      Shorter(enc, valid, xs, ys);
    } else if |ys| < |xs| {
      Shorter(enc, valid, ys, xs);
    } else {
      EncInjective(enc, valid, xs, ys);
    }
  }

  lemma Shorter<T(!new)>(enc: T -> seq<byte>, valid: T -> bool, xs: seq<T>, ys: seq<T>)
    requires PrefixFree(enc, valid) && NonEmpty(enc, valid) && AllValid(valid, xs) && AllValid(valid, ys) && |xs| < |ys|
    ensures EncAll(enc, xs) != EncAll(enc, ys)
  {
    if EncAll(enc, xs) == EncAll(enc, ys) {
      NextElement(enc, valid, EncAll(enc, ys), ys, xs);
    }
  }
}
