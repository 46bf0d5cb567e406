/** Bytes, fixed-width integers in both byte orders, and writes into a caller's buffer. */
module Bytes {

  type byte = x: int | 0 <= x < 256

  const U32_LIMIT := 0x1_0000_0000
  const U64_LIMIT := 0x1_0000_0000_0000_0000
  const I64_LIMIT := 0x8000_0000_0000_0000

  function Pow256(w: nat): (p: nat)
    ensures p > 0
  {
    if w == 0 then 1 else 256 * Pow256(w - 1)
  }

  /** n in w bytes, least significant byte first. */
  function LE(w: nat, n: nat): (b: seq<byte>)
    ensures |b| == w
  {
    if w == 0 then [] else [(n % 256) as byte] + LE(w - 1, n / 256)
  }

  function FromLE(b: seq<byte>): (n: nat)
    ensures n < Pow256(|b|)
  {
    if b == [] then 0 else b[0] + 256 * FromLE(b[1..])
  }

  /** n in w bytes, most significant byte first. */
  function BE(w: nat, n: nat): (b: seq<byte>)
    ensures |b| == w
  {
    if w == 0 then [] else BE(w - 1, n / 256) + [(n % 256) as byte]
  }

  function FromBE(b: seq<byte>): (n: nat)
    ensures n < Pow256(|b|)
  {
    if b == [] then 0 else 256 * FromBE(b[..|b| - 1]) + b[|b| - 1]
  }

  lemma {:induction false} FromLEOfLE(w: nat, n: nat)
    requires n < Pow256(w)
    ensures FromLE(LE(w, n)) == n
  {
    if w > 0 {
      FromLEOfLE(w - 1, n / 256);
      assert LE(w, n)[1..] == LE(w - 1, n / 256);
    }
  }

  lemma {:induction false} LEOfFromLE(b: seq<byte>)
    ensures LE(|b|, FromLE(b)) == b
  {
    if b != [] {
      LEOfFromLE(b[1..]);
      assert FromLE(b) % 256 == b[0] && FromLE(b) / 256 == FromLE(b[1..]);
      assert b == [b[0]] + b[1..];
    }
  }

  lemma {:induction false} FromBEOfBE(w: nat, n: nat)
    requires n < Pow256(w)
    ensures FromBE(BE(w, n)) == n
  {
    if w > 0 {
      FromBEOfBE(w - 1, n / 256);
      assert BE(w, n)[..w - 1] == BE(w - 1, n / 256);
    }
  }

  lemma {:induction false} BEOfFromBE(b: seq<byte>)
    ensures BE(|b|, FromBE(b)) == b
  {
    if b != [] {
      var k := |b| - 1;
      BEOfFromBE(b[..k]);
      assert FromBE(b) % 256 == b[k] && FromBE(b) / 256 == FromBE(b[..k]);
      assert b == b[..k] + [b[k]];
    }
  }

  /** Each byte of the two orders, as a digit to the base 256. */
  lemma {:induction false} LEAt(w: nat, n: nat, i: nat)
    requires i < w
    ensures LE(w, n)[i] == n / Pow256(i) % 256
  {
    if i > 0 {
      LEAt(w - 1, n / 256, i - 1);
      DivTwice(n, 256, Pow256(i - 1));
    }
  }

  lemma {:induction false} BEAt(w: nat, n: nat, i: nat)
    requires i < w
    ensures BE(w, n)[w - 1 - i] == n / Pow256(i) % 256
  {
    if i > 0 {
      BEAt(w - 1, n / 256, i - 1);
      DivTwice(n, 256, Pow256(i - 1));
    }
  }

  lemma DivTwice(n: nat, a: nat, b: nat)
    requires a > 0 && b > 0
    ensures a * b > 0 && n / a / b == n / (a * b)
  {
    Positive(a, b);
    Combined(n, a, b, n / a, n % a, n / a / b, n / a % b);
    QuotientIs(n, a * b, n / a / b, a * (n / a % b) + n % a);
  }

  lemma Positive(a: nat, b: nat)
    requires a > 0 && b > 0
    ensures a * b > 0
  {
  }

  lemma Combined(n: nat, a: nat, b: nat, q: nat, r: nat, p: nat, s: nat)
    requires n == a * q + r && q == b * p + s && r < a && s < b
    ensures n == (a * b) * p + (a * s + r) && a * s + r < a * b
  {
    assert a * q == (a * b) * p + a * s by { Distribute(a, b, p, s); }
    Below(a, b, s, r);
  }

  lemma Distribute(a: nat, b: nat, c: nat, d: nat)
    ensures a * (b * c + d) == (a * b) * c + a * d
  {
  }

  lemma Below(a: nat, b: nat, x: nat, y: nat)
    requires x < b && y < a
    ensures a * x + y < a * b
  {
    assert a * x + a == a * (x + 1);
    assert x + 1 <= b;
    assert a * (x + 1) <= a * b;
  }

  lemma QuotientIs(n: nat, d: nat, q: nat, r: nat)
    requires d > 0 && n == d * q + r && r < d
    ensures n / d == q
  {
    var p := n / d;
    assert n == d * p + n % d;
    assert p < q ==> d * (p + 1) <= d * q;
    assert q < p ==> d * (q + 1) <= d * p;
  }

  /** Four bytes of either order, digit by digit. */
  lemma Digits4(b: seq<byte>)
    requires |b| == 4
    ensures var x: nat, y: nat, z: nat, u: nat := b[0], b[1], b[2], b[3];
      && FromLE(b) == x + 0x100 * y + 0x1_0000 * z + 0x100_0000 * u
      && FromBE(b) == 0x100_0000 * x + 0x1_0000 * y + 0x100 * z + u
  {
    var c, d, e := b[1..], b[2..], b[3..];
    assert c[1..] == d && d[1..] == e && e[1..] == [];
    assert FromLE(b) == b[0] as nat + 256 * FromLE(c) && FromLE(c) == b[1] as nat + 256 * FromLE(d);
    assert FromLE(d) == b[2] as nat + 256 * FromLE(e) && FromLE(e) == b[3] as nat + 256 * FromLE([]);
    var p, q, r := b[..3], b[..2], b[..1];
    assert p[..2] == q && q[..1] == r && r[..0] == [];
    assert FromBE(b) == 256 * FromBE(p) + b[3] as nat && FromBE(p) == 256 * FromBE(q) + b[2] as nat;
    assert FromBE(q) == 256 * FromBE(r) + b[1] as nat && FromBE(r) == 256 * FromBE([]) + b[0] as nat;
  }

  lemma Digits2(b: seq<byte>)
    requires |b| == 2
    ensures FromLE(b) == b[0] as nat + 256 * (b[1] as nat) && FromBE(b) == 256 * (b[0] as nat) + b[1] as nat
  {
    assert b[1..][1..] == [] && b[..1][..0] == [];
    assert FromLE(b[1..]) == b[1] as nat + 256 * FromLE([]);
    assert FromBE(b[..1]) == 256 * FromBE([]) + b[0] as nat;
  }

  /** The widths the formats use, as plain numbers. */
  lemma Widths()
    ensures Pow256(2) == 0x1_0000
    ensures Pow256(4) == U32_LIMIT
    ensures Pow256(8) == U64_LIMIT
  {
    assert Pow256(4) == 256 * 256 * 256 * 256 * Pow256(0);
    assert Pow256(8) == 256 * 256 * 256 * 256 * Pow256(4);
  }

  function LE32(n: nat): (b: seq<byte>)
    ensures |b| == 4
  {
    LE(4, n)
  }

  function BE32(n: nat): (b: seq<byte>)
    ensures |b| == 4
  {
    BE(4, n)
  }

  lemma LE32RoundTrip(n: nat)
    requires n < U32_LIMIT
    ensures FromLE(LE32(n)) == n
  {
    Widths();
    FromLEOfLE(4, n);
  }

  lemma FromLE32Bound(b: seq<byte>)
    requires |b| == 4
    ensures FromLE(b) < U32_LIMIT && LE32(FromLE(b)) == b
  {
    Widths();
    LEOfFromLE(b);
  }

  lemma BE32RoundTrip(n: nat)
    requires n < U32_LIMIT
    ensures FromBE(BE32(n)) == n
  {
    Widths();
    FromBEOfBE(4, n);
  }

  lemma FromBE32Bound(b: seq<byte>)
    requires |b| == 4
    ensures FromBE(b) < U32_LIMIT && BE32(FromBE(b)) == b
  {
    Widths();
    BEOfFromBE(b);
  }

  /** A conversion to fewer bytes drops a multiple of what they can hold. */
  lemma {:induction false} FromLEDrops(w: nat, n: nat) returns (k: nat)
    ensures n == FromLE(LE(w, n)) + Pow256(w) * k
  {
    k := n;
    if w > 0 {
      k := FromLEDrops(w - 1, n / 256);
      assert LE(w, n)[1..] == LE(w - 1, n / 256);
      Regroup3(256, Pow256(w - 1), k);
    }
  }

  lemma Regroup3(a: nat, b: nat, c: nat)
    ensures a * (b * c) == (a * b) * c
  {
  }

  /** A conversion to uint32. */
  lemma LE32Truncates(n: nat)
    ensures FromLE(LE32(n)) == n % U32_LIMIT
  {
    Widths();
    var k := FromLEDrops(4, n);
  }

  predicate IsInt64(t: int) {
    -I64_LIMIT <= t < I64_LIMIT
  }

  /** The conversion uint64(t) of a signed 64-bit integer, and the one back. */
  function ToU64(t: int): (u: nat)
    requires IsInt64(t)
    ensures u < U64_LIMIT
  {
    if t < 0 then t + U64_LIMIT else t
  }

  function FromU64(u: nat): (t: int)
    requires u < U64_LIMIT
    ensures IsInt64(t)
  {
    if u < I64_LIMIT then u else u - U64_LIMIT
  }

  function LE64(t: int): (b: seq<byte>)
    requires IsInt64(t)
    ensures |b| == 8
  {
    LE(8, ToU64(t))
  }

  /** A signed number is laid out as the number it has modulo two to the 64. */
  lemma LE64At(t: int, i: nat)
    requires IsInt64(t) && i < 8
    ensures LE64(t)[i] == t % 0x1_0000_0000_0000_0000 / Pow256(i) % 256
  {
    hide LE, Pow256;
    LEAt(8, ToU64(t), i);
    assert t % U64_LIMIT == ToU64(t);
  }

  function Int64At(b: seq<byte>): (t: int)
    requires |b| == 8
    ensures IsInt64(t)
  {
    Widths();
    FromU64(FromLE(b))
  }

  lemma LE64RoundTrip(t: int)
    requires IsInt64(t)
    ensures Int64At(LE64(t)) == t
  {
    Widths();
    FromLEOfLE(8, ToU64(t));
  }

  lemma Int64AtInverse(b: seq<byte>)
    requires |b| == 8
    ensures LE64(Int64At(b)) == b
  {
    Widths();
    LEOfFromLE(b);
    assert ToU64(FromU64(FromLE(b))) == FromLE(b);
  }

  lemma SubSlice<T>(b: seq<T>, off: nat, n: nat, i: nat, j: nat)
    requires off + n <= |b| && i <= j <= n
    ensures b[off..off + n][i..j] == b[off + i..off + j]
  {
    var s := b[off..off + n];
    assert forall m :: 0 <= m < j - i ==> s[i..j][m] == s[i + m] == b[off + i + m];
  }

  lemma EndOf<T>(b: seq<T>, hi: nat, front: seq<T>, x: seq<T>)
    requires hi <= |b| && b[..hi] == front + x
    ensures b[|front|..hi] == x
  {
    assert b[..hi][|front|..] == x;
  }

  lemma Glue<T>(b: seq<T>, i: nat, j: nat, k: nat)
    requires i <= j <= k <= |b|
    ensures b[i..j] + b[j..k] == b[i..k]
  {
  }

  /** The library's copy(buf[off:], src), for a source that fits. */
  method Copy(buf: array<byte>, off: nat, src: seq<byte>)
    requires off + |src| <= buf.Length
    modifies buf
    ensures buf[..off] == old(buf[..off])
    ensures buf[off..off + |src|] == src
    ensures buf[off + |src|..] == old(buf[off + |src|..])
  {
    forall i | 0 <= i < |src| {
      buf[off + i] := src[i];
    }
  }

  /** The bytes buf[lo..hi] are known and src now follows them. */
  lemma Grown(buf: seq<byte>, lo: nat, hi: nat, known: seq<byte>, src: seq<byte>)
    requires lo <= hi && hi + |src| <= |buf|
    requires buf[lo..hi] == known && buf[hi..hi + |src|] == src
    ensures buf[lo..hi + |src|] == known + src
  {
    Glue(buf, lo, hi, hi + |src|);
  }

  /** Write src behind the bytes already laid out from lo to hi. */
  method LayOut(buf: array<byte>, ghost lo: nat, hi: nat, src: seq<byte>)
    requires lo <= hi && hi + |src| <= buf.Length
    modifies buf
    ensures buf[lo..hi + |src|] == old(buf[lo..hi]) + src
    ensures buf[..lo] == old(buf[..lo])
    ensures buf[hi + |src|..] == old(buf[hi + |src|..])
  {
    ghost var before := buf[..];
    Copy(buf, hi, src);
    assert buf[lo..hi] == before[lo..hi] by {
      SubSlice(buf[..], 0, hi, lo, hi);
      SubSlice(before, 0, hi, lo, hi);
    }
    Grown(buf[..], lo, hi, before[lo..hi], src);
    assert buf[..lo] == buf[..hi][..lo];
    assert before[..lo] == before[..hi][..lo];
  }

  lemma SameSuffix<T>(a: seq<T>, b: seq<T>, i: nat, j: nat)
    requires |a| == |b| && i <= j <= |a| && a[i..] == b[i..]
    ensures a[j..] == b[j..]
  {
    assert a[j..] == a[i..][j - i..] && b[j..] == b[i..][j - i..];
  }

  lemma Regroup<T>(a: seq<T>, b: seq<T>, c: seq<T>)
    ensures a + b + c == a + (b + c)
  {
  }
}
