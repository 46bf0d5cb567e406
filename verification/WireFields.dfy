/** Length-prefixed byte strings, the building block of every message of the wire protocol. */
module WireFields {
  import opened Bytes
  import opened Wrappers

  const MAX_KEY_LEN := 64 * 1024
  const MAX_VAL_LEN := 16 * 1024 * 1024

  function Field(x: seq<byte>): (b: seq<byte>)
    ensures |b| == 4 + |x|
  {
    BE32(|x|) + x
  }

  /** x with its length prefix stands at off. */
  ghost predicate FieldAt(b: seq<byte>, off: nat, x: seq<byte>) {
    off + 4 + |x| <= |b| && FromBE(b[off..off + 4]) == |x| && b[off + 4..off + 4 + |x|] == x
  }

  lemma FieldAtBytes(b: seq<byte>, off: nat, x: seq<byte>)
    requires |x| < U32_LIMIT && off <= |b|
    ensures FieldAt(b, off, x) <==> Field(x) <= b[off..]
  {
    hide BE32, FromBE;
    var n := 4 + |x|;
    if FieldAt(b, off, x) {
      FromBE32Bound(b[off..off + 4]);
      Glue(b, off, off + 4, off + n);
      assert b[off..][..n] == b[off..off + n] == Field(x);
    }
    if Field(x) <= b[off..] {
      assert b[off..off + n] == b[off..][..n] == Field(x);
      SubSlice(b, off, n, 0, 4);
      SubSlice(b, off, n, 4, n);
      BE32RoundTrip(|x|);
    }
  }

  /** One field behind another. */
  lemma TwoFields(b: seq<byte>, off: nat, x: seq<byte>, rest: seq<byte>)
    requires |x| < U32_LIMIT && off <= |b|
    ensures Field(x) + rest <= b[off..] <==> FieldAt(b, off, x) && rest <= b[off + 4 + |x|..]
  {
    hide Field;
    FieldAtBytes(b, off, x);
    var n, m := 4 + |x|, |rest|;
    var here := b[off..];
    if Field(x) + rest <= here {
      assert here[..n] == here[..n + m][..n] == Field(x);
      assert here[n..n + m] == here[..n + m][n..] == rest;
      assert here[n..] == b[off + n..];
      assert b[off + n..][..m] == here[n..n + m];
    }
    if FieldAt(b, off, x) && rest <= b[off + n..] {
      assert here[n..] == b[off + n..];
      assert here[..n] == Field(x);
      Glue(here, 0, n, n + m);
      assert here[0..n + m] == here[..n + m] && here[0..n] == here[..n] && here[n..n + m] == here[n..][..m];
    }
  }

  /** The field at one place is determined by the bytes. */
  lemma FieldUnique(b: seq<byte>, off: nat, x: seq<byte>, y: seq<byte>)
    requires FieldAt(b, off, x) && FieldAt(b, off, y)
    ensures x == y
  {
  }

  lemma FieldIs(b: seq<byte>, off: nat, x: seq<byte>)
    requires FieldAt(b, off, x)
    ensures forall y :: FieldAt(b, off, y) ==> y == x
  {
    hide FieldAt;
    forall y | FieldAt(b, off, y) ensures y == x {
      FieldUnique(b, off, x, y);
    }
  }

  /** A length header and as many bytes as it says, when the length is within the cap and the bytes are there. */
  method TakeField(b: seq<byte>, off: nat, cap: nat) returns (r: Option<seq<byte>>)
    ensures r.Some? ==> FieldAt(b, off, r.value) && |r.value| <= cap
    ensures r.None? ==> forall x :: |x| <= cap ==> !FieldAt(b, off, x)
  {
    hide FromBE;
    if off + 4 > |b| {
      return None;
    }
    var n := FromBE(b[off..off + 4]);
    if n > cap {
      return None;
    }
    if off + 4 + n > |b| {
      return None;
    }
    return Some(b[off + 4..off + 4 + n]);
  }

  /** Write the length, then the bytes, behind what is there. */
  method PutField(buf: array<byte>, off: nat, x: seq<byte>)
    requires off + 4 + |x| <= buf.Length
    modifies buf
    ensures buf[0..off + 4 + |x|] == old(buf[0..off]) + Field(x)
  {
    hide BE32;
    ghost var before := buf[0..off];
    LayOut(buf, 0, off, BE32(|x|));
    LayOut(buf, 0, off + 4, x);
    Regroup(before, BE32(|x|), x);
  }

  /** The bytes of a field, one by one: its length in four of them, the highest first, and then its content. */
  lemma FieldLayout(x: seq<byte>)
    requires |x| < U32_LIMIT
    ensures var b := Field(x);
      && |x| == 0x100_0000 * (b[0] as nat) + 0x1_0000 * (b[1] as nat) + 0x100 * (b[2] as nat) + b[3] as nat
      && forall i :: 0 <= i < |x| ==> b[4 + i] == x[i]
  {
    hide BE32, FromBE;
    var b := Field(x);
    assert b[..4] == BE32(|x|);
    BE32RoundTrip(|x|);
    Digits4(b[..4]);
  }

  lemma FieldAtMeans(b: seq<byte>, off: nat, x: seq<byte>)
    ensures FieldAt(b, off, x) <==>
      && off + 4 + |x| <= |b|
      && |x| == 0x100_0000 * (b[off] as nat) + 0x1_0000 * (b[off + 1] as nat) + 0x100 * (b[off + 2] as nat)
                + b[off + 3] as nat
      && forall i :: 0 <= i < |x| ==> b[off + 4 + i] == x[i]
  {
    hide FromBE;
    if off + 4 + |x| <= |b| {
      Digits4(b[off..off + 4]);
      var y := b[off + 4..off + 4 + |x|];
      assert forall i :: 0 <= i < |x| ==> y[i] == b[off + 4 + i];
    }
  }
}
