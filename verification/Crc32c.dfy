/** CRC32C, the checksum with the polynomial of section 12.1 of RFC 3720, bit by bit. */
module Crc32c {
  import opened Bytes

  const POLY: bv32 := 0x82F6_3B78
  const INIT: bv32 := 0xFFFF_FFFF

  function Shift1(c: bv32): bv32 {
    if c & 1 == 1 then (c >> 1) ^ POLY else c >> 1
  }

  function Shift(k: nat, c: bv32): bv32 {
    if k == 0 then c else Shift(k - 1, Shift1(c))
  }

  function Step(c: bv32, b: byte): bv32 {
    Shift(8, c ^ (b as bv32))
  }

  /** The running state after the bytes of s. */
  function Update(c: bv32, s: seq<byte>): bv32 {
    if s == [] then c else Step(Update(c, s[..|s| - 1]), s[|s| - 1])
  }

  /** The sum that a state stands for, a uint32. */
  function Sum32(c: bv32): (sum: nat)
    ensures sum < U32_LIMIT
  {
    (c ^ INIT) as nat
  }

  function Checksum(s: seq<byte>): (sum: nat)
    ensures sum < U32_LIMIT
  {
    Sum32(Update(INIT, s))
  }

  /** Feeding two pieces one after the other is feeding their concatenation: the encoder sums one
      buffer, recovery sums the header tail and the body in two writes. */
  lemma {:induction false} UpdateSplit(c: bv32, s: seq<byte>, t: seq<byte>)
    ensures Update(Update(c, s), t) == Update(c, s + t)
  {
    if t == [] {
      assert s + t == s;
    } else {
      var k := |t| - 1;
      UpdateSplit(c, s, t[..k]);
      assert (s + t)[..|s + t| - 1] == s + t[..k];
    }
  }

  lemma ShiftMore(k: nat, c: bv32)
    ensures Shift(k + 1, c) == Shift(k, Shift1(c)) && Shift(0, c) == c
  {
    hide Shift1;
  }

  /** A byte is eight shifts. */
  lemma StepIs(c: bv32, b: byte, next: bv32)
    requires next == Shift1(Shift1(Shift1(Shift1(Shift1(Shift1(Shift1(Shift1(c ^ (b as bv32)))))))))
    ensures Step(c, b) == next
  {
    hide Shift1;
    var x := c ^ (b as bv32);
    ShiftMore(7, x);
    ShiftMore(6, Shift1(x));
    ShiftMore(5, Shift1(Shift1(x)));
    ShiftMore(4, Shift1(Shift1(Shift1(x))));
    ShiftMore(3, Shift1(Shift1(Shift1(Shift1(x)))));
    ShiftMore(2, Shift1(Shift1(Shift1(Shift1(Shift1(x))))));
    ShiftMore(1, Shift1(Shift1(Shift1(Shift1(Shift1(Shift1(x)))))));
    ShiftMore(0, Shift1(Shift1(Shift1(Shift1(Shift1(Shift1(Shift1(x))))))));
  }

  /** The known sum of the one character a. */
  lemma KnownSum()
    ensures Checksum([0x61]) == 0xC1D0_4330
  {
    hide Step;
    StepIs(INIT, 0x61, 0x3E2F_BCCF);
    assert [0x61][..0] == [];
    assert Update(INIT, [0x61]) == Step(Update(INIT, []), 0x61);
  }
}
