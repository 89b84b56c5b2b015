/** The frame checksum: CRC-16/CCITT computed MSB first, 16-bit register,
    polynomial 0x1021, initial value 0xFFFF and final complement. */
module Crc {
  import opened Bytes

  const POLY: bv16 := 0x1021
  const INIT: bv16 := 0xFFFF

  /** What the register holds after a message followed by its own checksum
      (high byte first) has been fed through it. */
  const RESIDUE: bv16 := 0x1D0F

  /** One shift of the register; the top bit selects the polynomial. */
  function Shift(crc: bv16, poly: bv16): bv16
  {
    if crc & 0x8000 != 0 then (crc << 1) ^ poly else crc << 1
  }

  /** `n` shifts in a row. */
  function Shifts(crc: bv16, poly: bv16, n: nat): bv16
    decreases n
  {
    if n == 0 then crc else Shifts(Shift(crc, poly), poly, n - 1)
  }

  /** One byte: XOR it into the high half of the register, then shift eight times. */
  function Feed(crc: bv16, b: byte, poly: bv16): bv16
  {
    Shifts(crc ^ ((b as bv16) << 8), poly, 8)
  }

  /** The register after `data`, starting from `crc`. */
  function Register(data: seq<byte>, crc: bv16, poly: bv16): bv16
    decreases |data|
  {
    if data == [] then crc else Register(data[1..], Feed(crc, data[0], poly), poly)
  }

  /** The checksum of `data`: the register, complemented. */
  function Crc16(data: seq<byte>, poly: bv16, init: bv16): bv16
  {
    Register(data, init, poly) ^ 0xFFFF
  }

  /** The checksum as the two bytes appended to a frame, high byte first. */
  function CrcBytes(crc: bv16): (r: seq<byte>)
    ensures |r| == 2
    ensures (((r[0] as bv16) << 8) | (r[1] as bv16)) == crc
  {
    [(crc >> 8) as byte, (crc & 0xFF) as byte]
  }

  /** The checksum loop as the source writes it: for every byte an inner loop
      of eight shifts, the register kept to sixteen bits. */
  method Crc16Ccitt(data: seq<byte>, poly: bv16, init: bv16) returns (crc: bv16)
    ensures crc == Crc16(data, poly, init)
  {
    crc := init;
    var i := 0;
    while i < |data|
      invariant 0 <= i <= |data|
      invariant Register(data[i..], crc, poly) == Register(data, init, poly)
    {
      assert data[i..][1..] == data[i + 1..];
      var x := crc ^ ((data[i] as bv16) << 8);
      var k := 0;
      while k < 8
        invariant 0 <= k <= 8
        invariant Shifts(x, poly, 8 - k) == Feed(crc, data[i], poly)
      {
        x := if x & 0x8000 != 0 then (x << 1) ^ poly else x << 1;
        k := k + 1;
      }
      crc := x;
      i := i + 1;
    }
    crc := crc ^ 0xFFFF;
  }

  /** Feeding two sequences one after the other is feeding their concatenation. */
  lemma {:induction false} RegisterAppend(a: seq<byte>, b: seq<byte>, crc: bv16, poly: bv16)
    ensures Register(a + b, crc, poly) == Register(b, Register(a, crc, poly), poly)
    decreases |a|
  {
    if a == [] {
      assert a + b == b;
    } else {
      assert (a + b)[1..] == a[1..] + b;
      assert (a + b)[0] == a[0];
      RegisterAppend(a[1..], b, Feed(crc, a[0], poly), poly);
    }
  }

  /** The eight shifts of `Feed`, written out. */
  lemma FeedUnrolled(crc: bv16, b: byte, poly: bv16)
    ensures var x := crc ^ ((b as bv16) << 8);
      Feed(crc, b, poly)
      == Shift(Shift(Shift(Shift(Shift(Shift(Shift(Shift(x, poly), poly), poly), poly), poly), poly), poly), poly)
  {
    var x := crc ^ ((b as bv16) << 8);
    calc {
      Feed(crc, b, poly);
      Shifts(Shift(x, poly), poly, 7);
      Shifts(Shift(Shift(x, poly), poly), poly, 6);
      Shifts(Shift(Shift(Shift(x, poly), poly), poly), poly, 5);
      Shifts(Shift(Shift(Shift(Shift(x, poly), poly), poly), poly), poly, 4);
      Shifts(Shift(Shift(Shift(Shift(Shift(x, poly), poly), poly), poly), poly), poly, 3);
      Shifts(Shift(Shift(Shift(Shift(Shift(Shift(x, poly), poly), poly), poly), poly), poly), poly, 2);
      Shifts(Shift(Shift(Shift(Shift(Shift(Shift(Shift(x, poly), poly), poly), poly), poly), poly), poly), poly, 1);
    }
  }

  /** Two bytes that complement the register bring it to the residue, whatever
      the register held. */
  lemma FeedComplement(reg: bv16)
    ensures Feed(Feed(reg, ((reg ^ 0xFFFF) >> 8) as byte, POLY), ((reg ^ 0xFFFF) & 0xFF) as byte, POLY)
            == RESIDUE
  {
    var hi := ((reg ^ 0xFFFF) >> 8) as byte;
    FeedUnrolled(reg, hi, POLY);
    FeedUnrolled(Feed(reg, hi, POLY), ((reg ^ 0xFFFF) & 0xFF) as byte, POLY);
  }

  /** A receiver check: running the register over a message and the checksum
      the sender appended always ends at the fixed residue 0x1D0F, so a frame
      can be validated without recomputing the checksum separately. */
  lemma {:induction false} CheckedMessageLeavesResidue(data: seq<byte>)
    ensures Register(data + CrcBytes(Crc16(data, POLY, INIT)), INIT, POLY) == RESIDUE
  {
    var reg := Register(data, INIT, POLY);
    var tail := CrcBytes(reg ^ 0xFFFF);
    RegisterAppend(data, tail, INIT, POLY);
    var mid := Feed(reg, tail[0], POLY);
    assert Register(tail, reg, POLY) == Register(tail[1..], mid, POLY);
    assert tail[1..][1..] == [];
    assert Register(tail[1..], mid, POLY) == Feed(mid, tail[1], POLY);
    FeedComplement(reg);
  }
}
