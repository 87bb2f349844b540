/** Little-endian byte strings, as encoding/binary reads them. */
module Bytes {
  type byte = x: int | 0 <= x < 0x100
  type u16 = x: int | 0 <= x < 0x1_0000
  type u32 = x: int | 0 <= x < 0x1_0000_0000

  function U16At(b: seq<byte>, i: nat): u16
    requires i + 2 <= |b|
  {
    var lo: int, hi: int := b[i], b[i + 1];
    lo + 0x100 * hi
  }

  function U32At(b: seq<byte>, i: nat): u32
    requires i + 4 <= |b|
  {
    var lo: int, hi: int := U16At(b, i), U16At(b, i + 2);
    lo + 0x1_0000 * hi
  }

  /** The low sixteen bits of `x`: a writer that converts a length with uint16(...) truncates. */
  function PutU16(x: nat): (b: seq<byte>)
    ensures |b| == 2
  {
    [x % 0x100, x / 0x100 % 0x100]
  }

  function PutU32(x: u32): (b: seq<byte>)
    ensures |b| == 4
  {
    PutU16(x % 0x1_0000) + PutU16(x / 0x1_0000)
  }

  lemma PutThenReadU16(x: u16, rest: seq<byte>)
    ensures U16At(PutU16(x) + rest, 0) == x
  {
  }

  lemma PutThenReadU32(x: u32, rest: seq<byte>)
    ensures U32At(PutU32(x) + rest, 0) == x
  {
    var lo, hi := PutU16(x % 0x1_0000), PutU16(x / 0x1_0000);
    assert PutU32(x) + rest == lo + (hi + rest);
    PutThenReadU16(x % 0x1_0000, hi + rest);
    assert (PutU32(x) + rest)[2..] == hi + rest;
    PutThenReadU16(x / 0x1_0000, rest);
  }

  /** Reading inside a suffix is reading further along the whole. */
  lemma ReadShifted(b: seq<byte>, from: nat, i: nat)
    requires from + i + 2 <= |b|
    ensures U16At(b[from..], i) == U16At(b, from + i)
  {
  }

  /** The units as consecutive little-endian words. */
  function Words(units: seq<u16>): (b: seq<byte>)
    ensures |b| == 2 * |units|
  {
    if units == [] then [] else PutU16(units[0]) + Words(units[1..])
  }
}
