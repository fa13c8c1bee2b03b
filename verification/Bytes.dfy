/** Little-endian reads over a byte string, and windows into it.

    `struct.unpack_from("<H" / "<I" / "<i", data, off)` become `U16At`, `U32At` and
    `I32At`; their preconditions are exactly the bounds whose violation raises
    `struct.error` in the original. */
module Bytes {
  type Byte = x: int | 0 <= x < 256

  function U16At(data: seq<Byte>, off: nat): (v: nat)
    requires off + 2 <= |data|
    ensures v < 0x1_0000
  {
    var lo: int, hi: int := data[off], data[off + 1];
    lo + 256 * hi
  }

  function U32At(data: seq<Byte>, off: nat): (v: nat)
    requires off + 4 <= |data|
    ensures v < 0x1_0000_0000
  {
    U16At(data, off) + 0x1_0000 * U16At(data, off + 2)
  }

  // Two's complement reading of an unsigned 32-bit word.
  function Signed(u: nat): (v: int)
    requires u < 0x1_0000_0000
    ensures -0x8000_0000 <= v < 0x8000_0000
  {
    if u < 0x8000_0000 then u else u - 0x1_0000_0000
  }

  function Unsigned(v: int): (u: nat)
    requires -0x8000_0000 <= v < 0x8000_0000
    ensures u < 0x1_0000_0000 && Signed(u) == v
  {
    if v < 0 then v + 0x1_0000_0000 else v
  }

  function I32At(data: seq<Byte>, off: nat): (v: int)
    requires off + 4 <= |data|
    ensures -0x8000_0000 <= v < 0x8000_0000
  {
    Signed(U32At(data, off))
  }

  function LE16(v: nat): (b: seq<Byte>)
    requires v < 0x1_0000
    ensures |b| == 2
  {
    [v % 256, v / 256]
  }

  function LE32(v: nat): (b: seq<Byte>)
    requires v < 0x1_0000_0000
    ensures |b| == 4
  {
    LE16(v % 0x1_0000) + LE16(v / 0x1_0000)
  }

  function LE32s(v: int): (b: seq<Byte>)
    requires -0x8000_0000 <= v < 0x8000_0000
    ensures |b| == 4
  {
    LE32(Unsigned(v))
  }

  // `part` is what `data` holds at `off`.
  ghost predicate Holds(data: seq<Byte>, off: nat, part: seq<Byte>) {
    off + |part| <= |data| && data[off..off + |part|] == part
  }

  lemma HoldsSplit(data: seq<Byte>, off: nat, a: seq<Byte>, b: seq<Byte>)
    requires Holds(data, off, a + b)
    ensures Holds(data, off, a) && Holds(data, off + |a|, b)
  {
    var w := data[off..off + |a + b|];
    assert w[..|a|] == a && w[|a|..] == b;
    assert data[off..off + |a|] == w[..|a|];
    assert data[off + |a|..off + |a| + |b|] == w[|a|..];
  }

  lemma Read16(data: seq<Byte>, off: nat, v: nat)
    requires v < 0x1_0000 && Holds(data, off, LE16(v))
    ensures U16At(data, off) == v
  {
    var w := data[off..off + 2];
    assert w[0] == data[off] && w[1] == data[off + 1];
  }

  lemma Read32(data: seq<Byte>, off: nat, v: nat)
    requires v < 0x1_0000_0000 && Holds(data, off, LE32(v))
    ensures U32At(data, off) == v
  {
    HoldsSplit(data, off, LE16(v % 0x1_0000), LE16(v / 0x1_0000));
    Read16(data, off, v % 0x1_0000);
    Read16(data, off + 2, v / 0x1_0000);
  }

  lemma Read32s(data: seq<Byte>, off: nat, v: int)
    requires -0x8000_0000 <= v < 0x8000_0000 && Holds(data, off, LE32s(v))
    ensures I32At(data, off) == v
  {
    Read32(data, off, Unsigned(v));
  }
}
