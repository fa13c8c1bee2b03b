/** The string pool round trip: parsing an encoded pool gives the strings back, in both encodings. */
module AxmlPool {
  import opened Common
  import opened Bytes
  import opened AxmlDocument
  import D = AxmlDecoder
  import Unicode

  lemma ReadByte(data: seq<Byte>, off: nat, rest: seq<Byte>, b: Byte)
    requires Holds(data, off, [b] + rest)
    ensures data[off] == b && Holds(data, off + 1, rest)
  {
    HoldsSplit(data, off, [b], rest);
    assert data[off] == data[off..off + 1][0];
  }

  // What the UTF-8 decoder makes of one length prefix.
  lemma ReadLength8(data: seq<Byte>, off: nat, n: nat, rest: seq<Byte>)
    requires n < 0x8000 && Holds(data, off, Length8(n) + rest)
    ensures off + |Length8(n)| <= |data| && Holds(data, off + |Length8(n)|, rest)
    ensures data[off] < 0x80 <==> n < 0x80
    ensures D.ByteLength(data, off) == n
  {
    if n < 0x80 {
      ReadByte(data, off, rest, n);
    } else {
      var hi: Byte, lo: Byte := 0x80 + n / 256, n % 256;
      assert Length8(n) + rest == [hi] + ([lo] + rest);
      ReadByte(data, off, [lo] + rest, hi);
      ReadByte(data, off + 1, rest, lo);
      var h: int, l: int := data[off], data[off + 1];
      assert h % 0x80 == n / 256;
    }
  }

  lemma HeldSlice(data: seq<Byte>, off: nat, part: seq<Byte>)
    requires Holds(data, off, part)
    ensures off + |part| <= |data| && data[off..off + |part|] == part
  {
  }

  lemma Utf8Window(data: seq<Byte>, pos: nat, end: nat, units: nat, bytes: seq<Byte>)
    requires end <= |data| && units < 0x8000 && |bytes| < 0x8000
    requires Holds(data, pos, Length8(units) + (Length8(|bytes|) + (bytes + [0])))
    requires pos + |Length8(units) + (Length8(|bytes|) + (bytes + [0]))| <= end
    ensures D.DecodeUtf8String(data, pos, end) == Unicode.DecodeUtf8(bytes)
  {
    hide Holds, Length8, D.ByteLength, Unicode.DecodeUtf8;
    ReadLength8(data, pos, units, Length8(|bytes|) + (bytes + [0]));
    var p := pos + |Length8(units)|;
    ReadLength8(data, p, |bytes|, bytes + [0]);
    var q := p + |Length8(|bytes|)|;
    HoldsSplit(data, q, bytes, [0]);
    assert D.Utf8Payload(data, pos, end) == Some((q, q + |bytes|));
    HeldSlice(data, q, bytes);
  }

  lemma Utf8StringRead(data: seq<Byte>, pos: nat, end: nat, s: string)
    requires end <= |data| && StringFits(s)
    requires Holds(data, pos, StringBytes(s, true)) && pos + |StringBytes(s, true)| <= end
    ensures D.DecodeUtf8String(data, pos, end) == s
  {
    hide Holds, Length8, D.DecodeUtf8String, Unicode.Utf8, Unicode.Utf16, Unicode.DecodeUtf8;
    Utf8Window(data, pos, end, |Unicode.Utf16(s)| / 2, Unicode.Utf8(s));
    Unicode.Utf8RoundTrip(s);
  }

  lemma Utf16Window(data: seq<Byte>, pos: nat, end: nat, units: nat, bytes: seq<Byte>)
    requires end <= |data| && units < 0x8000 && |bytes| == 2 * units
    requires Holds(data, pos, LE16(units) + (bytes + [0, 0])) && pos + 2 + |bytes| <= end
    ensures D.DecodeUtf16String(data, pos, end) == Unicode.DecodeUtf16(bytes)
  {
    hide Unicode.DecodeUtf16, U16At, LE16, Holds;
    HoldsSplit(data, pos, LE16(units), bytes + [0, 0]);
    Read16(data, pos, units);
    HoldsSplit(data, pos + 2, bytes, [0, 0]);
    HeldSlice(data, pos + 2, bytes);
  }

  lemma Utf16StringRead(data: seq<Byte>, pos: nat, end: nat, s: string)
    requires end <= |data| && StringFits(s)
    requires Holds(data, pos, StringBytes(s, false)) && pos + |StringBytes(s, false)| <= end
    ensures D.DecodeUtf16String(data, pos, end) == s
  {
    hide Holds, LE16, D.DecodeUtf16String, Unicode.Utf16, Unicode.DecodeUtf16;
    Utf16Window(data, pos, end, |Unicode.Utf16(s)| / 2, Unicode.Utf16(s));
    Unicode.Utf16RoundTrip(s);
  }

  lemma {:induction false} OffsetsRead(data: seq<Byte>, base: nat, i: nat, count: nat, offsets: seq<nat>)
    requires forall k :: 0 <= k < |offsets| ==> offsets[k] < 0x1_0000_0000
    requires i + |offsets| == count && Holds(data, base + i * 4, OffsetTable(offsets))
    ensures D.PoolOffsets(data, base, i, count) == offsets
    decreases offsets
  {
    hide LE32, U32At, Holds;
    if offsets != [] {
      HoldsSplit(data, base + i * 4, LE32(offsets[0]), OffsetTable(offsets[1..]));
      Read32(data, base + i * 4, offsets[0]);
      OffsetsRead(data, base, i + 1, count, offsets[1..]);
    }
  }

  lemma NeverEmpty(s: string, utf8: bool)
    requires StringFits(s)
    ensures |StringBytes(s, utf8)| >= 2
  {
    hide Unicode.Utf8, Unicode.Utf16;
  }

  lemma StringAt(data: seq<Byte>, h: D.PoolHeader, offset: nat, so: nat, s: string)
    requires offset + h.chunkSize <= |data| && StringFits(s)
    requires Holds(data, offset + h.start + so, StringBytes(s, h.utf8))
    requires h.start + so + |StringBytes(s, h.utf8)| <= h.chunkSize
    ensures D.PoolString(data, h, offset, so) == s
  {
    hide StringBytes, D.DecodeUtf8String, D.DecodeUtf16String, StringFits, Holds;
    NeverEmpty(s, h.utf8);
    if h.utf8 {
      Utf8StringRead(data, offset + h.start + so, offset + h.chunkSize, s);
    } else {
      Utf16StringRead(data, offset + h.start + so, offset + h.chunkSize, s);
    }
  }

  lemma HoldsWithin(data: seq<Byte>, off: nat, text: seq<Byte>, at: nat, part: seq<Byte>)
    requires Holds(data, off, text) && Holds(text, at, part)
    ensures Holds(data, off + at, part) && at + |part| <= |text|
  {
    var rest := text[at + |part|..];
    assert text == text[..at] + (part + rest);
    HoldsSplit(data, off, text[..at], part + rest);
    HoldsSplit(data, off + at, part, rest);
  }

  lemma StoredString(data: seq<Byte>, h: D.PoolHeader, offset: nat, so: nat, s: string, sh: PoolShape)
    requires offset + h.chunkSize <= |data| && h.utf8 == sh.utf8 && h.chunkSize == h.start + |sh.text|
    requires Holds(data, offset + h.start, sh.text) && StoredAt(s, so, sh)
    ensures D.PoolString(data, h, offset, so) == s
  {
    hide StringBytes, D.DecodeUtf8String, D.DecodeUtf16String, StringFits, Holds;
    if StringFits(s) && Holds(sh.text, so, StringBytes(s, sh.utf8)) {
      HoldsWithin(data, offset + h.start, sh.text, so, StringBytes(s, sh.utf8));
      StringAt(data, h, offset, so, s);
    }
  }

  lemma StringsRead(data: seq<Byte>, h: D.PoolHeader, offset: nat, pool: seq<string>, sh: PoolShape)
    requires offset + h.chunkSize <= |data| && h.utf8 == sh.utf8 && h.chunkSize == h.start + |sh.text|
    requires Holds(data, offset + h.start, sh.text) && |pool| == |sh.offsets|
    requires forall k :: 0 <= k < |pool| ==> StoredAt(pool[k], sh.offsets[k], sh)
    ensures D.PoolStrings(data, h, offset, sh.offsets) == pool
  {
    hide Holds, StoredAt, D.PoolString;
    forall k | 0 <= k < |pool| ensures D.PoolString(data, h, offset, sh.offsets[k]) == pool[k] {
      StoredString(data, h, offset, sh.offsets[k], pool[k], sh);
    }
  }

  lemma ReadHeader(data: seq<Byte>, off: nat, count: nat, styles: nat, flags: nat, start: nat, rest: seq<Byte>)
    requires count < 0x1_0000_0000 && styles < 0x1_0000_0000 && flags < 0x1_0000_0000 && start < 0x1_0000_0000
    requires Holds(data, off, LE32(count) + (LE32(styles) + (LE32(flags) + (LE32(start) + rest))))
    ensures off + 16 <= |data| && U32At(data, off) == count && U32At(data, off + 8) == flags
    ensures U32At(data, off + 12) == start && Holds(data, off + 16, rest)
  {
    hide LE32, U32At;
    HoldsSplit(data, off, LE32(count), LE32(styles) + (LE32(flags) + (LE32(start) + rest)));
    HoldsSplit(data, off + 4, LE32(styles), LE32(flags) + (LE32(start) + rest));
    HoldsSplit(data, off + 8, LE32(flags), LE32(start) + rest);
    HoldsSplit(data, off + 12, LE32(start), rest);
    Read32(data, off, count);
    Read32(data, off + 8, flags);
    Read32(data, off + 12, start);
  }

  lemma PoolFrameFields(data: seq<Byte>, off: nat, headerSize: nat, rest: seq<Byte>)
    requires headerSize < 0x1_0000 && 8 + |rest| < 0x1_0000_0000 && Holds(data, off, Frame(0x0001, headerSize, rest))
    ensures U16At(data, off) == 0x0001 && U16At(data, off + 2) == headerSize
    ensures U32At(data, off + 4) == 8 + |rest| && off + 8 + |rest| <= |data| && Holds(data, off + 8, rest)
  {
    hide LE16, LE32, U16At, U32At;
    var size := LE32(8 + |rest|);
    HoldsSplit(data, off, LE16(0x0001), LE16(headerSize) + (size + rest));
    HoldsSplit(data, off + 2, LE16(headerSize), size + rest);
    HoldsSplit(data, off + 4, size, rest);
    Read16(data, off, 0x0001);
    Read16(data, off + 2, headerSize);
    Read32(data, off + 4, 8 + |rest|);
  }

  lemma PoolHeaderRead(data: seq<Byte>, off: nat, headerSize: nat, count: nat, styles: nat, flags: nat, start: nat,
                       rest: seq<Byte>)
    requires headerSize < 0x1_0000 && count < 0x1_0000_0000 && styles < 0x1_0000_0000 && flags < 0x1_0000_0000
    requires start < 0x1_0000_0000 && 24 + |rest| < 0x1_0000_0000
    requires Holds(data, off, Frame(0x0001, headerSize,
      LE32(count) + (LE32(styles) + (LE32(flags) + (LE32(start) + rest)))))
    ensures D.ChunkInside(data, off) && U16At(data, off) == 0x0001 && U32At(data, off + 4) == 24 + |rest|
    ensures D.ReadPoolHeader(data, off)
         == Some(D.PoolHeader(headerSize, 24 + |rest|, count, flags / 256 % 2 == 1, start))
    ensures Holds(data, off + 24, rest)
  {
    hide U16At, U32At, LE16, LE32, Holds, Frame;
    PoolFrameFields(data, off, headerSize, LE32(count) + (LE32(styles) + (LE32(flags) + (LE32(start) + rest))));
    ReadHeader(data, off + 8, count, styles, flags, start, rest);
  }

  lemma FlagRead(sh: PoolShape)
    ensures Flags(sh) / 256 % 2 == 1 <==> sh.utf8
  {
  }

  /** Every list of strings that fits survives the trip through a pool chunk: UTF-8 or UTF-16, the strings in any
      order, shared or apart, with any header length, flags and gaps, wherever in the data the chunk stands. */
  lemma PoolRoundTrip(data: seq<Byte>, off: nat, pool: seq<string>, sh: PoolShape)
    requires PoolFits(pool, sh) && Holds(data, off, PoolBytes(pool, sh))
    ensures D.ChunkInside(data, off) && U16At(data, off) == 0x0001
    ensures U32At(data, off + 4) == |PoolBytes(pool, sh)|
    ensures D.Pool(data, off) == D.Ok(pool)
  {
    hide U16At, U32At, LE16, LE32, OffsetTable, StoredAt, Holds, D.PoolStrings, Flags,
         D.ReadPoolHeader, D.ChunkInside;
    var headerSize, start := 24 + |sh.head|, PoolStart(sh);
    var table := OffsetTable(sh.offsets);
    PoolHeaderRead(data, off, headerSize, |pool|, sh.styles, Flags(sh), start, sh.head + (table + (sh.gap + sh.text)));
    FlagRead(sh);
    var h := D.PoolHeader(headerSize, start + |sh.text|, |pool|, sh.utf8, start);
    HoldsSplit(data, off + 24, sh.head, table + (sh.gap + sh.text));
    HoldsSplit(data, off + headerSize, table, sh.gap + sh.text);
    HoldsSplit(data, off + headerSize + 4 * |pool|, sh.gap, sh.text);
    OffsetsRead(data, off + headerSize, 0, |pool|, sh.offsets);
    StringsRead(data, h, off, pool, sh);
  }
}
