/** `workers/utils/axml.py`: Android binary XML to text.

    Each loop of the original is a method with a loop here, proved equal to a recursive
    function; the round-trip theorems are about those functions. An out-of-range
    `struct.unpack_from` raises in the original and is `Malformed` here. */
module AxmlDecoder {
  import opened Common
  import opened Bytes
  import opened Text
  import opened Unicode

  datatype Result<+T> = Ok(value: T) | NotAxml | Malformed

  const AXML_FILE: nat := 0x0008_0003
  const STRING_POOL: nat := 0x0001
  const START_NAMESPACE: nat := 0x0100
  const END_NAMESPACE: nat := 0x0101
  const START_ELEMENT: nat := 0x0102
  const END_ELEMENT: nat := 0x0103

  const TYPE_NULL: nat := 0x00
  const TYPE_REFERENCE: nat := 0x01
  const TYPE_STRING: nat := 0x03
  const TYPE_INT_DEC: nat := 0x10
  const TYPE_INT_HEX: nat := 0x11
  const TYPE_INT_BOOLEAN: nat := 0x12

  const ANDROID_URI: string := "android.com/apk/res/android"
  const XML_HEADER: string := "<?xml version=\"1.0\" encoding=\"utf-8\"?>"

  function Str(strings: seq<string>, idx: int): string {
    if idx < 0 || idx >= |strings| then "" else strings[idx]
  }

  // `first or second`, for strings.
  function OrElse(first: string, second: string): string {
    if first != "" then first else second
  }

  // ---- the two string decoders ----

  function Min(a: int, b: int): int {
    if a < b then a else b
  }

  // The one- or two-byte length at `p`.
  function ByteLength(data: seq<Byte>, p: nat): nat
    requires p < |data| && (data[p] >= 0x80 ==> p + 1 < |data|)
  {
    var b: int := data[p];
    if b >= 0x80 then b % 0x80 * 256 + data[p + 1] else b
  }

  // Where the length prefix at `pos` says the UTF-8 payload is; None when it does not fit.
  function Utf8Payload(data: seq<Byte>, pos: nat, end: nat): (r: Option<(nat, nat)>)
    requires end <= |data|
    ensures r.Some? ==> pos < r.value.0 <= r.value.1 <= end
  {
    if pos >= end then None
    else
      var p := if data[pos] >= 0x80 then pos + 2 else pos + 1;
      if p >= end then None
      else if data[p] >= 0x80 && p + 1 >= end then None
      else
        var q := if data[p] >= 0x80 then p + 2 else p + 1;
        Some((q, Min(q + ByteLength(data, p), end)))
  }

  function DecodeUtf8String(data: seq<Byte>, pos: nat, end: nat): string
    requires end <= |data|
  {
    match Utf8Payload(data, pos, end)
    case None => ""
    case Some(p) => DecodeUtf8(data[p.0..p.1])
  }

  function DecodeUtf16String(data: seq<Byte>, pos: nat, end: nat): string
    requires end <= |data|
  {
    if pos + 2 > end then ""
    else
      var want := U16At(data, pos) % 0x8000 * 2;
      var room := end - (pos + 2);
      var len := if want > room then room - room % 2 else want;
      DecodeUtf16(data[pos + 2..pos + 2 + len])
  }

  /** Neither decoder looks at a byte outside `[pos, end)`: what they return is fixed by that window. */
  lemma DecodersStayInside(d1: seq<Byte>, d2: seq<Byte>, pos: nat, end: nat)
    requires pos <= end <= |d1| && end <= |d2| && d1[pos..end] == d2[pos..end]
    ensures DecodeUtf8String(d1, pos, end) == DecodeUtf8String(d2, pos, end)
    ensures DecodeUtf16String(d1, pos, end) == DecodeUtf16String(d2, pos, end)
  {
    assert forall i :: pos <= i < end ==> d1[i] == d1[pos..end][i - pos] == d2[i];
    match Utf8Payload(d1, pos, end) {
      case None =>
      case Some(p) =>
        assert Utf8Payload(d2, pos, end) == Some(p);
        assert d1[p.0..p.1] == d2[p.0..p.1];
    }
    Utf16StaysInside(d1, d2, pos, end);
  }

  lemma Utf16StaysInside(d1: seq<Byte>, d2: seq<Byte>, pos: nat, end: nat)
    requires end <= |d1| && end <= |d2|
    requires forall i :: pos <= i < end ==> d1[i] == d2[i]
    ensures DecodeUtf16String(d1, pos, end) == DecodeUtf16String(d2, pos, end)
  {
    if pos + 2 <= end {
      assert U16At(d1, pos) == U16At(d2, pos);
      var want := U16At(d1, pos) % 0x8000 * 2;
      var room := end - (pos + 2);
      var len := if want > room then room - room % 2 else want;
      assert d1[pos + 2..pos + 2 + len] == d2[pos + 2..pos + 2 + len];
    }
  }

  // ---- the string pool ----

  datatype PoolHeader = PoolHeader(headerSize: nat, chunkSize: nat, count: nat, utf8: bool, start: nat)

  function ReadPoolHeader(data: seq<Byte>, offset: nat): Option<PoolHeader> {
    if offset + 24 > |data| then None
    else Some(PoolHeader(
      U16At(data, offset + 2), U32At(data, offset + 4), U32At(data, offset + 8),
      U32At(data, offset + 16) / 256 % 2 == 1, U32At(data, offset + 20)))
  }

  // The offset table from entry `i` on, cut where it would leave the data.
  function PoolOffsets(data: seq<Byte>, base: nat, i: nat, count: nat): seq<nat>
    decreases count - i
  {
    if i >= count || base + i * 4 + 4 > |data| then []
    else [U32At(data, base + i * 4)] + PoolOffsets(data, base, i + 1, count)
  }

  function PoolString(data: seq<Byte>, h: PoolHeader, offset: nat, so: nat): string
    requires offset + h.chunkSize <= |data|
  {
    var pos, end := offset + h.start + so, offset + h.chunkSize;
    if pos >= end then ""
    else if h.utf8 then DecodeUtf8String(data, pos, end)
    else DecodeUtf16String(data, pos, end)
  }

  function PoolStrings(data: seq<Byte>, h: PoolHeader, offset: nat, offsets: seq<nat>): (r: seq<string>)
    requires offset + h.chunkSize <= |data|
    ensures |r| == |offsets|
    ensures forall i :: 0 <= i < |r| ==> r[i] == PoolString(data, h, offset, offsets[i])
    decreases offsets
  {
    if offsets == [] then []
    else [PoolString(data, h, offset, offsets[0])] + PoolStrings(data, h, offset, offsets[1..])
  }

  // The caller has already checked that the chunk lies inside the data.
  predicate ChunkInside(data: seq<Byte>, offset: nat) {
    offset + 8 <= |data| && offset + U32At(data, offset + 4) <= |data|
  }

  function Pool(data: seq<Byte>, offset: nat): Result<seq<string>>
    requires ChunkInside(data, offset)
  {
    match ReadPoolHeader(data, offset)
    case None => Malformed
    case Some(h) =>
      if h.count > 1_000_000 then Ok([])
      else Ok(PoolStrings(data, h, offset, PoolOffsets(data, offset + h.headerSize, 0, h.count)))
  }

  method ParseStringPool(data: seq<Byte>, offset: nat) returns (r: Result<seq<string>>)
    requires ChunkInside(data, offset)
    ensures r == Pool(data, offset)
  {
    hide U16At, U32At, PoolString;
    var header := ReadPoolHeader(data, offset);
    if header == None {
      return Malformed;
    }
    var h := header.value;
    if h.count > 1_000_000 {
      return Ok([]);
    }
    var strOffsets := ReadOffsets(data, offset + h.headerSize, h.count);
    var out: seq<string> := [];
    for k := 0 to |strOffsets|
      invariant |out| == k
      invariant forall j :: 0 <= j < k ==> out[j] == PoolString(data, h, offset, strOffsets[j])
    {
      out := out + [PoolString(data, h, offset, strOffsets[k])];
    }
    assert out == PoolStrings(data, h, offset, strOffsets);
    return Ok(out);
  }

  method ReadOffsets(data: seq<Byte>, base: nat, count: nat) returns (offsets: seq<nat>)
    ensures offsets == PoolOffsets(data, base, 0, count)
  {
    hide U32At;
    offsets := [];
    var i := 0;
    while i < count && base + i * 4 + 4 <= |data|
      invariant 0 <= i <= count
      invariant offsets + PoolOffsets(data, base, i, count) == PoolOffsets(data, base, 0, count)
    {
      Assoc(offsets, [U32At(data, base + i * 4)], PoolOffsets(data, base, i + 1, count));
      offsets := offsets + [U32At(data, base + i * 4)];
      i := i + 1;
    }
  }

  // ---- start elements ----

  function FormatValue(strings: seq<string>, rawIdx: int, dataType: nat, dataVal: nat): string
    requires dataVal < 0x1_0000_0000
  {
    var s := if dataType == TYPE_STRING || rawIdx >= 0
             then Str(strings, if rawIdx >= 0 then rawIdx else dataVal) else "";
    if s != "" then s
    else if dataType == TYPE_STRING then Str(strings, dataVal)
    else if dataType == TYPE_INT_BOOLEAN then (if dataVal != 0 then "true" else "false")
    else if dataType == TYPE_INT_DEC then Decimal(Signed(dataVal))
    else if dataType == TYPE_INT_HEX then "0x" + Numeral(dataVal, 16)
    else if dataType == TYPE_REFERENCE then "@" + Numeral(dataVal, 16)
    else if dataType == TYPE_NULL then ""
    else OrElse(Str(strings, dataVal), Decimal(dataVal))
  }

  function PrefixFor(uri: string, declared: string): string {
    if Contains(uri, ANDROID_URI) || declared == "android" then "android:"
    else if declared != "" then declared + ":"
    else ""
  }

  datatype Pair = Pair(key: string, value: string)

  // The attribute record at `off`; None where its name is empty.
  function AttributeAt(data: seq<Byte>, off: nat, strings: seq<string>, ns: map<int, string>): Option<Pair>
    requires off + 20 <= |data|
  {
    var aNs := I32At(data, off);
    var name := Str(strings, I32At(data, off + 4));
    if name == "" then None
    else
      var prefix := if aNs < 0 then ""
                    else PrefixFor(Str(strings, aNs), if aNs in ns then ns[aNs] else "");
      Some(Pair(prefix + name,
                FormatValue(strings, I32At(data, off + 8), data[off + 15], U32At(data, off + 16))))
  }

  function AsList(p: Option<Pair>): seq<Pair> {
    match p
    case None => []
    case Some(pair) => [pair]
  }

  // `left` records of `size` bytes from `off` on, cut where one would leave the data.
  function Attributes(data: seq<Byte>, off: nat, size: nat, left: nat,
                      strings: seq<string>, ns: map<int, string>): seq<Pair>
    decreases left
  {
    if left == 0 || off + 20 > |data| then []
    else
      AsList(AttributeAt(data, off, strings, ns)) + Attributes(data, off + size, size, left - 1, strings, ns)
  }

  datatype Start = Start(tag: string, attrs: seq<Pair>)

  function StartElement(data: seq<Byte>, offset: nat, headerSize: nat,
                        strings: seq<string>, ns: map<int, string>): Result<Start>
  {
    if headerSize < 0x10 then Ok(Start("unknown", []))
    else if offset + 30 > |data| then Malformed
    else
      var size := if U16At(data, offset + 26) == 0 then 20 else U16At(data, offset + 26);
      Ok(Start(OrElse(Str(strings, I32At(data, offset + 20)), "unknown"),
               Attributes(data, offset + 16 + U16At(data, offset + 24), size,
                          U16At(data, offset + 28), strings, ns)))
  }

  method ParseAttributes(data: seq<Byte>, base: nat, size: nat, count: nat,
                         strings: seq<string>, ns: map<int, string>) returns (attrs: seq<Pair>)
    ensures attrs == Attributes(data, base, size, count, strings, ns)
  {
    hide AttributeAt, AsList;
    attrs := [];
    var i, off := 0, base;
    while i < count && off + 20 <= |data|
      invariant 0 <= i <= count && off == base + i * size
      invariant attrs + Attributes(data, off, size, count - i, strings, ns)
             == Attributes(data, base, size, count, strings, ns)
    {
      var pairs := AsList(AttributeAt(data, off, strings, ns));
      Assoc(attrs, pairs, Attributes(data, off + size, size, count - i - 1, strings, ns));
      attrs := attrs + pairs;
      i, off := i + 1, off + size;
    }
  }

  method ParseStartElement(data: seq<Byte>, offset: nat, headerSize: nat,
                           strings: seq<string>, ns: map<int, string>) returns (r: Result<Start>)
    ensures r == StartElement(data, offset, headerSize, strings, ns)
  {
    hide Attributes, I32At, U16At, Str;
    if headerSize < 0x10 {
      return Ok(Start("unknown", []));
    }
    if offset + 30 > |data| {
      return Malformed;
    }
    var tag := OrElse(Str(strings, I32At(data, offset + 20)), "unknown");
    var size := U16At(data, offset + 26);
    if size == 0 {
      size := 20;
    }
    var attrs := ParseAttributes(data, offset + 16 + U16At(data, offset + 24), size,
                                 U16At(data, offset + 28), strings, ns);
    return Ok(Start(tag, attrs));
  }

  // ---- the chunk walk ----

  datatype State = State(strings: seq<string>, parts: seq<string>, depth: nat, ns: map<int, string>)

  const INITIAL: State := State([], [XML_HEADER], 0, map[])

  // `"  " * depth`
  function Margin(depth: nat): string {
    if depth == 0 then "" else "  " + Margin(depth - 1)
  }

  function KeyValue(p: Pair): string {
    p.key + "=\"" + Escape(p.value) + "\""
  }

  function StartTag(tag: string, attrs: seq<Pair>): string {
    if attrs == [] then "<" + tag + ">"
    else "<" + tag + " " + Join(seq(|attrs|, i requires 0 <= i < |attrs| => KeyValue(attrs[i])), " ") + ">"
  }

  function EndTag(tag: string): string {
    "</" + tag + ">"
  }

  // What one chunk does to the decoder's variables.
  function Chunk(data: seq<Byte>, offset: nat, st: State): Result<State>
    requires ChunkInside(data, offset)
  {
    var kind, headerSize, size := U16At(data, offset), U16At(data, offset + 2), U32At(data, offset + 4);
    if kind == STRING_POOL then
      match Pool(data, offset)
      case Ok(strings) => Ok(st.(strings := strings))
      case _ => Malformed
    else if kind == START_NAMESPACE then
      if headerSize >= 0x10 && size >= 0x18 && I32At(data, offset + 20) >= 0 then
        Ok(st.(ns := st.ns[I32At(data, offset + 20) := Str(st.strings, I32At(data, offset + 16))]))
      else Ok(st)
    else if kind == END_NAMESPACE then
      if headerSize >= 0x10 && size >= 0x18 then Ok(st.(ns := st.ns - {I32At(data, offset + 20)}))
      else Ok(st)
    else if kind == START_ELEMENT then
      match StartElement(data, offset, headerSize, st.strings, st.ns)
      case Ok(e) => Ok(st.(parts := st.parts + [Margin(st.depth) + StartTag(e.tag, e.attrs)],
                           depth := st.depth + 1))
      case _ => Malformed
    else if kind == END_ELEMENT then
      var depth := if st.depth == 0 then 0 else st.depth - 1;
      var tag := OrElse(Str(st.strings, if size >= 24 then I32At(data, offset + 20) else -1), "unknown");
      Ok(st.(parts := st.parts + [Margin(depth) + EndTag(tag)], depth := depth))
    else Ok(st)
  }

  // Whether the loop takes the chunk at `offset` rather than stopping there.
  predicate TakesChunk(data: seq<Byte>, fileSize: nat, offset: nat) {
    && offset + 8 <= fileSize
    && ChunkInside(data, offset)
    && U32At(data, offset + 4) >= 8
  }

  function Walk(data: seq<Byte>, fileSize: nat, offset: nat, st: State): Result<State>
    decreases |data| - offset
  {
    if !TakesChunk(data, fileSize, offset) then Ok(st)
    else match Chunk(data, offset, st)
      case Ok(st') => Walk(data, fileSize, offset + U32At(data, offset + 4), st')
      case _ => Malformed
  }

  lemma WalkStep(data: seq<Byte>, fileSize: nat, offset: nat, st: State)
    ensures Walk(data, fileSize, offset, st)
         == if !TakesChunk(data, fileSize, offset) then Ok(st)
            else match Chunk(data, offset, st)
              case Ok(st') => Walk(data, fileSize, offset + U32At(data, offset + 4), st')
              case _ => Malformed
  {
    hide Chunk;
  }

  predicate IsBinaryAxml(data: seq<Byte>) {
    |data| >= 8 && U32At(data, 0) == AXML_FILE
  }

  function Decode(data: seq<Byte>): Result<string> {
    if !IsBinaryAxml(data) then NotAxml
    else
      match Walk(data, Min(U32At(data, 4), |data|), 8, INITIAL)
      case Ok(st) => Ok(Join(st.parts, "\n"))
      case _ => Malformed
  }

  // The body of the chunk loop.
  method HandleChunk(data: seq<Byte>, offset: nat, st: State) returns (r: Result<State>)
    requires ChunkInside(data, offset)
    ensures r == Chunk(data, offset, st)
  {
    hide Pool, StartElement, I32At, U16At, StartTag, EndTag, Margin, Str;
    var kind, headerSize, size := U16At(data, offset), U16At(data, offset + 2), U32At(data, offset + 4);
    var strings, parts, depth, ns := st.strings, st.parts, st.depth, st.ns;
    if kind == STRING_POOL {
      var pool := ParseStringPool(data, offset);
      if !pool.Ok? {
        return Malformed;
      }
      strings := pool.value;
    } else if kind == START_NAMESPACE {
      if headerSize >= 0x10 && size >= 0x18 {
        var prefix, uriIdx := Str(strings, I32At(data, offset + 16)), I32At(data, offset + 20);
        if uriIdx >= 0 {
          ns := ns[uriIdx := prefix];
        }
      }
    } else if kind == END_NAMESPACE {
      if headerSize >= 0x10 && size >= 0x18 {
        ns := ns - {I32At(data, offset + 20)};
      }
    } else if kind == START_ELEMENT {
      var e := ParseStartElement(data, offset, headerSize, strings, ns);
      if !e.Ok? {
        return Malformed;
      }
      parts := parts + [Margin(depth) + StartTag(e.value.tag, e.value.attrs)];
      depth := depth + 1;
    } else if kind == END_ELEMENT {
      depth := if depth == 0 then 0 else depth - 1;
      var nameIdx := if size >= 24 then I32At(data, offset + 20) else -1;
      parts := parts + [Margin(depth) + EndTag(OrElse(Str(strings, nameIdx), "unknown"))];
    }
    return Ok(State(strings, parts, depth, ns));
  }

  // One turn of the loop: where it stops, and where it goes on to.
  lemma LoopStops(data: seq<Byte>, fileSize: nat, offset: nat, st: State)
    requires !(offset + 8 <= fileSize && offset + 8 <= |data|)
      || U32At(data, offset + 4) < 8 || offset + U32At(data, offset + 4) > |data|
    ensures Walk(data, fileSize, offset, st) == Ok(st)
  {
    hide U32At, Chunk;
  }

  lemma LoopGoesOn(data: seq<Byte>, fileSize: nat, offset: nat, st: State, size: nat)
    requires offset + 8 <= fileSize && offset + 8 <= |data|
    requires size == U32At(data, offset + 4) && 8 <= size && offset + size <= |data|
    ensures ChunkInside(data, offset)
    ensures Walk(data, fileSize, offset, st)
         == match Chunk(data, offset, st) case Ok(next) => Walk(data, fileSize, offset + size, next) case _ => Malformed
  {
    hide U32At, Chunk;
    WalkStep(data, fileSize, offset, st);
    hide Walk;
  }

  lemma DecodeIsWalk(data: seq<Byte>, fileSize: nat)
    requires IsBinaryAxml(data) && fileSize == if U32At(data, 4) > |data| then |data| else U32At(data, 4)
    ensures Decode(data)
         == match Walk(data, fileSize, 8, INITIAL) case Ok(st) => Ok(Join(st.parts, "\n")) case _ => Malformed
  {
    hide IsBinaryAxml, Walk, U32At, Join;
  }

  lemma NotBinary(data: seq<Byte>)
    ensures !IsBinaryAxml(data) ==> Decode(data) == NotAxml
    ensures IsBinaryAxml(data) ==> |data| >= 8
  {
    hide Walk, Join;
  }

  method AxmlToXml(data: seq<Byte>) returns (r: Result<string>)
    ensures r == Decode(data)
  {
    hide *;
    NotBinary(data);
    if !IsBinaryAxml(data) {
      return NotAxml;
    }
    var fileSize := U32At(data, 4);
    if fileSize > |data| {
      fileSize := |data|;
    }
    DecodeIsWalk(data, fileSize);
    var offset, st := 8, INITIAL;
    while offset + 8 <= fileSize && offset + 8 <= |data|
      invariant Walk(data, fileSize, offset, st) == Walk(data, fileSize, 8, INITIAL)
      decreases |data| - offset
    {
      var size := U32At(data, offset + 4);
      if size < 8 || offset + size > |data| {
        break;
      }
      LoopGoesOn(data, fileSize, offset, st, size);
      var next := HandleChunk(data, offset, st);
      if !next.Ok? {
        return Malformed;
      }
      st := next.value;
      offset := offset + size;
    }
    LoopStops(data, fileSize, offset, st);
    return Ok(Join(st.parts, "\n"));
  }
}
