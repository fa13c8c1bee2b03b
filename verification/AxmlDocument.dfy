/** What binary XML denotes: a tree of elements and namespace scopes, how that tree is laid out
    as chunks, and the text it should decode to. */
module AxmlDocument {
  import opened Common
  import opened Bytes
  import opened Text
  import Unicode
  import D = AxmlDecoder

  type Int32 = x: int | -0x8000_0000 <= x < 0x8000_0000
  type Word = x: int | 0 <= x < 0x1_0000_0000

  // `Raw` is a typed value that also carries its source text. A string may be given as source text too, or only
  // as its value. The last two have a type the format gives no meaning here: a number that is a string's index
  // stands for that string, and any other for itself.
  datatype Value =
    | Plain(s: string, both: bool)
    | Dec(n: Int32)
    | Hex(w: Word)
    | Flag(w: Word)
    | Reference(id: Word)
    | Null(w: Word)
    | Raw(text: string, kind: Byte, word: Word)
    | Indexed(text: string, kind: Byte)
    | Other(kind: Byte, word: Word)

  datatype Attr = Attr(ns: Option<string>, name: string, value: Value)

  datatype Node =
    | Element(tag: string, attrs: seq<Attr>, kids: seq<Node>)
    | Namespace(prefix: string, uri: string, body: seq<Node>)

  // Source text is not empty, and the types without a meaning are none of those that have one.
  predicate Sound(v: Value) {
    && (v.Raw? || v.Indexed? ==> v.text != "")
    && (v.Indexed? || v.Other? ==> v.kind !in {0x00, 0x01, 0x03, 0x10, 0x11, 0x12})
  }

  // Non-empty names, sound values, and no namespace URI declared again inside its own scope.
  predicate WellFormed(nodes: seq<Node>, scope: set<string>) {
    nodes != [] ==>
      && (match nodes[0]
          case Element(tag, attrs, kids) =>
            && tag != "" && |attrs| < 0x1_0000
            && (forall a :: a in attrs ==> a.name != "" && Sound(a.value))
            && WellFormed(kids, scope)
          case Namespace(_, uri, body) => uri !in scope && WellFormed(body, scope + {uri}))
      && WellFormed(nodes[1..], scope)
  }

  // ---- the text a tree stands for ----

  function Shown(v: Value): string {
    match v
    case Plain(s, _) => s
    case Dec(n) => Decimal(n)
    case Hex(w) => "0x" + Numeral(w, 16)
    case Flag(w) => if w != 0 then "true" else "false"
    case Reference(id) => "@" + Numeral(id, 16)
    case Null(_) => ""
    case Raw(text, _, _) => text
    case Indexed(text, _) => text
    case Other(_, word) => Decimal(word)
  }

  // Somewhere in it stands the name of the Android namespace.
  predicate IsAndroid(uri: string) {
    exists i :: 0 <= i <= |uri| && "android.com/apk/res/android" <= uri[i..]
  }

  // The attribute's name under the declarations in scope, innermost scope first: the Android namespace is always
  // "android", whatever prefix it is declared with; another one has its prefix, if that is not empty.
  function QualifiedName(a: Attr, scope: map<string, string>): string {
    if a.ns == None then a.name
    else
      var uri := a.ns.value;
      if IsAndroid(uri) then "android:" + a.name
      else if uri in scope && scope[uri] != "" then scope[uri] + ":" + a.name
      else a.name
  }

  function AttrSource(a: Attr, scope: map<string, string>): string {
    QualifiedName(a, scope) + "=\"" + Escape(Shown(a.value)) + "\""
  }

  function AttrText(attrs: seq<Attr>, scope: map<string, string>): string {
    if attrs == [] then ""
    else " " + AttrSource(attrs[0], scope) + AttrText(attrs[1..], scope)
  }

  function Indent(depth: nat): string {
    seq(2 * depth, _ => ' ')
  }

  // One line per tag, two spaces of indentation per enclosing element.
  function Lines(nodes: seq<Node>, depth: nat, scope: map<string, string>): seq<string>
    decreases nodes
  {
    if nodes == [] then []
    else
      (match nodes[0]
       case Element(tag, attrs, kids) =>
         [Indent(depth) + "<" + tag + AttrText(attrs, scope) + ">"]
         + Lines(kids, depth + 1, scope)
         + [Indent(depth) + "</" + tag + ">"]
       case Namespace(prefix, uri, body) => Lines(body, depth, scope[uri := prefix]))
      + Lines(nodes[1..], depth, scope)
  }

  function Printed(doc: seq<Node>): string {
    Join(["<?xml version=\"1.0\" encoding=\"utf-8\"?>"] + Lines(doc, 0, map[]), "\n")
  }

  // ---- the events a tree is written as ----

  datatype Event =
    | OpenScope(prefix: string, uri: string)
    | CloseScope(prefix: string, uri: string)
    | Open(tag: string, attrs: seq<Attr>)
    | Close(tag: string)

  function Flatten(nodes: seq<Node>): seq<Event> {
    if nodes == [] then []
    else
      (match nodes[0]
       case Element(tag, attrs, kids) => [Open(tag, attrs)] + Flatten(kids) + [Close(tag)]
       case Namespace(prefix, uri, body) =>
         [OpenScope(prefix, uri)] + Flatten(body) + [CloseScope(prefix, uri)])
      + Flatten(nodes[1..])
  }

  function ValueStrings(v: Value): set<string> {
    match v
    case Plain(s, _) => {s}
    case Raw(text, _, _) => {text}
    case Indexed(text, _) => {text}
    case _ => {}
  }

  function AttrStrings(a: Attr): set<string> {
    {a.name} + (match a.ns case None => {} case Some(uri) => {uri}) + ValueStrings(a.value)
  }

  function Strings(e: Event): set<string> {
    match e
    case OpenScope(p, u) => {p, u}
    case CloseScope(p, u) => {p, u}
    case Open(tag, attrs) => {tag} + set a, s | a in attrs && s in AttrStrings(a) :: s
    case Close(tag) => {tag}
  }

  // ---- bytes ----

  // The first index of `s`; -1 in a record stands for "no string".
  function IndexOf(pool: seq<string>, s: string): (i: nat)
    requires s in pool
    ensures i < |pool| && pool[i] == s
  {
    if pool[0] == s then 0 else 1 + IndexOf(pool[1..], s)
  }

  function RawIndex(v: Value, pool: seq<string>): (i: int)
    requires ValueStrings(v) <= set s | s in pool
    ensures -1 <= i < |pool|
  {
    match v
    case Plain(s, both) => if both then IndexOf(pool, s) else -1
    case Raw(text, _, _) => IndexOf(pool, text)
    case _ => -1
  }

  function TypeOf(v: Value): Byte {
    match v
    case Plain(_, _) => 0x03
    case Dec(_) => 0x10
    case Hex(_) => 0x11
    case Flag(_) => 0x12
    case Reference(_) => 0x01
    case Null(_) => 0x00
    case Raw(_, kind, _) => kind
    case Indexed(_, kind) => kind
    case Other(kind, _) => kind
  }

  function DataOf(v: Value, pool: seq<string>): Word
    requires ValueStrings(v) <= set s | s in pool
    requires |pool| <= 1_000_000
  {
    match v
    case Plain(s, _) => IndexOf(pool, s)
    case Dec(n) => Unsigned(n)
    case Hex(w) => w
    case Flag(w) => w
    case Reference(id) => id
    case Null(w) => w
    case Raw(_, _, word) => word
    case Indexed(text, _) => IndexOf(pool, text)
    case Other(_, word) => word
  }

  function AttrBytes(a: Attr, pool: seq<string>): (b: seq<Byte>)
    requires AttrStrings(a) <= set s | s in pool
    requires |pool| <= 1_000_000
    ensures |b| == 20
  {
    LE32s(if a.ns.Some? then IndexOf(pool, a.ns.value) else -1)
    + (LE32s(IndexOf(pool, a.name))
    + (LE32s(RawIndex(a.value, pool))
    + ([8, 0, 0, TypeOf(a.value)]
    + LE32(DataOf(a.value, pool)))))
  }

  ghost predicate InPool(e: Event, pool: seq<string>) {
    Strings(e) <= set s | s in pool
  }

  // A number of a type without a meaning is not the index of a string.
  predicate Unambiguous(a: Attr, pool: seq<string>) {
    a.value.Other? ==> a.value.word >= |pool| || pool[a.value.word] == ""
  }

  // What the format leaves open in the layout of one event's chunk.
  datatype Shape = Shape(
    headerSize: nat,
    lead: seq<Byte>,        // the line number and comment index
    gap: seq<Byte>,         // between the attribute count and the first attribute
    slack: seq<Byte>,       // after each attribute record
    unsized: bool,          // the record size is written as 0
    extra: seq<Byte>)       // at the end of the chunk

  predicate Shaped(e: Event, sh: Shape) {
    && |sh.lead| == 8 && 0x10 <= sh.headerSize < 0x1_0000
    && (e.Open? ==>
          (|e.attrs| < 0x1_0000 && 14 + |sh.gap| < 0x1_0000 && 20 + |sh.slack| < 0x1_0000
           && (sh.unsized ==> sh.slack == [])))
  }

  predicate Listed(attrs: seq<Attr>, pool: seq<string>) {
    forall a :: a in attrs ==> AttrStrings(a) <= set s | s in pool
  }

  function AllAttrBytes(attrs: seq<Attr>, pool: seq<string>, slack: seq<Byte>): seq<Byte>
    requires Listed(attrs, pool)
    requires |pool| <= 1_000_000
  {
    if attrs == [] then [] else (AttrBytes(attrs[0], pool) + slack) + AllAttrBytes(attrs[1..], pool, slack)
  }

  function KindOf(e: Event): nat {
    match e
    case OpenScope(_, _) => 0x0100
    case CloseScope(_, _) => 0x0101
    case Open(_, _) => 0x0102
    case Close(_) => 0x0103
  }

  // The chunk body after its 16-byte node header.
  function Extension(e: Event, pool: seq<string>, sh: Shape): (b: seq<Byte>)
    requires InPool(e, pool) && |pool| <= 1_000_000 && Shaped(e, sh)
    ensures |b| >= 8
  {
    match e
    case OpenScope(p, u) => LE32s(IndexOf(pool, p)) + LE32s(IndexOf(pool, u))
    case CloseScope(p, u) => LE32s(IndexOf(pool, p)) + LE32s(IndexOf(pool, u))
    case Open(tag, attrs) =>
      OpenStringsInPool(tag, attrs, pool);
      LE32s(-1) + (LE32s(IndexOf(pool, tag))
      + (LE16(14 + |sh.gap|) + (LE16(if sh.unsized then 0 else 20 + |sh.slack|) + (LE16(|attrs|)
      + (sh.gap + AllAttrBytes(attrs, pool, sh.slack))))))
    case Close(tag) => LE32s(-1) + LE32s(IndexOf(pool, tag))
  }

  lemma OpenStringsInPool(tag: string, attrs: seq<Attr>, pool: seq<string>)
    requires InPool(Open(tag, attrs), pool)
    ensures tag in pool
    ensures Listed(attrs, pool)
  {
    forall a, s | a in attrs && s in AttrStrings(a) ensures s in pool {
      assert s in Strings(Open(tag, attrs));
    }
    assert tag in Strings(Open(tag, attrs));
  }

  // A chunk: kind, header size, total size, the rest.
  function Frame(kind: nat, headerSize: nat, rest: seq<Byte>): (b: seq<Byte>)
    requires kind < 0x1_0000 && headerSize < 0x1_0000 && 8 + |rest| < 0x1_0000_0000
    ensures |b| == 8 + |rest|
  {
    LE16(kind) + (LE16(headerSize) + (LE32(8 + |rest|) + rest))
  }

  // One chunk after the string pool: an event, an element's tag cut too short to name it, or a chunk that has no
  // effect, because its kind is not known or because it is a declaration cut short.
  datatype Item =
    | Node(event: Event, shape: Shape)
    | Short(opens: bool, headerSize: nat, rest: seq<Byte>)
    | Unknown(kind: nat, headerSize: nat, rest: seq<Byte>)

  ghost predicate Encodable(item: Item, pool: seq<string>)
  {
    match item
    case Node(e, sh) =>
      && |pool| <= 1_000_000 && InPool(e, pool) && Shaped(e, sh)
      && (e.Open? ==> forall a :: a in e.attrs ==> Unambiguous(a, pool))
      && 16 + |Extension(e, pool, sh)| + |sh.extra| < 0x1_0000_0000
    case Short(opens, headerSize, rest) =>
      && headerSize < 0x1_0000 && 8 + |rest| < 0x1_0000_0000
      && (if opens then headerSize < 0x10 else |rest| < 16)
    case Unknown(kind, headerSize, rest) =>
      && kind < 0x1_0000 && headerSize < 0x1_0000 && 8 + |rest| < 0x1_0000_0000
      && kind !in {0x0001, 0x0102, 0x0103}
      && (kind in {0x0100, 0x0101} ==> headerSize < 0x10 || |rest| < 16)
  }

  ghost function ItemBytes(item: Item, pool: seq<string>): (b: seq<Byte>)
    requires Encodable(item, pool)
    ensures 8 <= |b| < 0x1_0000_0000
  {
    match item
    case Node(e, sh) => Frame(KindOf(e), sh.headerSize, sh.lead + (Extension(e, pool, sh) + sh.extra))
    case Short(opens, headerSize, rest) => Frame(if opens then 0x0102 else 0x0103, headerSize, rest)
    case Unknown(kind, headerSize, rest) => Frame(kind, headerSize, rest)
  }

  ghost function Body(items: seq<Item>, pool: seq<string>): (b: seq<Byte>)
    requires forall i :: i in items ==> Encodable(i, pool)
  {
    if items == [] then [] else ItemBytes(items[0], pool) + Body(items[1..], pool)
  }

  // Attributes without a name are left out.
  function Visible(attrs: seq<Attr>): seq<Attr> {
    if attrs == [] then []
    else (if attrs[0].name == "" then [] else [attrs[0]]) + Visible(attrs[1..])
  }

  // A tag without a name is "unknown".
  function TagOf(name: string): string {
    if name == "" then "unknown" else name
  }

  function EventOf(item: Item): Option<Event> {
    match item
    case Node(Open(tag, attrs), _) => Some(Open(TagOf(tag), Visible(attrs)))
    case Node(Close(tag), _) => Some(Close(TagOf(tag)))
    case Node(e, _) => Some(e)
    case Short(opens, _, _) => Some(if opens then Open("unknown", []) else Close("unknown"))
    case Unknown(_, _, _) => None
  }

  function Events(items: seq<Item>): seq<Event> {
    if items == [] then []
    else (match EventOf(items[0]) case Some(e) => [e] case None => []) + Events(items[1..])
  }

  // ---- the string pool chunk ----

  // A length prefix of one byte, or of two when it does not fit in seven bits.
  function Length8(n: nat): (b: seq<Byte>)
    requires n < 0x8000
    ensures |b| == if n < 0x80 then 1 else 2
  {
    if n < 0x80 then [n] else [0x80 + n / 256, n % 256]
  }

  predicate StringFits(s: string) {
    |Unicode.Utf8(s)| < 0x8000 && |Unicode.Utf16(s)| / 2 < 0x8000
  }

  function StringBytes(s: string, utf8: bool): seq<Byte>
    requires StringFits(s)
  {
    if utf8 then Length8(|Unicode.Utf16(s)| / 2) + (Length8(|Unicode.Utf8(s)|) + (Unicode.Utf8(s) + [0]))
    else LE16(|Unicode.Utf16(s)| / 2) + (Unicode.Utf16(s) + [0, 0])
  }

  // The offset table.
  function OffsetTable(offsets: seq<nat>): (b: seq<Byte>)
    requires forall k :: 0 <= k < |offsets| ==> offsets[k] < 0x1_0000_0000
    ensures |b| == 4 * |offsets|
  {
    if offsets == [] then [] else LE32(offsets[0]) + OffsetTable(offsets[1..])
  }

  // What the format leaves open in the layout of the string pool.
  datatype PoolShape = PoolShape(
    utf8: bool,
    lowFlags: Byte,         // the flags beside the one for UTF-8
    highFlags: nat,
    styles: Word,           // the number of styles
    head: seq<Byte>,        // the header past its sixth word
    offsets: seq<nat>,      // where each string is
    gap: seq<Byte>,         // between the offset table and the strings
    text: seq<Byte>)        // the strings, in any order, shared or apart

  function Flags(sh: PoolShape): nat {
    sh.lowFlags + (if sh.utf8 then 256 else 0) + 512 * sh.highFlags
  }

  function PoolStart(sh: PoolShape): nat {
    24 + |sh.head| + 4 * |sh.offsets| + |sh.gap|
  }

  // The string is in the pool's text at the offset; an empty one may also be given by an offset past the text.
  ghost predicate StoredAt(s: string, offset: nat, sh: PoolShape) {
    || (StringFits(s) && Holds(sh.text, offset, StringBytes(s, sh.utf8)))
    || (s == "" && offset >= |sh.text|)
  }

  ghost predicate PoolFits(pool: seq<string>, sh: PoolShape) {
    && |pool| == |sh.offsets| <= 1_000_000 && 24 + |sh.head| < 0x1_0000 && Flags(sh) < 0x1_0000_0000
    && (forall k :: 0 <= k < |pool| ==> sh.offsets[k] < 0x1_0000_0000 && StoredAt(pool[k], sh.offsets[k], sh))
    && PoolStart(sh) + |sh.text| < 0x1_0000_0000
  }

  ghost function PoolBytes(pool: seq<string>, sh: PoolShape): seq<Byte>
    requires PoolFits(pool, sh)
  {
    Frame(0x0001, 24 + |sh.head|,
      LE32(|pool|) + (LE32(sh.styles) + (LE32(Flags(sh)) + (LE32(PoolStart(sh))
      + (sh.head + (OffsetTable(sh.offsets) + (sh.gap + sh.text)))))))
  }

  // ---- the file ----

  datatype Layout = Layout(
    before: seq<Item>,      // chunks ahead of the pool, all without effect
    pool: seq<string>,
    poolShape: PoolShape,
    after: seq<Item>,       // the events, with chunks without effect anywhere among them
    size: nat,              // the declared file size
    trailer: seq<Byte>)     // bytes after the last chunk

  // No chunk can begin with these bytes at the end of the data.
  predicate EndsWalk(bytes: seq<Byte>) {
    |bytes| < 8 || U32At(bytes, 4) < 8 || U32At(bytes, 4) > |bytes|
  }

  // The declared size is where the chunks end, or beyond where nothing more can be read.
  ghost predicate Valid(l: Layout) {
    && (forall i :: i in l.before ==> i.Unknown? && Encodable(i, l.pool))
    && (forall i :: i in l.after ==> Encodable(i, l.pool))
    && PoolFits(l.pool, l.poolShape)
    && 8 + |Chunks(l)| <= l.size < 0x1_0000_0000
    && (l.size == 8 + |Chunks(l)| || EndsWalk(l.trailer))
  }

  ghost function Chunks(l: Layout): seq<Byte>
    requires forall i :: i in l.before ==> Encodable(i, l.pool)
    requires forall i :: i in l.after ==> Encodable(i, l.pool)
    requires PoolFits(l.pool, l.poolShape)
  {
    Body(l.before, l.pool) + (PoolBytes(l.pool, l.poolShape) + Body(l.after, l.pool))
  }

  ghost function File(l: Layout): seq<Byte>
    requires Valid(l)
  {
    LE32(0x0008_0003) + (LE32(l.size) + (Chunks(l) + l.trailer))
  }
}
