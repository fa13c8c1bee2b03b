/** The decoder inverts the encoder: two simulations, one from chunks to events and one from
    events to the tree. */
module AxmlRoundTrip {
  import opened Common
  import opened Bytes
  import opened Text
  import opened AxmlDocument
  import D = AxmlDecoder
  import P = AxmlPool

  // ---- events against the tree ----

  // The decoder's variables, with the namespace table keyed by URI instead of by pool index.
  datatype View = View(lines: seq<string>, depth: nat, scope: map<string, string>)

  function Apply(v: View, e: Event): View {
    match e
    case OpenScope(prefix, uri) => v.(scope := v.scope[uri := prefix])
    case CloseScope(_, uri) => v.(scope := v.scope - {uri})
    case Open(tag, attrs) =>
      v.(lines := v.lines + [Indent(v.depth) + "<" + tag + AttrText(attrs, v.scope) + ">"],
         depth := v.depth + 1)
    case Close(tag) =>
      var depth := if v.depth == 0 then 0 else v.depth - 1;
      v.(lines := v.lines + [Indent(depth) + "</" + tag + ">"], depth := depth)
  }

  function Run(v: View, es: seq<Event>): View
    decreases es
  {
    if es == [] then v else Run(Apply(v, es[0]), es[1..])
  }

  lemma {:induction false} RunConcat(v: View, a: seq<Event>, b: seq<Event>)
    ensures Run(v, a + b) == Run(Run(v, a), b)
    decreases a
  {
    if a == [] {
      assert a + b == b;
    } else {
      assert (a + b)[1..] == a[1..] + b;
      RunConcat(Apply(v, a[0]), a[1..], b);
    }
  }

  lemma RunBracketed(v: View, enter: Event, inner: seq<Event>, leave: Event, rest: seq<Event>)
    ensures Run(v, [enter] + inner + [leave] + rest) == Run(Apply(Run(Apply(v, enter), inner), leave), rest)
  {
    var tail := [leave] + rest;
    assert [enter] + inner + [leave] + rest == [enter] + (inner + tail);
    assert ([enter] + (inner + tail))[1..] == inner + tail;
    RunConcat(Apply(v, enter), inner, tail);
    assert tail[1..] == rest;
  }

  // `v` after printing a forest: only lines are added.
  function After(v: View, nodes: seq<Node>): View {
    v.(lines := v.lines + Lines(nodes, v.depth, v.scope))
  }

  lemma ElementPrinted(v: View, tag: string, attrs: seq<Attr>, kids: seq<Node>, nodes: seq<Node>)
    requires nodes != [] && nodes[0] == Element(tag, attrs, kids)
    ensures After(Apply(After(Apply(v, Open(tag, attrs)), kids), Close(tag)), nodes[1..]) == After(v, nodes)
  {
    hide AttrText, Indent;
    var v1 := Apply(v, Open(tag, attrs));
    var start := Indent(v.depth) + "<" + tag + AttrText(attrs, v.scope) + ">";
    var end := Indent(v.depth) + "</" + tag + ">";
    var inner, rest := Lines(kids, v1.depth, v.scope), Lines(nodes[1..], v.depth, v.scope);
    assert Lines(nodes, v.depth, v.scope) == [start] + inner + [end] + rest;
    assert v.lines + [start] + inner + [end] + rest == v.lines + ([start] + inner + [end] + rest);
  }

  lemma NamespacePrinted(v: View, prefix: string, uri: string, body: seq<Node>, nodes: seq<Node>)
    requires nodes != [] && nodes[0] == Namespace(prefix, uri, body) && uri !in v.scope
    ensures After(Apply(After(Apply(v, OpenScope(prefix, uri)), body), CloseScope(prefix, uri)), nodes[1..])
         == After(v, nodes)
  {
    var inner, rest := Lines(body, v.depth, v.scope[uri := prefix]), Lines(nodes[1..], v.depth, v.scope);
    assert v.scope[uri := prefix] - {uri} == v.scope;
    assert Lines(nodes, v.depth, v.scope) == inner + rest;
    assert v.lines + inner + rest == v.lines + (inner + rest);
  }

  /** Running a forest's events prints exactly that forest, and restores depth and scope. */
  lemma {:induction false} RunForest(v: View, nodes: seq<Node>)
    requires WellFormed(nodes, v.scope.Keys)
    ensures Run(v, Flatten(nodes)) == After(v, nodes)
    decreases nodes
  {
    if nodes == [] {
      assert v.lines + [] == v.lines;
    } else {
      hide Apply, After;
      var rest := nodes[1..];
      match nodes[0] {
        case Element(tag, attrs, kids) =>
          RunBracketed(v, Open(tag, attrs), Flatten(kids), Close(tag), Flatten(rest));
          ElementPrinted(v, tag, attrs, kids, nodes);
          ScopeKept(v, nodes[0]);
          var v1 := Apply(v, Open(tag, attrs));
          RunForest(v1, kids);
          RunForest(Apply(After(v1, kids), Close(tag)), rest);
        case Namespace(prefix, uri, body) =>
          RunBracketed(v, OpenScope(prefix, uri), Flatten(body), CloseScope(prefix, uri), Flatten(rest));
          NamespacePrinted(v, prefix, uri, body, nodes);
          ScopeKept(v, nodes[0]);
          var v1 := Apply(v, OpenScope(prefix, uri));
          RunForest(v1, body);
          RunForest(Apply(After(v1, body), CloseScope(prefix, uri)), rest);
      }
    }
  }

  lemma ScopeKept(v: View, node: Node)
    ensures match node
      case Element(tag, attrs, kids) =>
        var v1 := Apply(v, Open(tag, attrs));
        v1.scope == v.scope && Apply(After(v1, kids), Close(tag)).scope == v.scope
      case Namespace(prefix, uri, body) =>
        var v1 := Apply(v, OpenScope(prefix, uri));
        && v1.scope.Keys == v.scope.Keys + {uri}
        && (uri !in v.scope ==> Apply(After(v1, body), CloseScope(prefix, uri)).scope == v.scope)
  {
  }

  // ---- chunks against events ----

  // The decoder's index-keyed table says what the URI-keyed scope says.
  ghost predicate SameScope(ns: map<int, string>, scope: map<string, string>, pool: seq<string>) {
    && (forall u :: u in scope ==> u in pool && IndexOf(pool, u) in ns && ns[IndexOf(pool, u)] == scope[u])
    && (forall k :: k in ns ==> 0 <= k < |pool| && pool[k] in scope && k == IndexOf(pool, pool[k]))
  }

  ghost predicate Shows(st: D.State, v: View, pool: seq<string>) {
    st.strings == pool && st.parts == v.lines && st.depth == v.depth && SameScope(st.ns, v.scope, pool)
  }

  lemma FrameFields(data: seq<Byte>, off: nat, kind: nat, headerSize: nat, rest: seq<Byte>)
    requires kind < 0x1_0000 && headerSize < 0x1_0000 && 8 + |rest| < 0x1_0000_0000
    requires Holds(data, off, Frame(kind, headerSize, rest))
    ensures U16At(data, off) == kind && U16At(data, off + 2) == headerSize
    ensures U32At(data, off + 4) == 8 + |rest| && D.ChunkInside(data, off)
    ensures Holds(data, off + 8, rest)
  {
    var size := LE32(8 + |rest|);
    HoldsSplit(data, off, LE16(kind), LE16(headerSize) + (size + rest));
    HoldsSplit(data, off + 2, LE16(headerSize), size + rest);
    HoldsSplit(data, off + 4, size, rest);
    Read16(data, off, kind);
    Read16(data, off + 2, headerSize);
    Read32(data, off + 4, 8 + |rest|);
  }

  lemma ValueShown(v: Value, pool: seq<string>)
    requires ValueStrings(v) <= (set s | s in pool) && Sound(v)
    requires v.Other? ==> v.word >= |pool| || pool[v.word] == ""
    requires |pool| <= 1_000_000
    ensures D.FormatValue(pool, RawIndex(v, pool), TypeOf(v), DataOf(v, pool)) == Shown(v)
  {
  }

  lemma ReadRecord(data: seq<Byte>, off: nat, ns: Int32, name: Int32, raw: Int32, kind: Byte, word: Word)
    requires Holds(data, off, LE32s(ns) + (LE32s(name) + (LE32s(raw) + ([8, 0, 0, kind] + LE32(word)))))
    ensures off + 20 <= |data|
    ensures I32At(data, off) == ns && I32At(data, off + 4) == name && I32At(data, off + 8) == raw
    ensures data[off + 15] == kind && U32At(data, off + 16) == word
  {
    hide LE32s, LE32, I32At, U32At;
    var f4: seq<Byte> := [8, 0, 0, kind];
    HoldsSplit(data, off, LE32s(ns), LE32s(name) + (LE32s(raw) + (f4 + LE32(word))));
    HoldsSplit(data, off + 4, LE32s(name), LE32s(raw) + (f4 + LE32(word)));
    HoldsSplit(data, off + 8, LE32s(raw), f4 + LE32(word));
    HoldsSplit(data, off + 12, f4, LE32(word));
    Read32s(data, off, ns);
    Read32s(data, off + 4, name);
    Read32s(data, off + 8, raw);
    Read32(data, off + 16, word);
    assert data[off + 15] == data[off + 12..off + 16][3];
  }

  lemma AttributeFields(data: seq<Byte>, off: nat, a: Attr, pool: seq<string>)
    requires AttrStrings(a) <= (set s | s in pool) && |pool| <= 1_000_000
    requires Holds(data, off, AttrBytes(a, pool))
    ensures I32At(data, off) == if a.ns.Some? then IndexOf(pool, a.ns.value) else -1
    ensures I32At(data, off + 4) == IndexOf(pool, a.name)
    ensures I32At(data, off + 8) == RawIndex(a.value, pool)
    ensures data[off + 15] == TypeOf(a.value) && U32At(data, off + 16) == DataOf(a.value, pool)
  {
    ReadRecord(data, off, if a.ns.Some? then IndexOf(pool, a.ns.value) else -1, IndexOf(pool, a.name),
               RawIndex(a.value, pool), TypeOf(a.value), DataOf(a.value, pool));
  }

  // The decoder's search for the Android namespace.
  lemma AndroidFound(uri: string)
    ensures Contains(uri, D.ANDROID_URI) <==> IsAndroid(uri)
  {
    var needle := "android.com/apk/res/android";
    forall i | 0 <= i <= |uri| ensures OccursAt(uri, needle, i) <==> needle <= uri[i..] {
      if OccursAt(uri, needle, i) {
        assert uri[i..][..|needle|] == uri[i..i + |needle|];
      }
    }
    if Contains(uri, needle) {
      var i :| 0 <= i <= |uri| && OccursAt(uri, needle, i);
      assert needle <= uri[i..];
    }
    if IsAndroid(uri) {
      var i :| 0 <= i <= |uri| && needle <= uri[i..];
      assert OccursAt(uri, needle, i);
    }
  }

  // The decoder's prefixes are those of the qualified names.
  lemma PrefixIsQualified(a: Attr, scope: map<string, string>)
    ensures QualifiedName(a, scope)
         == match a.ns
            case None => a.name
            case Some(uri) => D.PrefixFor(uri, if uri in scope then scope[uri] else "") + a.name
  {
    if a.ns.Some? {
      AndroidFound(a.ns.value);
      hide Contains, IsAndroid;
      assert "" + a.name == a.name;
    }
  }

  lemma AttributeShown(data: seq<Byte>, off: nat, a: Attr, pool: seq<string>,
                       ns: map<int, string>, scope: map<string, string>)
    requires AttrStrings(a) <= (set s | s in pool) && |pool| <= 1_000_000
    requires a.name != "" && Sound(a.value) && Unambiguous(a, pool)
    requires Holds(data, off, AttrBytes(a, pool)) && SameScope(ns, scope, pool)
    ensures D.AttributeAt(data, off, pool, ns) == Some(D.Pair(QualifiedName(a, scope), Shown(a.value)))
  {
    AttributeFields(data, off, a, pool);
    ValueShown(a.value, pool);
    PrefixIsQualified(a, scope);
    hide I32At, U32At, D.FormatValue, RawIndex, TypeOf, DataOf, AttrBytes, D.PrefixFor, QualifiedName, Sound, ValueStrings;
    if a.ns.Some? {
      var k := IndexOf(pool, a.ns.value);
      assert D.Str(pool, k) == a.ns.value;
      assert k in ns <==> a.ns.value in scope;
      assert k in ns ==> ns[k] == scope[a.ns.value];
    }
    assert D.Str(pool, IndexOf(pool, a.name)) == a.name;
    assert D.AttributeAt(data, off, pool, ns).Some?;
    assert D.AttributeAt(data, off, pool, ns).value.key == QualifiedName(a, scope);
  }

  function Pairs(attrs: seq<Attr>, scope: map<string, string>): seq<D.Pair> {
    if attrs == [] then []
    else [D.Pair(QualifiedName(attrs[0], scope), Shown(attrs[0].value))] + Pairs(attrs[1..], scope)
  }

  lemma AttributeSkipped(data: seq<Byte>, off: nat, a: Attr, pool: seq<string>, ns: map<int, string>)
    requires AttrStrings(a) <= (set s | s in pool) && |pool| <= 1_000_000
    requires a.name == "" && Holds(data, off, AttrBytes(a, pool))
    ensures D.AttributeAt(data, off, pool, ns) == None
  {
    AttributeFields(data, off, a, pool);
    hide I32At, U32At, D.FormatValue, RawIndex, TypeOf, DataOf, AttrBytes, D.PrefixFor;
  }

  // One record is printed as its attribute, or not at all.
  lemma RecordShown(data: seq<Byte>, off: nat, a: Attr, pool: seq<string>, ns: map<int, string>, scope: map<string, string>)
    requires AttrStrings(a) <= (set s | s in pool) && |pool| <= 1_000_000
    requires Unambiguous(a, pool) && (a.name != "" ==> Sound(a.value))
    requires Holds(data, off, AttrBytes(a, pool)) && SameScope(ns, scope, pool)
    ensures off + 20 <= |data|
    ensures D.AsList(D.AttributeAt(data, off, pool, ns)) == Pairs(Visible([a]), scope)
  {
    hide D.AttributeAt, AttrBytes, AttrStrings, QualifiedName, Shown, SameScope, Sound, Unambiguous;
    assert Visible([a][1..]) == [];
    if a.name == "" {
      AttributeSkipped(data, off, a, pool, ns);
    } else {
      AttributeShown(data, off, a, pool, ns, scope);
      assert Visible([a]) == [a] && Pairs([a][1..], scope) == [];
    }
  }

  lemma PairsFirst(first: Attr, more: seq<Attr>, scope: map<string, string>)
    ensures Pairs([first] + more, scope) == Pairs([first], scope) + Pairs(more, scope)
  {
    hide QualifiedName, Shown;
    assert ([first] + more)[1..] == more;
    assert [first][1..] == [] && Pairs([], scope) == [];
  }

  lemma VisibleCons(attrs: seq<Attr>)
    requires attrs != []
    ensures Visible(attrs) == Visible([attrs[0]]) + Visible(attrs[1..])
    ensures Visible([attrs[0]]) == if attrs[0].name == "" then [] else [attrs[0]]
  {
    assert [attrs[0]][1..] == [] && Visible([]) == [];
  }

  lemma VisibleFirst(attrs: seq<Attr>, scope: map<string, string>)
    requires attrs != []
    ensures Pairs(Visible(attrs), scope) == Pairs(Visible([attrs[0]]), scope) + Pairs(Visible(attrs[1..]), scope)
  {
    VisibleCons(attrs);
    NoPairs(scope);
    hide *;
    var more := Visible(attrs[1..]);
    if attrs[0].name == "" {
      assert [] + more == more;
    } else {
      PairsFirst(attrs[0], more, scope);
    }
  }

  lemma NoPairs(scope: map<string, string>)
    ensures Pairs([], scope) == []
  {
  }

  // Values the decoder reads as they are.
  ghost predicate SoundAttrs(attrs: seq<Attr>, pool: seq<string>) {
    forall a :: a in attrs ==> Unambiguous(a, pool) && (a.name != "" ==> Sound(a.value))
  }

  lemma FirstListed(attrs: seq<Attr>, pool: seq<string>)
    requires attrs != [] && Listed(attrs, pool) && SoundAttrs(attrs, pool)
    ensures AttrStrings(attrs[0]) <= set s | s in pool
    ensures Unambiguous(attrs[0], pool) && (attrs[0].name != "" ==> Sound(attrs[0].value))
    ensures Listed(attrs[1..], pool) && SoundAttrs(attrs[1..], pool)
  {
    hide AttrStrings, Unambiguous, Sound;
  }

  lemma {:induction false} AttributesShown(data: seq<Byte>, off: nat, attrs: seq<Attr>, slack: seq<Byte>,
                                           pool: seq<string>, ns: map<int, string>, scope: map<string, string>)
    requires Listed(attrs, pool) && SoundAttrs(attrs, pool)
    requires |pool| <= 1_000_000
    requires Holds(data, off, AllAttrBytes(attrs, pool, slack)) && SameScope(ns, scope, pool)
    ensures D.Attributes(data, off, 20 + |slack|, |attrs|, pool, ns) == Pairs(Visible(attrs), scope)
    decreases attrs
  {
    hide D.AttributeAt, D.AsList, AttrBytes, AttrStrings, QualifiedName, Shown, Holds, SameScope, Sound, Unambiguous,
         Listed, SoundAttrs;
    if attrs != [] {
      FirstListed(attrs, pool);
      var record := AttrBytes(attrs[0], pool);
      HoldsSplit(data, off, record + slack, AllAttrBytes(attrs[1..], pool, slack));
      HoldsSplit(data, off, record, slack);
      VisibleFirst(attrs, scope);
      hide Pairs, Visible;
      RecordShown(data, off, attrs[0], pool, ns, scope);
      AttributesShown(data, off + 20 + |slack|, attrs[1..], slack, pool, ns, scope);
    } else {
      assert Pairs(Visible(attrs), scope) == [];
    }
  }

  // The joined attribute list is the printer's: one space before each attribute.
  lemma {:induction false} StartTagText(tag: string, attrs: seq<Attr>, scope: map<string, string>)
    ensures D.StartTag(tag, Pairs(attrs, scope)) == "<" + tag + AttrText(attrs, scope) + ">"
  {
    if attrs != [] {
      JoinedPairs(attrs, scope);
    }
  }

  function KeyValues(pairs: seq<D.Pair>): seq<string> {
    seq(|pairs|, i requires 0 <= i < |pairs| => D.KeyValue(pairs[i]))
  }

  lemma {:induction false} JoinedPairs(attrs: seq<Attr>, scope: map<string, string>)
    requires attrs != []
    ensures " " + Join(KeyValues(Pairs(attrs, scope)), " ") == AttrText(attrs, scope)
  {
    var kvs, rest := KeyValues(Pairs(attrs, scope)), attrs[1..];
    FirstKeyValue(attrs, scope);
    hide AttrSource, D.KeyValue, KeyValues, Pairs;
    if |attrs| == 1 {
      assert rest == [] && AttrText(rest, scope) == "";
      assert AttrText(attrs, scope) == " " + AttrSource(attrs[0], scope) + "";
    } else {
      JoinedPairs(rest, scope);
      assert kvs[1..] == KeyValues(Pairs(rest, scope));
      Spaced(AttrSource(attrs[0], scope), Join(kvs[1..], " "));
    }
  }

  lemma FirstKeyValue(attrs: seq<Attr>, scope: map<string, string>)
    requires attrs != []
    ensures var kvs := KeyValues(Pairs(attrs, scope));
      |kvs| == |attrs| && kvs[0] == AttrSource(attrs[0], scope) && kvs[1..] == KeyValues(Pairs(attrs[1..], scope))
  {
    hide Escape, QualifiedName, Shown;
  }

  lemma Spaced(first: string, more: string)
    ensures " " + (first + " " + more) == " " + first + (" " + more)
  {
  }

  // ---- one chunk, one event ----

  lemma NodeFields(data: seq<Byte>, off: nat, e: Event, sh: Shape, pool: seq<string>)
    requires Encodable(Item.Node(e, sh), pool) && Holds(data, off, ItemBytes(Item.Node(e, sh), pool))
    ensures U16At(data, off) == KindOf(e) && U16At(data, off + 2) == sh.headerSize
    ensures U32At(data, off + 4) == 16 + |Extension(e, pool, sh)| + |sh.extra| && D.ChunkInside(data, off)
    ensures Holds(data, off + 16, Extension(e, pool, sh))
  {
    hide Extension, Holds, InPool, Unambiguous, U16At, U32At;
    var body := Extension(e, pool, sh) + sh.extra;
    FrameFields(data, off, KindOf(e), sh.headerSize, sh.lead + body);
    HoldsSplit(data, off + 8, sh.lead, body);
    HoldsSplit(data, off + 16, Extension(e, pool, sh), sh.extra);
  }

  lemma ScopeOpened(ns: map<int, string>, scope: map<string, string>, pool: seq<string>, prefix: string, uri: string)
    requires SameScope(ns, scope, pool) && uri in pool
    ensures SameScope(ns[IndexOf(pool, uri) := prefix], scope[uri := prefix], pool)
  {
  }

  lemma ScopeClosed(ns: map<int, string>, scope: map<string, string>, pool: seq<string>, uri: string)
    requires SameScope(ns, scope, pool) && uri in pool
    ensures SameScope(ns - {IndexOf(pool, uri)}, scope - {uri}, pool)
  {
  }

  lemma ReadTwo(data: seq<Byte>, off: nat, a: Int32, b: Int32)
    requires Holds(data, off, LE32s(a) + LE32s(b))
    ensures off + 8 <= |data| && I32At(data, off) == a && I32At(data, off + 4) == b
  {
    hide LE32s, I32At;
    HoldsSplit(data, off, LE32s(a), LE32s(b));
    Read32s(data, off, a);
    Read32s(data, off + 4, b);
  }

  lemma ScopeChunk(data: seq<Byte>, off: nat, e: Event, sh: Shape, st: D.State, v: View, pool: seq<string>)
    requires e.OpenScope? || e.CloseScope?
    requires Encodable(Item.Node(e, sh), pool) && Holds(data, off, ItemBytes(Item.Node(e, sh), pool))
    requires Shows(st, v, pool)
    ensures D.ChunkInside(data, off)
    ensures D.Chunk(data, off, st).Ok? && Shows(D.Chunk(data, off, st).value, Apply(v, e), pool)
  {
    hide I32At, U32At, U16At, LE32s, Holds, ItemBytes, SameScope, D.Pool, D.StartElement, IndexOf;
    NodeFields(data, off, e, sh, pool);
    assert e.prefix in Strings(e) && e.uri in Strings(e);
    var p, u := IndexOf(pool, e.prefix), IndexOf(pool, e.uri);
    ReadTwo(data, off + 16, p, u);
    ScopeOpened(st.ns, v.scope, pool, e.prefix, e.uri);
    ScopeClosed(st.ns, v.scope, pool, e.uri);
    assert D.Str(pool, p) == e.prefix;
  }

  lemma {:induction false} MarginIsIndent(depth: nat)
    ensures D.Margin(depth) == Indent(depth)
  {
    if depth > 0 {
      MarginIsIndent(depth - 1);
      assert Indent(depth) == "  " + Indent(depth - 1);
    }
  }

  lemma CloseChunk(data: seq<Byte>, off: nat, tag: string, sh: Shape, st: D.State, v: View, pool: seq<string>)
    requires Encodable(Item.Node(Close(tag), sh), pool)
    requires Holds(data, off, ItemBytes(Item.Node(Close(tag), sh), pool))
    requires Shows(st, v, pool)
    ensures D.ChunkInside(data, off)
    ensures D.Chunk(data, off, st).Ok? && Shows(D.Chunk(data, off, st).value, Apply(v, Close(TagOf(tag))), pool)
  {
    hide I32At, U32At, U16At, LE32s, Holds, ItemBytes, SameScope, D.Pool, D.StartElement, IndexOf, Indent, D.Margin;
    NodeFields(data, off, Close(tag), sh, pool);
    assert tag in Strings(Close(tag));
    ReadTwo(data, off + 16, -1, IndexOf(pool, tag));
    assert D.Str(pool, IndexOf(pool, tag)) == tag;
    EndTagShown(data, off, st, v, pool, tag);
  }

  lemma EndTagShown(data: seq<Byte>, off: nat, st: D.State, v: View, pool: seq<string>, tag: string)
    requires D.ChunkInside(data, off) && U16At(data, off) == 0x0103 && Shows(st, v, pool)
    requires tag == D.Str(pool, if U32At(data, off + 4) >= 24 then I32At(data, off + 20) else -1)
    ensures D.Chunk(data, off, st).Ok? && Shows(D.Chunk(data, off, st).value, Apply(v, Close(TagOf(tag))), pool)
  {
    hide I32At, U32At, U16At, SameScope, D.Pool, D.StartElement, Indent, D.Margin;
    var depth := if v.depth == 0 then 0 else v.depth - 1;
    MarginIsIndent(depth);
    assert Indent(depth) + D.EndTag(TagOf(tag)) == Indent(depth) + "</" + TagOf(tag) + ">";
  }

  lemma ReadOpenHeader(data: seq<Byte>, off: nat, tag: Int32, start: nat, size: nat, count: nat, body: seq<Byte>)
    requires count < 0x1_0000 && start < 0x1_0000 && size < 0x1_0000
    requires Holds(data, off, LE32s(-1) + (LE32s(tag) + (LE16(start) + (LE16(size) + (LE16(count) + body)))))
    ensures off + 14 <= |data| && I32At(data, off + 4) == tag
    ensures U16At(data, off + 8) == start && U16At(data, off + 10) == size && U16At(data, off + 12) == count
    ensures Holds(data, off + 14, body)
  {
    HoldsSplit(data, off, LE32s(-1), LE32s(tag) + (LE16(start) + (LE16(size) + (LE16(count) + body))));
    HoldsSplit(data, off + 4, LE32s(tag), LE16(start) + (LE16(size) + (LE16(count) + body)));
    HoldsSplit(data, off + 8, LE16(start), LE16(size) + (LE16(count) + body));
    HoldsSplit(data, off + 10, LE16(size), LE16(count) + body);
    HoldsSplit(data, off + 12, LE16(count), body);
    Read32s(data, off + 4, tag);
    Read16(data, off + 8, start);
    Read16(data, off + 10, size);
    Read16(data, off + 12, count);
  }

  function SizeField(sh: Shape): nat {
    if sh.unsized then 0 else 20 + |sh.slack|
  }

  // What the fields of an element's chunk say, with the bytes of its attribute records.
  ghost predicate OpenHeld(data: seq<Byte>, off: nat, tag: string, count: nat, sh: Shape, records: seq<Byte>, pool: seq<string>) {
    && off + 30 <= |data| && tag == D.Str(pool, I32At(data, off + 20))
    && U16At(data, off + 24) == 14 + |sh.gap| && U16At(data, off + 28) == count
    && (if U16At(data, off + 26) == 0 then 20 else U16At(data, off + 26)) == 20 + |sh.slack|
    && Holds(data, off + 30 + |sh.gap|, records)
  }

  lemma OpenHeader(data: seq<Byte>, off: nat, index: Int32, count: nat, sh: Shape, records: seq<Byte>, pool: seq<string>)
    requires 14 + |sh.gap| < 0x1_0000 && 20 + |sh.slack| < 0x1_0000 && count < 0x1_0000
    requires sh.unsized ==> sh.slack == []
    requires Holds(data, off + 16, LE32s(-1) + (LE32s(index)
      + (LE16(14 + |sh.gap|) + (LE16(SizeField(sh)) + (LE16(count) + (sh.gap + records))))))
    ensures OpenHeld(data, off, D.Str(pool, index), count, sh, records, pool)
  {
    hide Holds, U16At, I32At, LE16, LE32s, D.Str;
    ReadOpenHeader(data, off + 16, index, 14 + |sh.gap|, SizeField(sh), count, sh.gap + records);
    HoldsSplit(data, off + 30, sh.gap, records);
  }

  lemma OpenFields(data: seq<Byte>, off: nat, tag: string, attrs: seq<Attr>, sh: Shape, pool: seq<string>)
    requires InPool(Open(tag, attrs), pool) && |pool| <= 1_000_000 && Shaped(Open(tag, attrs), sh)
    requires Holds(data, off + 16, Extension(Open(tag, attrs), pool, sh))
    ensures Listed(attrs, pool)
    ensures OpenHeld(data, off, tag, |attrs|, sh, AllAttrBytes(attrs, pool, sh.slack), pool)
  {
    OpenStringsInPool(tag, attrs, pool);
    ExtensionIs(tag, attrs, sh, pool);
    assert tag == D.Str(pool, IndexOf(pool, tag));
    hide Extension, Holds, OpenHeld, InPool, AttrStrings, AllAttrBytes, LE16, LE32s, IndexOf, D.Str, Listed;
    OpenHeader(data, off, IndexOf(pool, tag), |attrs|, sh, AllAttrBytes(attrs, pool, sh.slack), pool);
  }

  lemma ExtensionIs(tag: string, attrs: seq<Attr>, sh: Shape, pool: seq<string>)
    requires InPool(Open(tag, attrs), pool) && |pool| <= 1_000_000 && Shaped(Open(tag, attrs), sh)
    requires tag in pool && Listed(attrs, pool)
    ensures Extension(Open(tag, attrs), pool, sh)
         == LE32s(-1) + (LE32s(IndexOf(pool, tag)) + (LE16(14 + |sh.gap|) + (LE16(SizeField(sh)) + (LE16(|attrs|)
            + (sh.gap + AllAttrBytes(attrs, pool, sh.slack))))))
  {
    hide AttrStrings, AllAttrBytes, LE16, LE32s, InPool, IndexOf, Listed;
  }

  lemma OpenChunk(data: seq<Byte>, off: nat, tag: string, attrs: seq<Attr>, sh: Shape,
                  st: D.State, v: View, pool: seq<string>)
    requires SoundAttrs(attrs, pool)
    requires Encodable(Item.Node(Open(tag, attrs), sh), pool)
    requires Holds(data, off, ItemBytes(Item.Node(Open(tag, attrs), sh), pool))
    requires Shows(st, v, pool)
    ensures D.ChunkInside(data, off)
    ensures D.Chunk(data, off, st).Ok?
    ensures Shows(D.Chunk(data, off, st).value, Apply(v, Open(TagOf(tag), Visible(attrs))), pool)
  {
    hide Holds, ItemBytes, Extension, InPool, D.Chunk, D.ChunkInside, Shows, Apply, Visible, SoundAttrs, OpenHeld, Unambiguous, Listed;
    NodeFields(data, off, Open(tag, attrs), sh, pool);
    OpenFields(data, off, tag, attrs, sh, pool);
    OpenElement(data, off, tag, attrs, sh, st, v, pool);
  }

  lemma OpenElement(data: seq<Byte>, off: nat, tag: string, attrs: seq<Attr>, sh: Shape,
                    st: D.State, v: View, pool: seq<string>)
    requires SoundAttrs(attrs, pool) && |pool| <= 1_000_000 && D.ChunkInside(data, off)
    requires Listed(attrs, pool)
    requires U16At(data, off) == 0x0102 && U16At(data, off + 2) >= 0x10
    requires OpenHeld(data, off, tag, |attrs|, sh, AllAttrBytes(attrs, pool, sh.slack), pool) && Shows(st, v, pool)
    ensures D.Chunk(data, off, st).Ok?
    ensures Shows(D.Chunk(data, off, st).value, Apply(v, Open(TagOf(tag), Visible(attrs))), pool)
  {
    hide D.Attributes, D.Chunk, D.StartTag, D.Margin, AttrText, Indent, SameScope, Holds, U16At, U32At, I32At,
         AllAttrBytes, AttrStrings, Pairs, IndexOf, Visible, SoundAttrs, Listed, Apply, TagOf;
    AttributesShown(data, off + 30 + |sh.gap|, attrs, sh.slack, pool, st.ns, v.scope);
    StartElementRead(data, off, tag, Pairs(Visible(attrs), v.scope), 20 + |sh.slack|, st);
    StartTagShown(data, off, st, v, pool, TagOf(tag), Visible(attrs));
  }

  lemma StartElementRead(data: seq<Byte>, off: nat, tag: string, pairs: seq<D.Pair>, size: nat, st: D.State)
    requires D.ChunkInside(data, off) && off + 30 <= |data| && U16At(data, off + 2) >= 0x10
    requires tag == D.Str(st.strings, I32At(data, off + 20))
    requires size == if U16At(data, off + 26) == 0 then 20 else U16At(data, off + 26)
    requires D.Attributes(data, off + 16 + U16At(data, off + 24), size, U16At(data, off + 28), st.strings, st.ns) == pairs
    ensures D.StartElement(data, off, U16At(data, off + 2), st.strings, st.ns) == D.Ok(D.Start(TagOf(tag), pairs))
  {
    hide D.Attributes, D.Str, I32At, U16At, U32At;
  }

  lemma StartTagShown(data: seq<Byte>, off: nat, st: D.State, v: View, pool: seq<string>, tag: string, attrs: seq<Attr>)
    requires D.ChunkInside(data, off) && U16At(data, off) == 0x0102 && Shows(st, v, pool)
    requires D.StartElement(data, off, U16At(data, off + 2), st.strings, st.ns) == D.Ok(D.Start(tag, Pairs(attrs, v.scope)))
    ensures D.Chunk(data, off, st).Ok?
    ensures Shows(D.Chunk(data, off, st).value, Apply(v, Open(tag, attrs)), pool)
  {
    hide D.StartElement, D.StartTag, D.Margin, AttrText, Indent, SameScope, U16At, U32At, Pairs;
    StartTagText(tag, attrs, v.scope);
    MarginIsIndent(v.depth);
    assert Indent(v.depth) + ("<" + tag + AttrText(attrs, v.scope) + ">")
        == Indent(v.depth) + "<" + tag + AttrText(attrs, v.scope) + ">";
  }

  // A tag cut too short to be named.
  lemma ShortChunk(data: seq<Byte>, off: nat, item: Item, st: D.State, v: View, pool: seq<string>)
    requires item.Short? && Encodable(item, pool) && Holds(data, off, ItemBytes(item, pool)) && Shows(st, v, pool)
    ensures D.ChunkInside(data, off) && U32At(data, off + 4) == |ItemBytes(item, pool)|
    ensures D.Chunk(data, off, st).Ok? && Shows(D.Chunk(data, off, st).value, ApplyItem(v, item), pool)
  {
    hide U16At, U32At, Holds, Frame, D.Chunk, Shows, Apply;
    FrameFields(data, off, if item.opens then 0x0102 else 0x0103, item.headerSize, item.rest);
    if item.opens {
      StartTagShown(data, off, st, v, pool, "unknown", []);
    } else {
      EndTagShown(data, off, st, v, pool, "");
    }
  }

  // Names and values the decoder prints as they are.
  predicate Named(e: Event) {
    match e
    case Open(tag, attrs) => tag != "" && forall a :: a in attrs ==> a.name != "" && Sound(a.value)
    case Close(tag) => tag != ""
    case _ => true
  }

  ghost predicate NamedItem(item: Item) {
    EventOf(item).Some? ==> Named(EventOf(item).value)
  }

  function ApplyItem(v: View, item: Item): View {
    match EventOf(item)
    case Some(e) => Apply(v, e)
    case None => v
  }

  lemma {:induction false} VisibleKeeps(attrs: seq<Attr>, a: Attr)
    requires a in attrs && a.name != ""
    ensures a in Visible(attrs)
    decreases attrs
  {
    if a != attrs[0] {
      VisibleKeeps(attrs[1..], a);
    }
  }

  lemma NodeChunk(data: seq<Byte>, off: nat, e: Event, sh: Shape, st: D.State, v: View, pool: seq<string>)
    requires NamedItem(Item.Node(e, sh)) && Encodable(Item.Node(e, sh), pool)
    requires Holds(data, off, ItemBytes(Item.Node(e, sh), pool)) && Shows(st, v, pool)
    ensures D.ChunkInside(data, off)
    ensures D.Chunk(data, off, st).Ok? && Shows(D.Chunk(data, off, st).value, ApplyItem(v, Item.Node(e, sh)), pool)
  {
    hide D.Chunk, D.ChunkInside, Shows, Apply, ItemBytes, Holds, Extension, InPool, Visible, Unambiguous, Sound, TagOf;
    match e {
      case Open(tag, attrs) =>
        forall a | a in attrs && a.name != "" ensures Sound(a.value) {
          VisibleKeeps(attrs, a);
        }
        OpenChunk(data, off, tag, attrs, sh, st, v, pool);
      case Close(tag) => CloseChunk(data, off, tag, sh, st, v, pool);
      case _ => ScopeChunk(data, off, e, sh, st, v, pool);
    }
  }

  lemma NodeSize(data: seq<Byte>, off: nat, e: Event, sh: Shape, pool: seq<string>)
    requires Encodable(Item.Node(e, sh), pool) && Holds(data, off, ItemBytes(Item.Node(e, sh), pool))
    ensures off + 8 <= |data| && U32At(data, off + 4) == |ItemBytes(Item.Node(e, sh), pool)|
  {
    hide U16At, U32At, Holds, Extension, InPool, Unambiguous;
    FrameFields(data, off, KindOf(e), sh.headerSize, sh.lead + (Extension(e, pool, sh) + sh.extra));
  }

  lemma UnknownChunk(data: seq<Byte>, off: nat, item: Item, st: D.State, pool: seq<string>)
    requires item.Unknown? && Encodable(item, pool) && Holds(data, off, ItemBytes(item, pool))
    ensures D.ChunkInside(data, off) && U32At(data, off + 4) == |ItemBytes(item, pool)|
    ensures D.Chunk(data, off, st) == D.Ok(st)
  {
    hide U16At, U32At, Holds, Frame;
    FrameFields(data, off, item.kind, item.headerSize, item.rest);
  }

  lemma ItemChunk(data: seq<Byte>, off: nat, item: Item, st: D.State, v: View, pool: seq<string>)
    requires Encodable(item, pool) && NamedItem(item) && Holds(data, off, ItemBytes(item, pool))
    requires Shows(st, v, pool)
    ensures D.ChunkInside(data, off) && U32At(data, off + 4) == |ItemBytes(item, pool)|
    ensures D.Chunk(data, off, st).Ok? && Shows(D.Chunk(data, off, st).value, ApplyItem(v, item), pool)
  {
    hide D.Chunk, Shows, Apply, ItemBytes, U32At, Encodable, Holds, Named;
    match item {
      case Unknown(_, _, _) => UnknownChunk(data, off, item, st, pool);
      case Short(_, _, _) => ShortChunk(data, off, item, st, v, pool);
      case Node(e, sh) =>
        NodeSize(data, off, e, sh, pool);
        NodeChunk(data, off, e, sh, st, v, pool);
    }
  }

  /** Walking encoded items runs their events; chunks without an event change nothing, wherever they stand. */
  lemma {:induction false} WalkItems(data: seq<Byte>, fileSize: nat, off: nat, items: seq<Item>,
                                     st: D.State, v: View, pool: seq<string>)
    requires forall i :: i in items ==> Encodable(i, pool) && NamedItem(i)
    requires Holds(data, off, Body(items, pool)) && off + |Body(items, pool)| <= fileSize <= |data|
    requires !D.TakesChunk(data, fileSize, off + |Body(items, pool)|)
    requires Shows(st, v, pool)
    ensures var r := D.Walk(data, fileSize, off, st);
      r.Ok? && Shows(r.value, Run(v, Events(items)), pool)
    decreases items
  {
    hide Shows, D.Chunk, ItemBytes, Holds, NamedItem, Encodable, U32At;
    if items == [] {
    } else {
      var item, rest := items[0], items[1..];
      HoldsSplit(data, off, ItemBytes(item, pool), Body(rest, pool));
      ItemChunk(data, off, item, st, v, pool);
      var st' := D.Chunk(data, off, st).value;
      WalkItems(data, fileSize, off + |ItemBytes(item, pool)|, rest, st', ApplyItem(v, item), pool);
      var first := match EventOf(item) case Some(e) => [e] case None => [];
      RunConcat(v, first, Events(rest));
      assert Run(v, first) == ApplyItem(v, item);
      assert D.TakesChunk(data, fileSize, off);
      assert D.Walk(data, fileSize, off, st) == D.Walk(data, fileSize, off + |ItemBytes(item, pool)|, st');
    }
  }

  // ---- the file ----

  /** Unknown chunks are stepped over. */
  lemma {:induction false} WalkUnknown(data: seq<Byte>, fileSize: nat, off: nat, items: seq<Item>,
                                       st: D.State, pool: seq<string>)
    requires forall i :: i in items ==> i.Unknown? && Encodable(i, pool)
    requires Holds(data, off, Body(items, pool)) && off + |Body(items, pool)| <= fileSize <= |data|
    ensures D.Walk(data, fileSize, off, st) == D.Walk(data, fileSize, off + |Body(items, pool)|, st)
    decreases items
  {
    hide D.Chunk, ItemBytes, Holds, Encodable, U32At;
    if items != [] {
      HoldsSplit(data, off, ItemBytes(items[0], pool), Body(items[1..], pool));
      UnknownChunk(data, off, items[0], st, pool);
      WalkUnknown(data, fileSize, off + |ItemBytes(items[0], pool)|, items[1..], st, pool);
    }
  }

  lemma PoolChunk(data: seq<Byte>, fileSize: nat, off: nat, st: D.State, pool: seq<string>, sh: PoolShape)
    requires PoolFits(pool, sh) && Holds(data, off, PoolBytes(pool, sh))
    requires off + |PoolBytes(pool, sh)| <= fileSize <= |data|
    ensures D.Walk(data, fileSize, off, st)
         == D.Walk(data, fileSize, off + |PoolBytes(pool, sh)|, st.(strings := pool))
  {
    hide Holds, PoolBytes, PoolFits, U32At, U16At, D.Pool, D.Chunk;
    PoolSize(pool, sh);
    P.PoolRoundTrip(data, off, pool, sh);
    ReadPoolChunk(data, off, st, pool);
    D.WalkStep(data, fileSize, off, st);
    hide D.Walk;
  }

  lemma ReadPoolChunk(data: seq<Byte>, off: nat, st: D.State, pool: seq<string>)
    requires D.ChunkInside(data, off) && U16At(data, off) == 0x0001 && D.Pool(data, off) == D.Ok(pool)
    ensures D.Chunk(data, off, st) == D.Ok(st.(strings := pool))
  {
    hide U32At, U16At, D.Pool;
  }

  lemma PoolSize(pool: seq<string>, sh: PoolShape)
    requires PoolFits(pool, sh)
    ensures |PoolBytes(pool, sh)| >= 8
  {
    hide OffsetTable, StoredAt;
  }

  lemma {:induction false} ForestNamed(nodes: seq<Node>, scope: set<string>, e: Event)
    requires WellFormed(nodes, scope) && e in Flatten(nodes)
    ensures Named(e)
    decreases nodes
  {
    var rest := Flatten(nodes[1..]);
    match nodes[0] {
      case Element(tag, attrs, kids) =>
        if e in Flatten(kids) { ForestNamed(kids, scope, e); }
        else if e in rest { ForestNamed(nodes[1..], scope, e); }
      case Namespace(prefix, uri, body) =>
        if e in Flatten(body) { ForestNamed(body, scope + {uri}, e); }
        else if e in rest { ForestNamed(nodes[1..], scope, e); }
    }
  }

  lemma {:induction false} ItemEvents(items: seq<Item>, i: nat)
    requires i < |items| && EventOf(items[i]).Some?
    ensures EventOf(items[i]).value in Events(items)
    decreases items
  {
    if i > 0 {
      ItemEvents(items[1..], i - 1);
    }
  }

  lemma ItemsNamed(doc: seq<Node>, items: seq<Item>)
    requires WellFormed(doc, {}) && Events(items) == Flatten(doc)
    ensures forall i :: i in items ==> NamedItem(i)
  {
    forall k | 0 <= k < |items| && EventOf(items[k]).Some? ensures Named(EventOf(items[k]).value) {
      ItemEvents(items, k);
      ForestNamed(doc, {}, EventOf(items[k]).value);
    }
  }

  // The decoder's variables at the first chunk.
  const START: View := View([D.XML_HEADER], 0, map[])

  // The walk over an encoded file's chunks, from the first to the last.
  lemma WalkChunks(data: seq<Byte>, fileSize: nat, off: nat, l: Layout)
    requires Valid(l) && (forall i :: i in l.after ==> NamedItem(i)) && Holds(data, off, Chunks(l))
    requires off + |Chunks(l)| <= fileSize <= |data| && !D.TakesChunk(data, fileSize, off + |Chunks(l)|)
    ensures var r := D.Walk(data, fileSize, off, D.INITIAL);
      r.Ok? && r.value.parts == Run(START, Events(l.after)).lines
  {
    hide D.Walk, D.TakesChunk, Body, PoolBytes, PoolFits, Holds, Encodable, NamedItem, Run, EndsWalk;
    var a, b, c := Body(l.before, l.pool), PoolBytes(l.pool, l.poolShape), Body(l.after, l.pool);
    HoldsSplit(data, off, a, b + c);
    HoldsSplit(data, off + |a|, b, c);
    WalkUnknown(data, fileSize, off, l.before, D.INITIAL, l.pool);
    PoolChunk(data, fileSize, off + |a|, D.INITIAL, l.pool, l.poolShape);
    WalkEvents(data, fileSize, off + |a| + |b|, l);
  }

  lemma WalkEvents(data: seq<Byte>, fileSize: nat, off: nat, l: Layout)
    requires forall i :: i in l.after ==> Encodable(i, l.pool) && NamedItem(i)
    requires Holds(data, off, Body(l.after, l.pool)) && off + |Body(l.after, l.pool)| <= fileSize <= |data|
    requires !D.TakesChunk(data, fileSize, off + |Body(l.after, l.pool)|)
    ensures var r := D.Walk(data, fileSize, off, D.INITIAL.(strings := l.pool));
      r.Ok? && r.value.parts == Run(START, Events(l.after)).lines
  {
    hide D.Walk, D.TakesChunk, Body, Holds, Encodable, NamedItem, Run;
    WalkItems(data, fileSize, off, l.after, D.INITIAL.(strings := l.pool), START, l.pool);
  }

  lemma FileFields(l: Layout)
    requires Valid(l)
    ensures var data := File(l);
      && D.IsBinaryAxml(data) && U32At(data, 4) == l.size && 8 + |Chunks(l)| <= |data|
      && Holds(data, 8, Chunks(l)) && data[8 + |Chunks(l)|..] == l.trailer
  {
    hide Chunks, U32At, LE32, Encodable, PoolFits, EndsWalk;
    var data, chunks := File(l), Chunks(l);
    assert Holds(data, 0, data);
    HoldsSplit(data, 0, LE32(0x0008_0003), LE32(l.size) + (chunks + l.trailer));
    HoldsSplit(data, 4, LE32(l.size), chunks + l.trailer);
    HoldsSplit(data, 8, chunks, l.trailer);
    Read32(data, 0, 0x0008_0003);
    Read32(data, 4, l.size);
  }

  // The loop stops after the last chunk.
  lemma WalkEnds(data: seq<Byte>, end: nat, size: nat, trailer: seq<Byte>)
    requires end <= |data| && data[end..] == trailer && end <= size && (size == end || EndsWalk(trailer))
    ensures !D.TakesChunk(data, D.Min(size, |data|), end)
  {
    hide U32At;
    if |trailer| >= 8 {
      WordAt(data, end, 4);
    }
  }

  lemma WordAt(data: seq<Byte>, from: nat, off: nat)
    requires from <= |data| && off + 4 <= |data[from..]|
    ensures U32At(data[from..], off) == U32At(data, from + off)
  {
  }

  lemma FileEnds(l: Layout)
    requires Valid(l) && 8 + |Chunks(l)| <= |File(l)| && File(l)[8 + |Chunks(l)|..] == l.trailer
    ensures 8 + |Chunks(l)| <= l.size
    ensures !D.TakesChunk(File(l), D.Min(l.size, |File(l)|), 8 + |Chunks(l)|)
  {
    hide Chunks, EndsWalk, Encodable, PoolFits, D.TakesChunk, File;
    WalkEnds(File(l), 8 + |Chunks(l)|, l.size, l.trailer);
  }

  /** The decoder refines the event machine. For every list of events with non-empty names, balanced or not, with
      any redeclarations, and every layout of it, decoding the file gives what running the events prints. */
  lemma DecoderRunsEvents(l: Layout)
    requires Valid(l) && forall i :: i in l.after ==> NamedItem(i)
    ensures D.Decode(File(l)) == D.Ok(Join(Run(START, Events(l.after)).lines, "\n"))
  {
    hide D.Walk, D.TakesChunk, Valid, File, Chunks, Holds, NamedItem, Run, EndsWalk, Events;
    FileFields(l);
    FileEnds(l);
    WalkChunks(File(l), D.Min(l.size, |File(l)|), 8, l);
  }

  /** The decoder inverts the encoder. For every forest with non-empty names in which no namespace URI is declared
      again inside its own scope, and every layout of it, decoding the file gives exactly the printed forest. A layout
      has its strings in either encoding, in any order and with anything else between them; chunks and attribute
      records of any length beyond their fields; nameless attributes, and chunks without effect, anywhere; and any
      bytes at the end that cannot be a chunk. */
  lemma DecoderInvertsEncoder(doc: seq<Node>, l: Layout)
    requires WellFormed(doc, {}) && Valid(l) && Events(l.after) == Flatten(doc)
    ensures D.Decode(File(l)) == D.Ok(Printed(doc))
  {
    hide Valid, File, Lines, WellFormed, Flatten, Run, NamedItem, D.Decode;
    ItemsNamed(doc, l.after);
    DecoderRunsEvents(l);
    assert START.scope.Keys == {};
    RunForest(START, doc);
  }

  // ---- a URI declared again inside its own scope ----

  // An element with one attribute of a namespace, after an inner declaration of that namespace has ended.
  function Redeclared(uri: string, outer: string, inner: string, e: Node): seq<Node> {
    [Namespace(outer, uri, [Namespace(inner, uri, []), e])]
  }

  function WithAttribute(uri: string, tag: string, name: string): Node {
    Element(tag, [Attr(Some(uri), name, Null(0))], [])
  }

  lemma RunStep(v: View, e: Event, rest: seq<Event>)
    ensures Run(v, [e] + rest) == Run(Apply(v, e), rest)
  {
    assert ([e] + rest)[1..] == rest;
  }

  lemma RedeclaredEvents(uri: string, outer: string, inner: string, tag: string, attrs: seq<Attr>)
    ensures Flatten(Redeclared(uri, outer, inner, Element(tag, attrs, [])))
         == [OpenScope(outer, uri)] + ([OpenScope(inner, uri)] + ([CloseScope(inner, uri)]
            + ([Open(tag, attrs)] + ([Close(tag)] + ([CloseScope(outer, uri)] + [])))))
  {
    var e := Element(tag, attrs, []);
    assert Flatten([]) == [];
    assert [e][1..] == [] && Flatten([e]) == [Open(tag, attrs), Close(tag)];
    var body := [Namespace(inner, uri, []), e];
    assert body[1..] == [e];
    assert Flatten(body) == [OpenScope(inner, uri), CloseScope(inner, uri), Open(tag, attrs), Close(tag)];
    hide Flatten;
    WrappedEvents(outer, uri, body);
  }

  lemma WrappedEvents(prefix: string, uri: string, body: seq<Node>)
    ensures Flatten([Namespace(prefix, uri, body)]) == [OpenScope(prefix, uri)] + Flatten(body) + [CloseScope(prefix, uri)]
  {
    assert [Namespace(prefix, uri, body)][1..] == [];
  }

  lemma RunRedeclared(uri: string, outer: string, inner: string, tag: string, attrs: seq<Attr>)
    ensures Run(START, Flatten(Redeclared(uri, outer, inner, Element(tag, attrs, [])))).lines
         == [D.XML_HEADER, Indent(0) + "<" + tag + AttrText(attrs, map[]) + ">", Indent(0) + "</" + tag + ">"]
  {
    RedeclaredEvents(uri, outer, inner, tag, attrs);
    hide Flatten, AttrText, Indent;
    var v1 := Apply(START, OpenScope(outer, uri));
    var v3 := Apply(Apply(v1, OpenScope(inner, uri)), CloseScope(inner, uri));
    assert v3 == START;
    var v4 := Apply(START, Open(tag, attrs));
    var v5 := Apply(v4, Close(tag));
    var v6 := Apply(v5, CloseScope(outer, uri));
    assert v6.lines == v5.lines == [D.XML_HEADER, Indent(0) + "<" + tag + AttrText(attrs, map[]) + ">", Indent(0) + "</" + tag + ">"];
    assert Run(v6, []) == v6;
    hide Run, Apply;
    RunStep(v5, CloseScope(outer, uri), []);
    RunStep(v4, Close(tag), [CloseScope(outer, uri)] + []);
    RunStep(v3, Open(tag, attrs), [Close(tag)] + ([CloseScope(outer, uri)] + []));
    RunStep(Apply(v1, OpenScope(inner, uri)), CloseScope(inner, uri), [Open(tag, attrs)] + ([Close(tag)] + ([CloseScope(outer, uri)] + [])));
    RunStep(v1, OpenScope(inner, uri), [CloseScope(inner, uri)] + ([Open(tag, attrs)] + ([Close(tag)] + ([CloseScope(outer, uri)] + []))));
    RunStep(START, OpenScope(outer, uri),
            [OpenScope(inner, uri)] + ([CloseScope(inner, uri)] + ([Open(tag, attrs)] + ([Close(tag)] + ([CloseScope(outer, uri)] + [])))));
  }

  lemma PrintedElement(tag: string, attrs: seq<Attr>, scope: map<string, string>)
    ensures Lines([Element(tag, attrs, [])], 0, scope)
         == [Indent(0) + "<" + tag + AttrText(attrs, scope) + ">", Indent(0) + "</" + tag + ">"]
  {
    hide AttrText, Indent;
    assert [Element(tag, attrs, [])][1..] == [];
    assert Lines([], 0, scope) == [] && Lines([], 1, scope) == [];
  }

  lemma PrintedScope(prefix: string, uri: string, body: seq<Node>, scope: map<string, string>)
    ensures Lines([Namespace(prefix, uri, body)], 0, scope) == Lines(body, 0, scope[uri := prefix])
  {
    assert [Namespace(prefix, uri, body)][1..] == [];
    assert Lines([], 0, scope) == [];
  }

  lemma PrintedRedeclared(uri: string, outer: string, inner: string, tag: string, attrs: seq<Attr>)
    ensures Lines(Redeclared(uri, outer, inner, Element(tag, attrs, [])), 0, map[])
         == [Indent(0) + "<" + tag + AttrText(attrs, map[uri := outer]) + ">", Indent(0) + "</" + tag + ">"]
  {
    var e, scope: map<string, string> := Element(tag, attrs, []), map[uri := outer];
    var body := [Namespace(inner, uri, []), e];
    PrintedElement(tag, attrs, scope);
    assert body[1..] == [e];
    assert Lines([], 0, scope[uri := inner]) == [];
    assert Lines(body, 0, scope) == Lines([e], 0, scope);
    hide Lines;
    PrintedScope(outer, uri, body, map[]);
  }

  lemma OneAttribute(a: Attr, scope: map<string, string>)
    ensures AttrText([a], scope) == " " + AttrSource(a, scope)
  {
    hide AttrSource;
    assert [a][1..] == [];
    assert AttrText([], scope) == "";
  }

  lemma LongerPrefix(uri: string, outer: string, name: string)
    requires outer != "" && !IsAndroid(uri)
    ensures var attrs := [Attr(Some(uri), name, Null(0))];
      |AttrText(attrs, map[uri := outer])| == |AttrText(attrs, map[])| + |outer| + 1
  {
    OneAttribute(Attr(Some(uri), name, Null(0)), map[uri := outer]);
    OneAttribute(Attr(Some(uri), name, Null(0)), map[]);
    hide AttrText, Escape, IsAndroid;
  }

  lemma JoinThree(a: string, b: string, c: string)
    ensures Join([a, b, c], "\n") == a + "\n" + (b + "\n" + c)
  {
    assert [a, b, c][1..] == [b, c] && [b, c][1..] == [c];
    assert Join([b, c], "\n") == b + "\n" + c;
  }

  /** The condition on redeclaration is needed: the decoder's table is no stack, so the end of an inner scope
      ends the outer one too. Decoding then gives the element as if its namespace had never been declared, one
      prefix short of what the tree prints. */
  lemma RedeclarationLosesPrefix(uri: string, outer: string, inner: string, tag: string, name: string, l: Layout)
    requires var doc := Redeclared(uri, outer, inner, WithAttribute(uri, tag, name));
      Valid(l) && Events(l.after) == Flatten(doc)
    requires tag != "" && name != "" && outer != "" && !IsAndroid(uri)
    ensures var e := WithAttribute(uri, tag, name);
      && D.Decode(File(l)) == D.Ok(Printed([e]))
      && |Printed(Redeclared(uri, outer, inner, e))| == |Printed([e])| + |outer| + 1
  {
    var attrs := WithAttribute(uri, tag, name).attrs;
    RedeclaredNamed(uri, outer, inner, tag, name, l);
    hide Valid, File, Lines, Flatten, Run, NamedItem, D.Decode, AttrText, Join, Indent, Redeclared, IsAndroid, Events;
    DecoderRunsEvents(l);
    RunRedeclared(uri, outer, inner, tag, attrs);
    PrintedElement(tag, attrs, map[]);
    PrintedRedeclared(uri, outer, inner, tag, attrs);
    LongerPrefix(uri, outer, name);
    Lengths(Indent(0) + "<" + tag, AttrText(attrs, map[]), AttrText(attrs, map[uri := outer]), Indent(0) + "</" + tag + ">");
  }

  lemma Lengths(start: string, short: string, long: string, end: string)
    ensures [D.XML_HEADER] + [start + short + ">", end] == [D.XML_HEADER, start + short + ">", end]
    ensures [D.XML_HEADER] + [start + long + ">", end] == [D.XML_HEADER, start + long + ">", end]
    ensures |Join([D.XML_HEADER, start + long + ">", end], "\n")| - |Join([D.XML_HEADER, start + short + ">", end], "\n")|
         == |long| - |short|
  {
    hide Join;
    JoinThree(D.XML_HEADER, start + long + ">", end);
    JoinThree(D.XML_HEADER, start + short + ">", end);
  }

  lemma RedeclaredNamed(uri: string, outer: string, inner: string, tag: string, name: string, l: Layout)
    requires tag != "" && name != ""
    requires Events(l.after) == Flatten(Redeclared(uri, outer, inner, WithAttribute(uri, tag, name)))
    ensures forall i :: i in l.after ==> NamedItem(i)
  {
    var attrs := [Attr(Some(uri), name, Null(0))];
    RedeclaredEvents(uri, outer, inner, tag, attrs);
    hide Flatten;
    forall k | 0 <= k < |l.after| && EventOf(l.after[k]).Some? ensures Named(EventOf(l.after[k]).value) {
      ItemEvents(l.after, k);
    }
    hide Events;
  }
}
