/** Reading the decoder's text back: a reader for the part of XML 1.0 the decoder writes, and the proof that it
    gives the document's elements.

    The reader knows start tags, end tags, double-quoted attribute values with the predefined entities, and
    white space between tags (sections 2.3, 3.1 and 4.6 of XML 1.0), and refuses everything else. What it does to
    white space in values is a parameter; `XmlConforming` has the reader that conforms. */
module XmlReader {
  import opened Common
  import opened Text
  import opened AxmlDocument
  import D = AxmlDecoder
  import R = AxmlRoundTrip
  import S = AxmlScopes

  datatype Attribute = Attribute(name: string, value: string)

  datatype Tree = Tree(name: string, attrs: seq<Attribute>, kids: seq<Tree>)

  // ---- the reader ----

  // What the reader does to an attribute value's characters before it resolves references: nothing, put a space for
  // each white space character (section 3.3.3 of XML 1.0), or also end lines with line feeds first (section 2.11).
  datatype Mode = Literal | Spaced | Normal

  function Prepared(m: Mode, s: string): string {
    match m
    case Literal => s
    case Spaced => Spaces(s)
    case Normal => Spaces(LineEnds(s))
  }

  function Spaces(s: string): (r: string)
    ensures |r| == |s| && forall i :: 0 <= i < |s| ==> r[i] == if Space(s[i]) then ' ' else s[i]
  {
    seq(|s|, i requires 0 <= i < |s| => if Space(s[i]) then ' ' else s[i])
  }

  // A carriage return, with the line feed after it if there is one, becomes a line feed.
  function LineEnds(s: string): (r: string)
    ensures |r| <= |s|
  {
    if s == "" then ""
    else if s[0] == '\r' then "\n" + LineEnds(AfterReturn(s[1..]))
    else [s[0]] + LineEnds(s[1..])
  }

  function AfterReturn(s: string): (r: string)
    ensures |r| <= |s|
  {
    if s != "" && s[0] == '\n' then s[1..] else s
  }

  predicate Space(c: char) {
    c == ' ' || c == '\t' || c == '\r' || c == '\n'
  }

  // Productions 4 and 4a of section 2.3.
  predicate NameStart(c: char) {
    || c == ':' || c == '_' || 'A' <= c <= 'Z' || 'a' <= c <= 'z'
    || 0xC0 <= c as int <= 0xD6 || 0xD8 <= c as int <= 0xF6 || 0xF8 <= c as int <= 0x2FF
    || 0x370 <= c as int <= 0x37D || 0x37F <= c as int <= 0x1FFF || 0x200C <= c as int <= 0x200D
    || 0x2070 <= c as int <= 0x218F || 0x2C00 <= c as int <= 0x2FEF || 0x3001 <= c as int <= 0xD7FF
    || 0xF900 <= c as int <= 0xFDCF || 0xFDF0 <= c as int <= 0xFFFD || 0x1_0000 <= c as int <= 0xE_FFFF
  }

  predicate NameChar(c: char) {
    || NameStart(c) || c == '-' || c == '.' || '0' <= c <= '9'
    || c as int == 0xB7 || 0x300 <= c as int <= 0x36F || 0x203F <= c as int <= 0x2040
  }

  predicate IsName(s: string) {
    s != "" && NameStart(s[0]) && forall i :: 0 <= i < |s| ==> NameChar(s[i])
  }

  function SkipSpace(s: string): (r: string)
    ensures |r| <= |s|
  {
    if s != "" && Space(s[0]) then SkipSpace(s[1..]) else s
  }

  function NameLength(s: string): (n: nat)
    ensures n <= |s|
  {
    if s != "" && NameChar(s[0]) then 1 + NameLength(s[1..]) else 0
  }

  // The place of the first `c`, or the length.
  function UpTo(s: string, c: char): (n: nat)
    ensures n <= |s|
  {
    if s == "" || s[0] == c then 0 else 1 + UpTo(s[1..], c)
  }

  // One attribute, and what follows it: `Name="value"`.
  function ReadAttribute(m: Mode, s: string): (r: Option<(Attribute, string)>)
    ensures r.Some? ==> |r.value.1| < |s|
  {
    var n := NameLength(s);
    if !IsName(s[..n]) || !("=\"" <= s[n..]) then None
    else
      var t := s[n + 2..];
      var q := UpTo(t, '"');
      if q == |t| then None
      else match ReadAttValue(Prepared(m, t[..q]))
        case None => None
        case Some(value) => Some((Attribute(s[..n], value), t[q + 1..]))
  }

  // The attributes of a start tag up to its end, and what follows it.
  function ReadAttributes(m: Mode, s: string): (r: Option<(seq<Attribute>, string)>)
    ensures r.Some? ==> |r.value.1| < |s|
    decreases |s|
  {
    var t := SkipSpace(s);
    if t != "" && t[0] == '>' then Some(([], t[1..]))
    else if |t| == |s| then None
    else match ReadAttribute(m, t)
      case None => None
      case Some((a, u)) =>
        match ReadAttributes(m, u)
        case None => None
        case Some((rest, v)) => Some(([a] + rest, v))
  }

  predicate UniqueNames(attrs: seq<Attribute>) {
    forall i, j :: 0 <= i < j < |attrs| ==> attrs[i].name != attrs[j].name
  }

  // What follows `</name>`.
  function ReadEnd(s: string, name: string): (r: Option<string>)
    ensures r.Some? ==> |r.value| < |s|
  {
    if !("</" + name <= s) then None
    else
      var t := SkipSpace(s[2 + |name|..]);
      if t == "" || t[0] != '>' then None else Some(t[1..])
  }

  // The start tag after its `<`: name, attributes, and what follows.
  function ReadStart(m: Mode, s: string): (r: Option<(string, seq<Attribute>, string)>)
    ensures r.Some? ==> |r.value.2| < |s|
  {
    var n := NameLength(s);
    if !IsName(s[..n]) then None
    else match ReadAttributes(m, s[n..])
      case None => None
      case Some((attrs, t)) => if UniqueNames(attrs) then Some((s[..n], attrs, t)) else None
  }

  // Elements, up to an end tag or the end of the text, and what is left.
  function ReadForest(m: Mode, s: string): (r: Option<(seq<Tree>, string)>)
    ensures r.Some? ==> |r.value.1| <= |s|
    decreases |s|
  {
    var t := SkipSpace(s);
    if t == "" || "</" <= t then Some(([], t))
    else if t[0] != '<' then None
    else match ReadStart(m, t[1..])
      case None => None
      case Some((name, attrs, u)) =>
        match ReadForest(m, u)
        case None => None
        case Some((kids, v)) =>
          match ReadEnd(v, name)
          case None => None
          case Some(w) =>
            match ReadForest(m, w)
            case None => None
            case Some((rest, x)) => Some(([Tree(name, attrs, kids)] + rest, x))
  }

  function ReadDocument(m: Mode, s: string): Option<seq<Tree>> {
    if !(D.XML_HEADER <= s) then None
    else match ReadForest(m, s[|D.XML_HEADER|..])
      case None => None
      case Some((trees, rest)) => if rest == "" then Some(trees) else None
  }

  // ---- the elements of a document ----

  function Attributes(m: Mode, attrs: seq<Attr>, scope: map<string, string>): (r: seq<Attribute>)
    ensures |r| == |attrs|
  {
    seq(|attrs|, k requires 0 <= k < |attrs| => Attribute(QualifiedName(attrs[k], scope), Prepared(m, Shown(attrs[k].value))))
  }

  function Trees(m: Mode, nodes: seq<Node>, scope: map<string, string>): seq<Tree>
    decreases nodes
  {
    if nodes == [] then []
    else
      (match nodes[0]
       case Element(tag, attrs, kids) => [Tree(tag, Attributes(m, attrs, scope), Trees(m, kids, scope))]
       case Namespace(prefix, uri, body) => Trees(m, body, scope[uri := prefix]))
      + Trees(m, nodes[1..], scope)
  }

  predicate NamesUnique(attrs: seq<Attr>, scope: map<string, string>) {
    forall i, j :: 0 <= i < j < |attrs| ==> QualifiedName(attrs[i], scope) != QualifiedName(attrs[j], scope)
  }

  // Tags and attribute names are XML names, and no element has an attribute twice.
  predicate Readable(nodes: seq<Node>, scope: map<string, string>)
    decreases nodes
  {
    nodes != [] ==>
      && (match nodes[0]
          case Element(tag, attrs, kids) =>
            && IsName(tag) && NamesReadable(attrs, scope) && NamesUnique(attrs, scope)
            && Readable(kids, scope)
          case Namespace(prefix, uri, body) => Readable(body, scope[uri := prefix]))
      && Readable(nodes[1..], scope)
  }

  predicate NamesReadable(attrs: seq<Attr>, scope: map<string, string>) {
    forall k :: 0 <= k < |attrs| ==> IsName(QualifiedName(attrs[k], scope))
  }

  // ---- names and values ----

  lemma {:induction false} NameStops(name: string, rest: string)
    requires (forall i :: 0 <= i < |name| ==> NameChar(name[i])) && rest != "" && !NameChar(rest[0])
    ensures NameLength(name + rest) == |name|
  {
    hide NameChar;
    if name == "" {
      assert name + rest == rest;
    } else {
      assert (name + rest)[1..] == name[1..] + rest;
      NameStops(name[1..], rest);
    }
  }

  lemma {:induction false} QuoteStops(v: string, rest: string)
    requires '"' !in v && rest != "" && rest[0] == '"'
    ensures UpTo(v + rest, '"') == |v|
  {
    if v == "" {
      assert v + rest == rest;
    } else {
      assert (v + rest)[1..] == v[1..] + rest;
      QuoteStops(v[1..], rest);
    }
  }

  lemma {:induction false} NoQuote(v: string)
    ensures '"' !in Escape(v)
  {
    if v != "" {
      EscapeStep(v);
      NoQuote(v[1..]);
      hide Escape;
      assert '"' !in Entity(v[0]);
    } else {
      assert Escape("") == "";
    }
  }

  lemma LineEndsChar(c: char, s: string)
    requires c != '\r'
    ensures LineEnds([c] + s) == [c] + LineEnds(s)
  {
    assert ([c] + s)[1..] == s;
  }

  // Text without carriage returns at the front stays.
  lemma {:induction false} LineEndsFront(a: string, s: string)
    requires '\r' !in a
    ensures LineEnds(a + s) == a + LineEnds(s)
  {
    hide *;
    if a == "" {
      assert a + s == s && a + LineEnds(s) == LineEnds(s);
    } else {
      var c, rest := a[0], a[1..];
      assert a == [c] + rest;
      LineEndsFront(rest, s);
      LineEndsChar(c, rest + s);
      Assoc([c], rest, s);
      Assoc([c], rest, LineEnds(s));
    }
  }

  lemma EntityIsPlain(c: char)
    ensures '\r' !in Entity(c) || c == '\r'
    ensures Spaces(Entity(c)) == Entity(if Space(c) then ' ' else c)
    ensures Space(c) ==> Entity(c) == [c]
    ensures Entity(c) != "" && (Entity(c)[0] == '\n' <==> c == '\n')
  {
  }

  lemma EscapeEmpty()
    ensures Escape("") == ""
  {
  }

  lemma EscapeCons(c: char, v: string)
    ensures Escape([c] + v) == Entity(c) + Escape(v)
  {
    EscapeStep([c] + v);
    assert ([c] + v)[1..] == v;
  }

  lemma LineEndsReturn(s: string)
    ensures LineEnds("\r" + s) == "\n" + LineEnds(AfterReturn(s))
  {
    assert ("\r" + s)[1..] == s;
  }

  lemma AfterReturnEscape(v: string)
    ensures AfterReturn(Escape(v)) == Escape(AfterReturn(v))
  {
    if v == "" {
      EscapeEmpty();
    } else {
      EscapeStep(v);
      EntityIsPlain(v[0]);
      hide Escape;
      assert v[0] == '\n' ==> Escape(v)[1..] == Escape(v[1..]);
    }
  }

  // Ending lines before or after escaping is the same.
  lemma {:induction false} LineEndsEscape(v: string)
    ensures LineEnds(Escape(v)) == Escape(LineEnds(v))
    decreases |v|
  {
    if v == "" {
      EscapeEmpty();
    } else {
      EscapeStep(v);
      EntityIsPlain(v[0]);
      hide Escape, Entity;
      if v[0] == '\r' {
        LineEndsReturn(Escape(v[1..]));
        AfterReturnEscape(v[1..]);
        LineEndsEscape(AfterReturn(v[1..]));
        EscapeCons('\n', LineEnds(AfterReturn(v[1..])));
        EntityIsPlain('\n');
      } else {
        LineEndsEscape(v[1..]);
        LineEndsFront(Entity(v[0]), Escape(v[1..]));
        EscapeCons(v[0], LineEnds(v[1..]));
      }
    }
  }

  lemma SpacesConcat(a: string, b: string)
    ensures Spaces(a + b) == Spaces(a) + Spaces(b)
  {
    hide Space;
  }

  lemma SpacesCons(c: char, v: string)
    ensures Spaces([c] + v) == [if Space(c) then ' ' else c] + Spaces(v)
  {
    hide Space;
    SpacesConcat([c], v);
    assert Spaces([c]) == [if Space(c) then ' ' else c];
  }

  lemma {:induction false} SpacesEscape(v: string)
    ensures Spaces(Escape(v)) == Escape(Spaces(v))
  {
    hide *;
    if v == "" {
      EscapeEmpty();
    } else {
      var c, rest := v[0], v[1..];
      SpacesEscape(rest);
      EscapeStep(v);
      EntityIsPlain(c);
      SpacesConcat(Entity(c), Escape(rest));
      assert v == [c] + rest;
      SpacesCons(c, rest);
      EscapeCons(if Space(c) then ' ' else c, Spaces(rest));
    }
  }

  // What the reader does to a value it does to the escaped text.
  lemma PreparedEscape(m: Mode, v: string)
    ensures Prepared(m, Escape(v)) == Escape(Prepared(m, v))
  {
    hide Escape, Spaces, LineEnds;
    LineEndsEscape(v);
    SpacesEscape(v);
    SpacesEscape(LineEnds(v));
  }

  lemma Delimiters()
    ensures !NameChar('=') && !NameChar(' ') && !NameChar('>')
    ensures !Space('<') && !Space('>') && Space(' ') && Space('\n')
  {
  }

  lemma NameIsNoSpace(s: string)
    requires IsName(s)
    ensures !Space(s[0]) && s[0] != '>' && s != "" && s[0] != '/'
  {
  }

  lemma AttributeReads(m: Mode, a: Attr, scope: map<string, string>, rest: string)
    requires IsName(QualifiedName(a, scope))
    ensures ReadAttribute(m, AttrSource(a, scope) + rest)
         == Some((Attribute(QualifiedName(a, scope), Prepared(m, Shown(a.value))), rest))
  {
    var name, value := QualifiedName(a, scope), Shown(a.value);
    hide QualifiedName, Shown, Escape, ReadAttValue, Prepared;
    PreparedEscape(m, value);
    EscapeRoundTrip(Prepared(m, value));
    NoQuote(value);
    Delimiters();
    AttributeText(m, name, Escape(value), Prepared(m, value), rest);
    assert AttrSource(a, scope) + rest == name + "=\"" + Escape(value) + "\"" + rest;
  }

  lemma AttributeText(m: Mode, name: string, escaped: string, value: string, rest: string)
    requires IsName(name) && '"' !in escaped && ReadAttValue(Prepared(m, escaped)) == Some(value) && !NameChar('=')
    ensures ReadAttribute(m, name + "=\"" + escaped + "\"" + rest) == Some((Attribute(name, value), rest))
  {
    hide ReadAttValue, NameChar, NameStart, Prepared;
    var s := name + "=\"" + escaped + "\"" + rest;
    var tail := "=\"" + escaped + "\"" + rest;
    assert s == name + tail && tail[0] == '=' && tail[1] == '"';
    NameStops(name, tail);
    assert s[..|name|] == name && "=\"" <= s[|name|..];
    var t := s[|name| + 2..];
    assert t == escaped + ("\"" + rest);
    QuoteStops(escaped, "\"" + rest);
    assert t[..|escaped|] == escaped && t[|escaped| + 1..] == rest;
    hide NameLength, UpTo, IsName;
  }

  lemma {:induction false} AttributesRead(m: Mode, attrs: seq<Attr>, scope: map<string, string>, rest: string)
    requires NamesReadable(attrs, scope)
    ensures ReadAttributes(m, AttrText(attrs, scope) + ">" + rest) == Some((Attributes(m, attrs, scope), rest))
    decreases attrs
  {
    if attrs == [] {
      NoAttributes(m, scope, rest);
    } else {
      var a, more := attrs[0], attrs[1..];
      var after, name := AttrText(more, scope) + ">" + rest, QualifiedName(a, scope);
      FirstName(m, attrs, scope);
      AttributesText(attrs, scope, rest);
      hide *;
      FirstAttribute(a, scope, after);
      AttributeReads(m, a, scope, after);
      AttributesRead(m, more, scope, rest);
      OneMore(m, AttrText(attrs, scope) + ">" + rest, AttrSource(a, scope) + after, Attribute(name, Prepared(m, Shown(a.value))), after,
              Attributes(m, more, scope), rest);
    }
  }

  lemma NoAttributes(m: Mode, scope: map<string, string>, rest: string)
    ensures ReadAttributes(m, AttrText([], scope) + ">" + rest) == Some((Attributes(m, [], scope), rest))
  {
    var text := AttrText([], scope) + ">" + rest;
    assert text == ">" + rest && text[0] == '>' && text[1..] == rest;
    assert SkipSpace(text) == text;
  }

  lemma FirstName(m: Mode, attrs: seq<Attr>, scope: map<string, string>)
    requires NamesReadable(attrs, scope) && attrs != []
    ensures IsName(QualifiedName(attrs[0], scope)) && NamesReadable(attrs[1..], scope)
    ensures Attributes(m, attrs, scope)
         == [Attribute(QualifiedName(attrs[0], scope), Prepared(m, Shown(attrs[0].value)))] + Attributes(m, attrs[1..], scope)
  {
    hide IsName, QualifiedName, Shown, Prepared;
  }

  lemma AttributesText(attrs: seq<Attr>, scope: map<string, string>, rest: string)
    requires attrs != []
    ensures AttrText(attrs, scope) + ">" + rest
         == " " + (AttrSource(attrs[0], scope) + (AttrText(attrs[1..], scope) + ">" + rest))
  {
    hide AttrSource;
  }

  // One turn of `ReadAttributes`.
  lemma OneMore(m: Mode, text: string, t: string, a: Attribute, after: string, others: seq<Attribute>, rest: string)
    requires SkipSpace(text) == t && t != "" && t[0] != '>' && |t| < |text|
    requires ReadAttribute(m, t) == Some((a, after)) && ReadAttributes(m, after) == Some((others, rest))
    ensures ReadAttributes(m, text) == Some(([a] + others, rest))
  {
    hide SkipSpace, ReadAttribute;
  }

  // The space before an attribute is skipped, and the attribute starts with a name.
  lemma FirstAttribute(a: Attr, scope: map<string, string>, after: string)
    requires IsName(QualifiedName(a, scope))
    ensures var t := AttrSource(a, scope) + after;
      t != "" && SkipSpace(" " + t) == t && t[0] != '>' && |" " + t| == |t| + 1
  {
    hide QualifiedName, Escape, Shown;
    var t := AttrSource(a, scope) + after;
    NameIsNoSpace(QualifiedName(a, scope));
    assert t[0] == QualifiedName(a, scope)[0];
    Delimiters();
    assert (" " + t)[1..] == t;
    hide Space, AttrSource, IsName;
  }

  // ---- tags ----

  lemma {:induction false} SkipSpaces(depth: nat, s: string)
    requires s != "" && !Space(s[0])
    ensures SkipSpace("\n" + Indent(depth) + s) == s
  {
    Delimiters();
    SkipIndent(2 * depth, s);
    var t := "\n" + Indent(depth) + s;
    assert t[1..] == Indent(depth) + s;
  }

  lemma {:induction false} SkipIndent(n: nat, s: string)
    requires s != "" && !Space(s[0])
    ensures SkipSpace(seq(n, _ => ' ') + s) == s
  {
    var t := seq(n, _ => ' ') + s;
    if n == 0 {
      assert t == s;
    } else {
      assert t[1..] == seq(n - 1, _ => ' ') + s;
      SkipIndent(n - 1, s);
    }
  }

  lemma StartReads(m: Mode, tag: string, attrs: seq<Attr>, scope: map<string, string>, rest: string)
    requires IsName(tag) && NamesReadable(attrs, scope) && NamesUnique(attrs, scope)
    ensures ReadStart(m, tag + AttrText(attrs, scope) + ">" + rest) == Some((tag, Attributes(m, attrs, scope), rest))
  {
    hide *;
    var tail := AttrText(attrs, scope) + ">" + rest;
    AttributesRead(m, attrs, scope, rest);
    TagEnds(attrs, scope, rest);
    NamesAgree(m, attrs, scope);
    OneStart(m, tag, tail, Attributes(m, attrs, scope), rest);
    assert tag + AttrText(attrs, scope) + ">" + rest == tag + tail;
  }

  lemma NamesAgree(m: Mode, attrs: seq<Attr>, scope: map<string, string>)
    ensures UniqueNames(Attributes(m, attrs, scope)) <==> NamesUnique(attrs, scope)
    ensures NamesKnown(Attributes(m, attrs, scope)) <==> NamesReadable(attrs, scope)
  {
    hide QualifiedName, Prepared, Shown, IsName;
    var r := Attributes(m, attrs, scope);
    assert forall k :: 0 <= k < |attrs| ==> r[k].name == QualifiedName(attrs[k], scope);
  }

  // One step of `ReadStart`.
  lemma OneStart(m: Mode, name: string, tail: string, attrs: seq<Attribute>, rest: string)
    requires IsName(name) && tail != "" && !NameChar(tail[0])
    requires ReadAttributes(m, tail) == Some((attrs, rest)) && UniqueNames(attrs)
    ensures ReadStart(m, name + tail) == Some((name, attrs, rest))
  {
    hide ReadAttributes, UniqueNames, NameChar, NameStart;
    NameStops(name, tail);
    assert (name + tail)[..|name|] == name && (name + tail)[|name|..] == tail;
    hide NameLength, IsName;
  }

  lemma TagEnds(attrs: seq<Attr>, scope: map<string, string>, rest: string)
    ensures var tail := AttrText(attrs, scope) + ">" + rest; tail != "" && !NameChar(tail[0])
  {
    Delimiters();
    hide AttrSource, NameChar;
  }

  lemma EndReads(m: Mode, tag: string, depth: nat, rest: string)
    ensures var end := "\n" + Indent(depth) + "</" + tag + ">" + rest;
      ReadForest(m, end) == Some(([], "</" + tag + ">" + rest)) && ReadEnd("</" + tag + ">" + rest, tag) == Some(rest)
  {
    var s := "</" + tag + ">" + rest;
    var end := "\n" + Indent(depth) + "</" + tag + ">" + rest;
    assert end == "\n" + Indent(depth) + s;
    Delimiters();
    SkipSpaces(depth, s);
    assert "</" <= s && "</" + tag <= s;
    var t := s[2 + |tag|..];
    assert t == ">" + rest && t[1..] == rest && t[0] == '>';
    assert SkipSpace(t) == t;
    hide SkipSpace, Indent;
  }

  // ---- a forest ----

  // Every line after a line feed.
  function Tail(lines: seq<string>): string {
    if lines == [] then "" else "\n" + lines[0] + Tail(lines[1..])
  }

  lemma {:induction false} TailConcat(a: seq<string>, b: seq<string>)
    ensures Tail(a + b) == Tail(a) + Tail(b)
  {
    if a == [] {
      assert a + b == b;
    } else {
      assert (a + b)[1..] == a[1..] + b;
      TailConcat(a[1..], b);
      Assoc("\n" + a[0], Tail(a[1..]), Tail(b));
    }
  }

  lemma TailOne(line: string)
    ensures Tail([line]) == "\n" + line
  {
    assert [line][1..] == [];
  }

  lemma {:induction false} JoinTail(first: string, lines: seq<string>)
    ensures Join([first] + lines, "\n") == first + Tail(lines)
    decreases |lines|
  {
    var all := [first] + lines;
    if lines == [] {
      assert all == [first];
    } else {
      JoinTail(lines[0], lines[1..]);
      assert all[1..] == lines && [lines[0]] + lines[1..] == lines;
      Assoc(first, "\n", lines[0] + Tail(lines[1..]));
      Assoc("\n", lines[0], Tail(lines[1..]));
    }
  }

  function Prepend(trees: seq<Tree>, r: Option<(seq<Tree>, string)>): Option<(seq<Tree>, string)> {
    match r
    case None => None
    case Some((more, rest)) => Some((trees + more, rest))
  }

  // An element's text: its start, the text of its children, its end.
  lemma ElementReads(m: Mode, tag: string, attrs: seq<Attr>, scope: map<string, string>, depth: nat, kidsText: string,
                     kids: seq<Tree>, rest: string)
    requires IsName(tag) && NamesReadable(attrs, scope) && NamesUnique(attrs, scope)
    requires var end := "\n" + Indent(depth) + "</" + tag + ">" + rest;
      ReadForest(m, kidsText + end) == Prepend(kids, ReadForest(m, end))
    ensures ReadForest(m, "\n" + Indent(depth) + "<" + tag + AttrText(attrs, scope) + ">"
                       + (kidsText + ("\n" + Indent(depth) + "</" + tag + ">" + rest)))
         == Prepend([Tree(tag, Attributes(m, attrs, scope), kids)], ReadForest(m, rest))
  {
    hide IsName, NamesReadable, UniqueNames, AttrText, Attributes, Indent, ReadForest, ReadStart, ReadEnd, SkipSpace;
    var end := "\n" + Indent(depth) + "</" + tag + ">" + rest;
    var inner := tag + AttrText(attrs, scope) + ">" + (kidsText + end);
    EndReads(m, tag, depth, rest);
    StartReads(m, tag, attrs, scope, kidsText + end);
    assert "\n" + Indent(depth) + "<" + tag + AttrText(attrs, scope) + ">" + (kidsText + end)
        == "\n" + Indent(depth) + ("<" + inner);
    Delimiters();
    SkipSpaces(depth, "<" + inner);
    NameFirst(tag, attrs, scope, kidsText + end);
    assert kids + [] == kids;
    OneElement(m, "\n" + Indent(depth) + ("<" + inner), inner, tag, Attributes(m, attrs, scope), kidsText + end, kids,
               "</" + tag + ">" + rest, rest);
  }

  lemma NameFirst(tag: string, attrs: seq<Attr>, scope: map<string, string>, rest: string)
    requires IsName(tag)
    ensures var inner := tag + AttrText(attrs, scope) + ">" + rest; inner != "" && inner[0] != '/'
  {
    NameIsNoSpace(tag);
    hide AttrText, IsName;
  }

  // One turn of `ReadForest`.
  lemma OneElement(m: Mode, s: string, inner: string, name: string, attrs: seq<Attribute>, u: string, kids: seq<Tree>, v: string,
                   w: string)
    requires SkipSpace(s) == "<" + inner && inner != "" && inner[0] != '/'
    requires ReadStart(m, inner) == Some((name, attrs, u)) && ReadForest(m, u) == Some((kids, v)) && ReadEnd(v, name) == Some(w)
    ensures ReadForest(m, s) == Prepend([Tree(name, attrs, kids)], ReadForest(m, w))
  {
    hide ReadStart, ReadEnd, SkipSpace;
    var t := "<" + inner;
    assert t[1..] == inner && t[1] == inner[0];
    assert !("</" <= t);
  }

  /** Reading a forest's text, with anything after it, gives the forest's elements and goes on from there. */
  lemma {:induction false} ForestReads(m: Mode, nodes: seq<Node>, depth: nat, scope: map<string, string>, rest: string)
    requires Readable(nodes, scope)
    ensures ReadForest(m, Tail(Lines(nodes, depth, scope)) + rest) == Prepend(Trees(m, nodes, scope), ReadForest(m, rest))
    decreases nodes
  {
    hide ReadForest, IsName, NamesReadable, UniqueNames, Attributes, AttrText, Indent;
    if nodes == [] {
      assert "" + rest == rest;
      PrependNone(ReadForest(m, rest));
    } else {
      var more := Tail(Lines(nodes[1..], depth, scope)) + rest;
      ForestReads(m, nodes[1..], depth, scope, rest);
      match nodes[0] {
        case Element(tag, attrs, kids) =>
          var end := "\n" + Indent(depth) + "</" + tag + ">" + more;
          ForestReads(m, kids, depth + 1, scope, end);
          ElementReads(m, tag, attrs, scope, depth, Tail(Lines(kids, depth + 1, scope)), Trees(m, kids, scope), more);
          ElementText(tag, attrs, kids, nodes, depth, scope, rest);
          PrependTwice([Tree(tag, Attributes(m, attrs, scope), Trees(m, kids, scope))], Trees(m, nodes[1..], scope), ReadForest(m, rest));
        case Namespace(prefix, uri, body) =>
          ForestReads(m, body, depth, scope[uri := prefix], more);
          NamespaceText(prefix, uri, body, nodes, depth, scope, rest);
          PrependTwice(Trees(m, body, scope[uri := prefix]), Trees(m, nodes[1..], scope), ReadForest(m, rest));
      }
      hide Readable, Lines;
    }
  }

  lemma PrependNone(r: Option<(seq<Tree>, string)>)
    ensures Prepend([], r) == r
  {
    if r.Some? {
      assert [] + r.value.0 == r.value.0;
    }
  }

  lemma PrependTwice(a: seq<Tree>, b: seq<Tree>, r: Option<(seq<Tree>, string)>)
    ensures Prepend(a, Prepend(b, r)) == Prepend(a + b, r)
  {
    if r.Some? {
      Assoc(a, b, r.value.0);
    }
  }

  lemma ElementText(tag: string, attrs: seq<Attr>, kids: seq<Node>, nodes: seq<Node>, depth: nat,
                    scope: map<string, string>, rest: string)
    requires nodes != [] && nodes[0] == Element(tag, attrs, kids)
    ensures var more := Tail(Lines(nodes[1..], depth, scope)) + rest;
      Tail(Lines(nodes, depth, scope)) + rest
        == "\n" + Indent(depth) + "<" + tag + AttrText(attrs, scope) + ">"
           + (Tail(Lines(kids, depth + 1, scope)) + ("\n" + Indent(depth) + "</" + tag + ">" + more))
  {
    hide Indent, AttrText, Tail;
    var start, end := Indent(depth) + "<" + tag + AttrText(attrs, scope) + ">", Indent(depth) + "</" + tag + ">";
    var inner, others := Lines(kids, depth + 1, scope), Lines(nodes[1..], depth, scope);
    assert Lines(nodes, depth, scope) == [start] + inner + [end] + others;
    hide Lines;
    TailConcat([start] + inner + [end], others);
    TailConcat([start] + inner, [end]);
    TailConcat([start], inner);
    TailOne(start);
    TailOne(end);
    Pieces(start, Tail(inner), end, Tail(others), rest);
    assert "\n" + Indent(depth) + "<" + tag + AttrText(attrs, scope) + ">" == "\n" + start;
    assert "\n" + Indent(depth) + "</" + tag + ">" == "\n" + end;
  }

  lemma Pieces(start: string, inner: string, end: string, others: string, rest: string)
    ensures "\n" + start + inner + ("\n" + end) + others + rest == "\n" + start + (inner + ("\n" + end + (others + rest)))
  {
  }

  lemma NamespaceText(prefix: string, uri: string, body: seq<Node>, nodes: seq<Node>, depth: nat,
                      scope: map<string, string>, rest: string)
    requires nodes != [] && nodes[0] == Namespace(prefix, uri, body)
    ensures Tail(Lines(nodes, depth, scope)) + rest
         == Tail(Lines(body, depth, scope[uri := prefix])) + (Tail(Lines(nodes[1..], depth, scope)) + rest)
  {
    hide Tail;
    var inner, others := Lines(body, depth, scope[uri := prefix]), Lines(nodes[1..], depth, scope);
    assert Lines(nodes, depth, scope) == inner + others;
    hide Lines;
    TailConcat(inner, others);
    Assoc(Tail(inner), Tail(others), rest);
  }

  // ---- what a reader can return ----

  predicate NamesKnown(attrs: seq<Attribute>) {
    forall k :: 0 <= k < |attrs| ==> IsName(attrs[k].name)
  }

  // Elements as XML allows them.
  predicate Lawful(trees: seq<Tree>)
    decreases trees
  {
    trees != [] ==>
      && IsName(trees[0].name) && NamesKnown(trees[0].attrs) && UniqueNames(trees[0].attrs)
      && Lawful(trees[0].kids) && Lawful(trees[1..])
  }

  lemma {:induction false} LawfulConcat(a: seq<Tree>, b: seq<Tree>)
    ensures Lawful(a + b) <==> Lawful(a) && Lawful(b)
    decreases a
  {
    if a == [] {
      assert a + b == b;
    } else {
      assert (a + b)[0] == a[0] && (a + b)[1..] == a[1..] + b;
      hide IsName, NamesKnown, UniqueNames;
      LawfulConcat(a[1..], b);
    }
  }

  lemma LawfulOne(name: string, attrs: seq<Attribute>, kids: seq<Tree>)
    ensures Lawful([Tree(name, attrs, kids)]) <==>
      IsName(name) && NamesKnown(attrs) && UniqueNames(attrs) && Lawful(kids)
  {
    hide IsName, NamesKnown, UniqueNames;
    assert [Tree(name, attrs, kids)][1..] == [];
  }

  // A document's elements are as XML allows them exactly when the document is readable.
  lemma {:induction false} ReadableIffLawful(m: Mode, nodes: seq<Node>, scope: map<string, string>)
    ensures Readable(nodes, scope) <==> Lawful(Trees(m, nodes, scope))
    decreases nodes
  {
    if nodes != [] {
      hide Lawful, IsName, NamesReadable, NamesUnique, NamesKnown, UniqueNames, Attributes;
      ReadableIffLawful(m, nodes[1..], scope);
      match nodes[0] {
        case Element(tag, attrs, kids) =>
          ReadableIffLawful(m, kids, scope);
          NamesAgree(m, attrs, scope);
          LawfulOne(tag, Attributes(m, attrs, scope), Trees(m, kids, scope));
          LawfulConcat([Tree(tag, Attributes(m, attrs, scope), Trees(m, kids, scope))], Trees(m, nodes[1..], scope));
        case Namespace(prefix, uri, body) =>
          ReadableIffLawful(m, body, scope[uri := prefix]);
          LawfulConcat(Trees(m, body, scope[uri := prefix]), Trees(m, nodes[1..], scope));
      }
    } else {
      NothingLawful();
    }
  }

  lemma NothingLawful()
    ensures Lawful([])
  {
  }

  lemma {:induction false} ReadNamesKnown(m: Mode, s: string)
    requires ReadAttributes(m, s).Some?
    ensures NamesKnown(ReadAttributes(m, s).value.0)
    decreases |s|
  {
    var t := SkipSpace(s);
    if !(t != "" && t[0] == '>') {
      var (a, u) := ReadAttribute(m, t).value;
      ReadNameKnown(m, t);
      hide ReadAttribute, IsName;
      ReadNamesKnown(m, u);
    }
  }

  lemma ReadNameKnown(m: Mode, s: string)
    requires ReadAttribute(m, s).Some?
    ensures IsName(ReadAttribute(m, s).value.0.name)
  {
    hide IsName, Prepared, ReadAttValue;
  }

  lemma StartLawful(m: Mode, s: string)
    requires ReadStart(m, s).Some?
    ensures var (name, attrs, _) := ReadStart(m, s).value; IsName(name) && NamesKnown(attrs) && UniqueNames(attrs)
  {
    hide IsName, UniqueNames, ReadAttributes, NamesKnown;
    ReadNamesKnown(m, s[NameLength(s)..]);
  }

  // Whatever it is given, the reader returns nothing else.
  lemma {:induction false} ReadIsLawful(m: Mode, s: string)
    requires ReadForest(m, s).Some?
    ensures Lawful(ReadForest(m, s).value.0)
    decreases |s|
  {
    var t := SkipSpace(s);
    if t == "" || "</" <= t {
      NothingLawful();
    } else {
      var (name, attrs, u) := ReadStart(m, t[1..]).value;
      StartLawful(m, t[1..]);
      var (kids, v) := ReadForest(m, u).value;
      var w := ReadEnd(v, name).value;
      hide ReadStart, ReadEnd, SkipSpace, Lawful, IsName, NamesKnown, UniqueNames;
      ReadIsLawful(m, u);
      ReadIsLawful(m, w);
      LawfulOne(name, attrs, kids);
      LawfulConcat([Tree(name, attrs, kids)], ReadForest(m, w).value.0);
    }
  }

  // ---- a document ----

  lemma ReadableReads(m: Mode, doc: seq<Node>)
    requires Readable(doc, map[])
    ensures ReadDocument(m, Printed(doc)) == Some(Trees(m, doc, map[]))
  {
    hide ReadForest, Lines, Join, Tail, Trees, Readable;
    var lines := Lines(doc, 0, map[]);
    JoinTail(D.XML_HEADER, lines);
    ForestReads(m, doc, 0, map[], "");
    assert Tail(lines) + "" == Tail(lines);
    EmptyReads(m);
    var s := Printed(doc);
    assert s == D.XML_HEADER + Tail(lines);
    assert D.XML_HEADER <= s && s[|D.XML_HEADER|..] == Tail(lines);
    assert Trees(m, doc, map[]) + [] == Trees(m, doc, map[]);
  }

  lemma EmptyReads(m: Mode)
    ensures ReadForest(m, "") == Some(([], ""))
  {
  }

  lemma DocumentIsLawful(m: Mode, s: string)
    requires ReadDocument(m, s).Some?
    ensures Lawful(ReadDocument(m, s).value)
  {
    hide ReadForest, Lawful;
    ReadIsLawful(m, s[|D.XML_HEADER|..]);
  }

  /** A printed document reads back as its elements - names, attributes in order with their values as the reader takes
      them, nesting - if and only if its tags and attribute names are XML names and no element has an attribute
      twice. */
  lemma DocumentReadsBack(m: Mode, doc: seq<Node>)
    ensures ReadDocument(m, Printed(doc)) == Some(Trees(m, doc, map[])) <==> Readable(doc, map[])
  {
    hide *;
    ReadableIffLawful(m, doc, map[]);
    if Readable(doc, map[]) {
      ReadableReads(m, doc);
    } else if ReadDocument(m, Printed(doc)).Some? {
      DocumentIsLawful(m, Printed(doc));
    }
  }

  /** From bytes to elements: where the decoder loses no prefix, its text of any layout of a document is read back as
      the document under the same condition. */
  lemma DecodedReadsBack(m: Mode, doc: seq<Node>, l: Layout)
    requires Valid(l) && Events(l.after) == Flatten(doc) && (forall i :: i in l.after ==> R.NamedItem(i))
    requires S.NothingLost(doc, map[], map[])
    ensures D.Decode(File(l)).Ok?
    ensures ReadDocument(m, D.Decode(File(l)).value) == Some(Trees(m, doc, map[])) <==> Readable(doc, map[])
  {
    hide *;
    S.DecodesExactlyWhenNothingIsLost(doc, l);
    DocumentReadsBack(m, doc);
  }
}
