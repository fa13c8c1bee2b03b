/** What a conforming XML 1.0 reader gets from the decoder's text. It refuses characters outside section 2.2, ends
    lines with line feeds before it parses (section 2.11), and turns white space in attribute values to spaces
    (section 3.3.3); the decoder writes values as they are. */
module XmlConforming {
  import opened Common
  import opened Text
  import opened AxmlDocument
  import opened XmlReader
  import D = AxmlDecoder
  import R = AxmlRoundTrip
  import S = AxmlScopes

  // Production 2 of section 2.2; surrogates are no characters here.
  predicate LegalChar(c: char) {
    || c == '\t' || c == '\n' || c == '\r'
    || 0x20 <= c as int <= 0xD7FF || 0xE000 <= c as int <= 0xFFFD || 0x1_0000 <= c as int
  }

  predicate Legal(s: string) {
    forall i :: 0 <= i < |s| ==> LegalChar(s[i])
  }

  // A document has one root element.
  function ReadXml(s: string): Option<Tree> {
    if !Legal(s) then None
    else match ReadDocument(Spaced, LineEnds(s))
      case None => None
      case Some(trees) => if |trees| == 1 then Some(trees[0]) else None
  }

  // ---- ending lines before parsing, or in each value ----

  // A text without line ends is a prefix before and after.
  lemma {:induction false} PrefixEnds(p: string, s: string)
    requires '\r' !in p && '\n' !in p
    ensures p <= LineEnds(s) <==> p <= s
    ensures p <= s ==> LineEnds(s)[|p|..] == LineEnds(s[|p|..])
  {
    if p != "" && s != "" && s[0] == p[0] {
      PrefixEnds(p[1..], s[1..]);
      assert s == [s[0]] + s[1..] && p == [p[0]] + p[1..];
      LineEndsChar(s[0], s[1..]);
      PrefixCons(p[0], p[1..], s[1..]);
      PrefixCons(p[0], p[1..], LineEnds(s[1..]));
      hide LineEnds;
      assert p <= s ==> s[|p|..] == s[1..][|p| - 1..];
    } else if p != "" && s != "" {
      assert LineEnds(s)[0] == s[0] || LineEnds(s)[0] == '\n';
    }
  }

  lemma PrefixCons(c: char, p: string, s: string)
    ensures [c] + p <= [c] + s <==> p <= s
    ensures p <= s ==> ([c] + s)[|p| + 1..] == s[|p|..]
  {
    if [c] + p <= [c] + s {
      assert forall i :: 0 <= i < |p| ==> p[i] == ([c] + p)[i + 1] == ([c] + s)[i + 1] == s[i];
    }
    if p <= s {
      assert s == p + s[|p|..];
      assert [c] + s == ([c] + p) + s[|p|..];
    }
  }

  lemma {:induction false} SkipSpaceEnds(s: string)
    ensures SkipSpace(LineEnds(s)) == LineEnds(SkipSpace(s))
    decreases |s|
  {
    if s != "" && Space(s[0]) {
      if s[0] == '\r' {
        SkipSpaceEnds(AfterReturn(s[1..]));
      } else {
        SkipSpaceEnds(s[1..]);
      }
    }
  }

  lemma SpaceFirst(s: string)
    ensures |SkipSpace(s)| == |s| <==> s == "" || !Space(s[0])
    ensures LineEnds(s) == "" <==> s == ""
    ensures s != "" ==> (Space(LineEnds(s)[0]) <==> Space(s[0]))
  {
  }

  lemma {:induction false} NameEnds(s: string)
    ensures NameLength(LineEnds(s)) == NameLength(s)
    ensures '\r' !in s[..NameLength(s)] && '\n' !in s[..NameLength(s)]
  {
    if s != "" && NameChar(s[0]) {
      NameEnds(s[1..]);
      hide NameChar, NameStart;
      assert s[..NameLength(s)] == [s[0]] + s[1..][..NameLength(s[1..])];
      LineBreaks();
    } else if s != "" {
      LineBreaks();
      hide NameStart;
    }
  }

  lemma LineBreaks()
    ensures !NameChar('\r') && !NameChar('\n')
  {
  }

  lemma NameCut(s: string)
    ensures var n := NameLength(s);
      && NameLength(LineEnds(s)) == n && LineEnds(s)[..n] == s[..n] && LineEnds(s)[n..] == LineEnds(s[n..])
      && '\r' !in s[..n] && '\n' !in s[..n]
  {
    var n := NameLength(s);
    NameEnds(s);
    hide NameLength;
    PrefixEnds(s[..n], s);
  }

  lemma AfterReturnSplit(a: string, b: string)
    requires b != "" && b[0] != '\n'
    ensures AfterReturn(a + b) == AfterReturn(a) + b
  {
    if a == "" {
      assert a + b == b;
    } else {
      assert (a + b)[1..] == a[1..] + b;
    }
  }

  lemma {:induction false} LineEndsSplit(a: string, b: string)
    requires b != "" && b[0] != '\n'
    ensures LineEnds(a + b) == LineEnds(a) + LineEnds(b)
    decreases |a|
  {
    hide *;
    if a == "" {
      NothingEnds();
      assert a + b == b && "" + LineEnds(b) == LineEnds(b);
    } else {
      var c, rest := a[0], a[1..];
      assert a == [c] + rest;
      Assoc([c], rest, b);
      if c == '\r' {
        LineEndsReturn(rest);
        LineEndsReturn(rest + b);
        AfterReturnSplit(rest, b);
        LineEndsSplit(AfterReturn(rest), b);
        Assoc("\n", LineEnds(AfterReturn(rest)), LineEnds(b));
      } else {
        LineEndsChar(c, rest);
        LineEndsChar(c, rest + b);
        LineEndsSplit(rest, b);
        Assoc([c], LineEnds(rest), LineEnds(b));
      }
    }
  }

  lemma NothingEnds()
    ensures LineEnds("") == ""
  {
  }

  lemma {:induction false} NoNewQuote(s: string)
    requires '"' !in s
    ensures '"' !in LineEnds(s)
    decreases |s|
  {
    if s != "" {
      NoNewQuote(if s[0] == '\r' then AfterReturn(s[1..]) else s[1..]);
    }
  }

  lemma {:induction false} BeforeQuote(s: string)
    ensures '"' !in s[..UpTo(s, '"')]
    ensures UpTo(s, '"') < |s| ==> s[UpTo(s, '"')] == '"'
  {
    if s != "" && s[0] != '"' {
      BeforeQuote(s[1..]);
      assert s[..UpTo(s, '"')] == [s[0]] + s[1..][..UpTo(s[1..], '"')];
    }
  }

  lemma {:induction false} NoQuoteAtAll(s: string)
    requires '"' !in s
    ensures UpTo(s, '"') == |s|
  {
    if s != "" {
      NoQuoteAtAll(s[1..]);
    }
  }

  // A quote is found in the ended text where it was.
  lemma QuoteCut(s: string)
    ensures var q, r := UpTo(s, '"'), UpTo(LineEnds(s), '"');
      && (r == |LineEnds(s)| <==> q == |s|) && LineEnds(s)[..r] == LineEnds(s[..q])
      && (q < |s| ==> LineEnds(s)[r + 1..] == LineEnds(s[q + 1..]))
  {
    var q := UpTo(s, '"');
    BeforeQuote(s);
    hide UpTo, LineEnds;
    if q == |s| {
      assert s[..q] == s;
      NoNewQuote(s);
      NoQuoteAtAll(LineEnds(s));
      assert LineEnds(s)[..|LineEnds(s)|] == LineEnds(s);
    } else {
      assert s == s[..q] + (['"'] + s[q + 1..]);
      QuoteSplit(s[..q], s[q + 1..]);
    }
  }

  lemma QuoteSplit(a: string, c: string)
    requires '"' !in a
    ensures var e := LineEnds(a + (['"'] + c));
      UpTo(e, '"') == |LineEnds(a)| < |e| && e[..|LineEnds(a)|] == LineEnds(a) && e[|LineEnds(a)| + 1..] == LineEnds(c)
  {
    hide *;
    LineEndsSplit(a, ['"'] + c);
    LineEndsChar('"', c);
    NoNewQuote(a);
    QuoteStops(LineEnds(a), ['"'] + LineEnds(c));
    QuoteParts(LineEnds(a), LineEnds(c));
  }

  lemma QuoteParts(a: string, c: string)
    ensures var e := a + (['"'] + c); |a| < |e| && e[..|a|] == a && e[|a| + 1..] == c
  {
  }

  // ---- the reader over ended lines ----

  function Ended<T>(r: Option<(T, string)>): Option<(T, string)> {
    match r case None => None case Some((x, rest)) => Some((x, LineEnds(rest)))
  }

  // What `ReadAttribute` makes of a name, a value between quotes, and what follows.
  function Pair(name: string, closed: bool, value: Option<string>, rest: string): Option<(Attribute, string)> {
    if !closed || value.None? then None else Some((Attribute(name, value.value), rest))
  }

  // How a text starts as an attribute: its name, and what follows `="`.
  predicate Starts(s: string, name: string, t: string) {
    IsName(s[..NameLength(s)]) && "=\"" <= s[NameLength(s)..]
    && name == s[..NameLength(s)] && t == s[NameLength(s)..][2..]
  }

  // How what follows goes on: the value's text, and what follows its quote.
  predicate Quoted(t: string, text: string, closed: bool, rest: string) {
    var q := UpTo(t, '"');
    text == t[..q] && closed == (q < |t|) && rest == if closed then t[q + 1..] else ""
  }

  lemma AttributeTurn(m: Mode, s: string, name: string, t: string, text: string, closed: bool, rest: string)
    requires Starts(s, name, t) && Quoted(t, text, closed, rest)
    ensures ReadAttribute(m, s) == Pair(name, closed, ReadAttValue(Prepared(m, text)), rest)
  {
    hide NameLength, IsName, UpTo, ReadAttValue, Prepared;
    assert s[NameLength(s)..][2..] == s[NameLength(s) + 2..];
  }

  lemma AttributeNone(m: Mode, s: string)
    requires forall t :: !Starts(s, s[..NameLength(s)], t)
    ensures ReadAttribute(m, s) == None
  {
    hide NameLength, IsName, UpTo, ReadAttValue, Prepared;
    assert IsName(s[..NameLength(s)]) && "=\"" <= s[NameLength(s)..]
      ==> Starts(s, s[..NameLength(s)], s[NameLength(s)..][2..]);
  }

  lemma StartsEnds(s: string, t: string)
    ensures Starts(s, s[..NameLength(s)], t) ==> Starts(LineEnds(s), s[..NameLength(s)], LineEnds(t))
    ensures (forall u :: !Starts(s, s[..NameLength(s)], u))
      ==> LineEnds(s)[..NameLength(LineEnds(s))] == s[..NameLength(s)]
          && forall u :: !Starts(LineEnds(s), s[..NameLength(s)], u)
  {
    var tail := s[NameLength(s)..];
    NameCut(s);
    PrefixEnds("=\"", tail);
    hide NameLength, IsName, LineEnds;
    if "=\"" <= tail {
      assert Starts(s, s[..NameLength(s)], tail[2..]) <==> IsName(s[..NameLength(s)]);
    }
  }

  lemma QuotedEnds(t: string, text: string, closed: bool, rest: string)
    requires Quoted(t, text, closed, rest)
    ensures Quoted(LineEnds(t), LineEnds(text), closed, LineEnds(rest))
  {
    QuoteCut(t);
    NothingEnds();
    hide UpTo, LineEnds;
  }

  lemma AttributeEnds(s: string)
    ensures ReadAttribute(Spaced, LineEnds(s)) == Ended(ReadAttribute(Normal, s))
  {
    var e, name := LineEnds(s), s[..NameLength(s)];
    hide NameLength, ReadAttValue, IsName, LineEnds, UpTo, Prepared, ReadAttribute, Starts;
    if t :| Starts(s, name, t) {
      StartsEnds(s, t);
      var q := UpTo(t, '"');
      var text, closed, rest := t[..q], q < |t|, if q < |t| then t[q + 1..] else "";
      assert Quoted(t, text, closed, rest);
      QuotedEnds(t, text, closed, rest);
      hide Quoted;
      PreparedEnds(text);
      AttributeTurn(Normal, s, name, t, text, closed, rest);
      AttributeTurn(Spaced, e, name, LineEnds(t), LineEnds(text), closed, LineEnds(rest));
    } else {
      StartsEnds(s, "");
      AttributeNone(Normal, s);
      AttributeNone(Spaced, e);
    }
  }

  lemma PreparedEnds(s: string)
    ensures Prepared(Spaced, LineEnds(s)) == Prepared(Normal, s)
  {
  }

  // What `ReadAttributes` makes of the first attribute and the others.
  function Added(first: Option<(Attribute, string)>, others: Option<(seq<Attribute>, string)>)
    : Option<(seq<Attribute>, string)>
  {
    if first.None? || others.None? then None
    else Some(([first.value.0] + others.value.0, others.value.1))
  }

  lemma AttributesTurn(m: Mode, s: string, t: string, first: Option<(Attribute, string)>,
                       others: Option<(seq<Attribute>, string)>)
    requires t == SkipSpace(s) && first == ReadAttribute(m, t)
    requires !(">" <= t) && |t| < |s| && first.Some? ==> others == ReadAttributes(m, first.value.1)
    ensures ReadAttributes(m, s)
         == if ">" <= t then Some(([], t[1..])) else if |t| == |s| then None else Added(first, others)
  {
    hide SkipSpace, ReadAttribute;
  }

  lemma {:induction false} AttributesEnd(s: string)
    ensures ReadAttributes(Spaced, LineEnds(s)) == Ended(ReadAttributes(Normal, s))
    decreases |s|
  {
    var t := SkipSpace(s);
    SkipSpaceEnds(s);
    SpaceFirst(s);
    SpaceFirst(LineEnds(s));
    PrefixEnds(">", t);
    AttributeEnds(t);
    hide SkipSpace, LineEnds, ReadAttribute, ReadAttributes, Space;
    var first, first' := ReadAttribute(Normal, t), ReadAttribute(Spaced, LineEnds(t));
    var others, others' := None, None;
    if !(">" <= t) && |t| < |s| && first.Some? {
      AttributesEnd(first.value.1);
      others, others' := ReadAttributes(Normal, first.value.1), ReadAttributes(Spaced, first'.value.1);
    }
    AttributesTurn(Normal, s, t, first, others);
    AttributesTurn(Spaced, LineEnds(s), LineEnds(t), first', others');
  }

  lemma EmptyEnds(s: string)
    ensures LineEnds(s) == "" <==> s == ""
  {
  }

  lemma StartEnds(s: string)
    ensures match ReadStart(Normal, s)
            case None => ReadStart(Spaced, LineEnds(s)) == None
            case Some((name, attrs, u)) => ReadStart(Spaced, LineEnds(s)) == Some((name, attrs, LineEnds(u)))
  {
    NameCut(s);
    hide NameLength, IsName, ReadAttributes, LineEnds, UniqueNames;
    AttributesEnd(s[NameLength(s)..]);
  }

  lemma EndEnds(s: string, name: string)
    requires '\r' !in name && '\n' !in name
    ensures match ReadEnd(s, name)
            case None => ReadEnd(LineEnds(s), name) == None
            case Some(u) => ReadEnd(LineEnds(s), name) == Some(LineEnds(u))
  {
    PrefixEnds("</" + name, s);
    if "</" + name <= s {
      var t := s[2 + |name|..];
      SkipSpaceEnds(t);
      PrefixEnds(">", SkipSpace(t));
      EmptyEnds(SkipSpace(t));
      hide LineEnds, SkipSpace;
    }
  }

  lemma StartName(s: string)
    requires ReadStart(Normal, s).Some?
    ensures '\r' !in ReadStart(Normal, s).value.0 && '\n' !in ReadStart(Normal, s).value.0
  {
    NameCut(s);
    hide NameLength, IsName, ReadAttributes, LineEnds, UniqueNames;
  }

  // What `ReadForest` makes of an element's start, children and end, and of what follows it.
  function Combined(start: Option<(string, seq<Attribute>, string)>, inner: Option<(seq<Tree>, string)>,
                    end: Option<string>, next: Option<(seq<Tree>, string)>): Option<(seq<Tree>, string)> {
    if start.None? || inner.None? || end.None? || next.None? then None
    else Some(([Tree(start.value.0, start.value.1, inner.value.0)] + next.value.0, next.value.1))
  }

  lemma ForestTurn(m: Mode, s: string, start: Option<(string, seq<Attribute>, string)>,
                   inner: Option<(seq<Tree>, string)>, end: Option<string>, next: Option<(seq<Tree>, string)>)
    requires var t := SkipSpace(s); "<" <= t && !("</" <= t) && start == ReadStart(m, t[1..])
    requires start.Some? ==> inner == ReadForest(m, start.value.2)
    requires start.Some? && inner.Some? ==> end == ReadEnd(inner.value.1, start.value.0)
    requires start.Some? && inner.Some? && end.Some? ==> next == ReadForest(m, end.value)
    ensures ReadForest(m, s) == Combined(start, inner, end, next)
  {
    hide ReadStart, ReadEnd, SkipSpace;
  }

  lemma ForestStops(m: Mode, s: string)
    requires !("<" <= SkipSpace(s)) || "</" <= SkipSpace(s)
    ensures ReadForest(m, s)
         == if SkipSpace(s) == "" || "</" <= SkipSpace(s) then Some(([], SkipSpace(s))) else None
  {
    hide ReadStart, ReadEnd, SkipSpace;
  }

  lemma {:induction false} ForestEnds(s: string)
    ensures ReadForest(Spaced, LineEnds(s)) == Ended(ReadForest(Normal, s))
    decreases |s|, 1
  {
    var t := SkipSpace(s);
    SkipSpaceEnds(s);
    EmptyEnds(t);
    PrefixEnds("</", t);
    PrefixEnds("<", t);
    hide SkipSpace, LineEnds, ReadStart, ReadEnd, ReadForest;
    if "<" <= t && !("</" <= t) {
      ElementEnds(s, t);
    } else {
      ForestStops(Normal, s);
      ForestStops(Spaced, LineEnds(s));
    }
  }

  lemma {:induction false} ElementEnds(s: string, t: string)
    requires t == SkipSpace(s) && LineEnds(t) == SkipSpace(LineEnds(s))
    requires "<" <= t && !("</" <= t) && "<" <= LineEnds(t) && !("</" <= LineEnds(t))
    requires LineEnds(t[1..]) == LineEnds(t)[1..]
    ensures ReadForest(Spaced, LineEnds(s)) == Ended(ReadForest(Normal, s))
    decreases |s|, 0
  {
    hide SkipSpace, LineEnds, ReadStart, ReadEnd, ReadForest;
    StartEnds(t[1..]);
    var start, start' := ReadStart(Normal, t[1..]), ReadStart(Spaced, LineEnds(t)[1..]);
    var inner, inner', end, end', next, next' := None, None, None, None, None, None;
    if start.Some? {
      StartName(t[1..]);
      inner, inner' := ReadForest(Normal, start.value.2), ReadForest(Spaced, start'.value.2);
      ForestEnds(start.value.2);
      if inner.Some? {
        EndEnds(inner.value.1, start.value.0);
        end, end' := ReadEnd(inner.value.1, start.value.0), ReadEnd(inner'.value.1, start'.value.0);
        if end.Some? {
          next, next' := ReadForest(Normal, end.value), ReadForest(Spaced, end'.value);
          ForestEnds(end.value);
        }
      }
    }
    ForestTurn(Normal, s, start, inner, end, next);
    ForestTurn(Spaced, LineEnds(s), start', inner', end', next');
  }

  lemma HeaderEnds()
    ensures '\r' !in D.XML_HEADER && '\n' !in D.XML_HEADER
  {
  }

  /** On every text, ending the lines before parsing is the same as ending them in each attribute value. */
  lemma LineEndsFirst(s: string)
    ensures ReadDocument(Spaced, LineEnds(s)) == ReadDocument(Normal, s)
  {
    HeaderEnds();
    PrefixEnds(D.XML_HEADER, s);
    hide LineEnds, ReadForest;
    if D.XML_HEADER <= s {
      ForestEnds(s[|D.XML_HEADER|..]);
      if ReadForest(Normal, s[|D.XML_HEADER|..]).Some? {
        EmptyEnds(ReadForest(Normal, s[|D.XML_HEADER|..]).value.1);
      }
    }
  }

  // ---- values ----

  // No tab, line feed or carriage return.
  predicate OneLined(s: string) {
    forall i :: 0 <= i < |s| ==> s[i] != '\t' && s[i] != '\n' && s[i] != '\r'
  }

  lemma ValueKeptIff(v: string)
    ensures Prepared(Normal, v) == v <==> OneLined(v)
  {
    if OneLined(v) {
      LineEndsFront(v, "");
      assert v + "" == v && LineEnds("") == "";
      hide LineEnds;
      assert Spaces(v) == v;
    } else {
      hide LineEnds;
    }
  }

  /** A conforming reader recovers an escaped value if and only if it has no tab, line feed or carriage return. */
  lemma ValueReadsBackIff(v: string)
    ensures ReadAttValue(Prepared(Normal, Escape(v))) == Some(v) <==> OneLined(v)
  {
    hide *;
    PreparedEscape(Normal, v);
    EscapeRoundTrip(Prepared(Normal, v));
    ValueKeptIff(v);
  }

  datatype Test = IsLegal | IsOneLined

  predicate Passes(test: Test, v: string) {
    match test case IsLegal => Legal(v) case IsOneLined => OneLined(v)
  }

  // Every attribute value of the document passes.
  predicate AttrsPass(test: Test, attrs: seq<Attr>) {
    forall k :: 0 <= k < |attrs| ==> Passes(test, Shown(attrs[k].value))
  }

  predicate ValuesPass(test: Test, nodes: seq<Node>)
    decreases nodes
  {
    nodes != [] ==>
      && (match nodes[0]
          case Element(_, attrs, kids) => AttrsPass(test, attrs) && ValuesPass(test, kids)
          case Namespace(_, _, body) => ValuesPass(test, body))
      && ValuesPass(test, nodes[1..])
  }

  lemma AttrsKeptIff(attrs: seq<Attr>, scope: map<string, string>)
    ensures Attributes(Normal, attrs, scope) == Attributes(Literal, attrs, scope) <==> AttrsPass(IsOneLined, attrs)
  {
    hide QualifiedName, Shown, Prepared, OneLined;
    var a, b := Attributes(Normal, attrs, scope), Attributes(Literal, attrs, scope);
    forall k | 0 <= k < |attrs|
      ensures a[k] == b[k] <==> Passes(IsOneLined, Shown(attrs[k].value))
    {
      ValueKeptIff(Shown(attrs[k].value));
      AsIs(Shown(attrs[k].value));
    }
  }

  lemma AsIs(v: string)
    ensures Prepared(Literal, v) == v
  {
  }

  lemma {:induction false} SameCount(nodes: seq<Node>, scope: map<string, string>)
    ensures |Trees(Normal, nodes, scope)| == |Trees(Literal, nodes, scope)|
    decreases nodes
  {
    if nodes != [] {
      SameCount(nodes[1..], scope);
      hide Attributes;
      if nodes[0].Namespace? {
        SameCount(nodes[0].body, scope[nodes[0].uri := nodes[0].prefix]);
      }
    }
  }

  lemma {:induction false} TreesKeptIff(nodes: seq<Node>, scope: map<string, string>)
    ensures Trees(Normal, nodes, scope) == Trees(Literal, nodes, scope) <==> ValuesPass(IsOneLined, nodes)
    decreases nodes
  {
    if nodes != [] {
      hide Attributes, AttrsPass;
      TreesKeptIff(nodes[1..], scope);
      var rest, rest' := Trees(Normal, nodes[1..], scope), Trees(Literal, nodes[1..], scope);
      match nodes[0] {
        case Element(tag, attrs, kids) =>
          TreesKeptIff(kids, scope);
          AttrsKeptIff(attrs, scope);
          SplitEqual([Tree(tag, Attributes(Normal, attrs, scope), Trees(Normal, kids, scope))], rest,
                     [Tree(tag, Attributes(Literal, attrs, scope), Trees(Literal, kids, scope))], rest');
          OneEqual(Tree(tag, Attributes(Normal, attrs, scope), Trees(Normal, kids, scope)),
                   Tree(tag, Attributes(Literal, attrs, scope), Trees(Literal, kids, scope)));
        case Namespace(prefix, uri, body) =>
          TreesKeptIff(body, scope[uri := prefix]);
          SameCount(body, scope[uri := prefix]);
          SplitEqual(Trees(Normal, body, scope[uri := prefix]), rest, Trees(Literal, body, scope[uri := prefix]), rest');
      }
    }
  }

  lemma OneEqual(a: Tree, b: Tree)
    ensures [a] == [b] <==> a == b
  {
    assert [a][0] == a && [b][0] == b;
  }

  lemma SplitEqual<T>(a: seq<T>, b: seq<T>, c: seq<T>, d: seq<T>)
    requires |a| == |c|
    ensures a + b == c + d <==> a == c && b == d
  {
    assert (a + b)[..|a|] == a && (a + b)[|a|..] == b;
    assert (c + d)[..|a|] == c && (c + d)[|a|..] == d;
  }

  // ---- legal characters ----

  lemma LegalConcat(a: string, b: string)
    ensures Legal(a + b) <==> Legal(a) && Legal(b)
  {
    hide LegalChar;
    var s := a + b;
    assert forall i :: 0 <= i < |a| ==> s[i] == a[i];
    assert forall i :: 0 <= i < |b| ==> s[|a| + i] == b[i];
  }

  lemma {:induction false} LegalEscape(v: string)
    ensures Legal(Escape(v)) <==> Legal(v)
  {
    if v == "" {
      EscapeEmpty();
    } else {
      EscapeStep(v);
      LegalEntity(v[0]);
      LegalEscape(v[1..]);
      LegalConcat(Entity(v[0]), Escape(v[1..]));
      LegalConcat([v[0]], v[1..]);
      assert v == [v[0]] + v[1..];
      hide Escape, Entity, Legal;
    }
  }

  lemma LegalEntity(c: char)
    ensures Legal(Entity(c)) <==> Legal([c])
  {
    assert [c][0] == c;
    assert Entity(c) == [c] || (LegalChar(c) && Legal(Entity(c)));
  }

  lemma LegalName(s: string)
    requires IsName(s)
    ensures Legal(s)
  {
    forall i | 0 <= i < |s| ensures LegalChar(s[i]) {
      assert NameChar(s[i]);
      hide IsName;
    }
  }

  lemma LegalSource(a: Attr, scope: map<string, string>)
    requires IsName(QualifiedName(a, scope))
    ensures Legal(AttrSource(a, scope)) <==> Legal(Shown(a.value))
  {
    hide QualifiedName, Shown, Escape;
    LegalName(QualifiedName(a, scope));
    LegalEscape(Shown(a.value));
    assert Legal("=\"") && Legal("\"");
    hide Legal, IsName;
    LegalConcat(QualifiedName(a, scope), "=\"");
    LegalConcat(QualifiedName(a, scope) + "=\"", Escape(Shown(a.value)));
    LegalConcat(QualifiedName(a, scope) + "=\"" + Escape(Shown(a.value)), "\"");
  }

  lemma {:induction false} LegalAttrs(attrs: seq<Attr>, scope: map<string, string>)
    requires NamesReadable(attrs, scope)
    ensures Legal(AttrText(attrs, scope)) <==> AttrsPass(IsLegal, attrs)
    decreases attrs
  {
    if attrs != [] {
      FirstName(Literal, attrs, scope);
      hide QualifiedName, IsName, NamesReadable;
      LegalSource(attrs[0], scope);
      LegalAttrs(attrs[1..], scope);
      assert Legal(" ");
      hide Legal, AttrSource;
      LegalConcat(" ", AttrSource(attrs[0], scope));
      LegalConcat(" " + AttrSource(attrs[0], scope), AttrText(attrs[1..], scope));
      AttrsPassFirst(attrs);
      hide AttrsPass;
    }
  }

  lemma AttrsPassFirst(attrs: seq<Attr>)
    requires attrs != []
    ensures AttrsPass(IsLegal, attrs) <==> Legal(Shown(attrs[0].value)) && AttrsPass(IsLegal, attrs[1..])
  {
    hide Legal, Shown;
    assert forall k :: 0 < k < |attrs| ==> attrs[k] == attrs[1..][k - 1];
  }

  lemma LegalIndent(depth: nat)
    ensures Legal(Indent(depth))
  {
  }

  lemma LegalTags(tag: string, text: string, depth: nat)
    requires IsName(tag)
    ensures Legal("\n" + (Indent(depth) + "<" + tag + text + ">")) <==> Legal(text)
    ensures Legal("\n" + (Indent(depth) + "</" + tag + ">"))
  {
    LegalName(tag);
    LegalIndent(depth);
    assert Legal("\n") && Legal("<") && Legal("</") && Legal(">");
    hide *;
    LegalConcat("\n", Indent(depth) + "<" + tag + text + ">");
    LegalConcat(Indent(depth) + "<" + tag + text, ">");
    LegalConcat(Indent(depth) + "<" + tag, text);
    LegalConcat(Indent(depth) + "<", tag);
    LegalConcat(Indent(depth), "<");
    LegalConcat("\n", Indent(depth) + "</" + tag + ">");
    LegalConcat(Indent(depth) + "</" + tag, ">");
    LegalConcat(Indent(depth) + "</", tag);
    LegalConcat(Indent(depth), "</");
  }

  lemma LegalTail(a: seq<string>, b: seq<string>)
    ensures Legal(Tail(a + b)) <==> Legal(Tail(a)) && Legal(Tail(b))
  {
    hide *;
    TailConcat(a, b);
    LegalConcat(Tail(a), Tail(b));
  }

  lemma {:induction false} LegalLines(nodes: seq<Node>, depth: nat, scope: map<string, string>)
    requires Readable(nodes, scope)
    ensures Legal(Tail(Lines(nodes, depth, scope))) <==> ValuesPass(IsLegal, nodes)
    decreases nodes
  {
    hide Legal, Tail, IsName, NamesReadable, NamesUnique, AttrsPass, AttrText, Indent;
    if nodes == [] {
      LegalNothing();
    } else {
      var others := Lines(nodes[1..], depth, scope);
      LegalLines(nodes[1..], depth, scope);
      match nodes[0] {
        case Element(tag, attrs, kids) =>
          var start, end := Indent(depth) + "<" + tag + AttrText(attrs, scope) + ">", Indent(depth) + "</" + tag + ">";
          var inner := Lines(kids, depth + 1, scope);
          LegalLines(kids, depth + 1, scope);
          LegalAttrs(attrs, scope);
          LegalTags(tag, AttrText(attrs, scope), depth);
          LegalTail([start] + inner + [end], others);
          LegalTail([start] + inner, [end]);
          LegalTail([start], inner);
          TailOne(start);
          TailOne(end);
        case Namespace(prefix, uri, body) =>
          LegalLines(body, depth, scope[uri := prefix]);
          LegalTail(Lines(body, depth, scope[uri := prefix]), others);
      }
    }
  }

  lemma LegalNothing()
    ensures Legal(Tail([]))
  {
  }

  lemma LegalHeader()
    ensures Legal(D.XML_HEADER)
  {
  }

  lemma LegalPrinted(doc: seq<Node>)
    requires Readable(doc, map[])
    ensures Legal(Printed(doc)) <==> ValuesPass(IsLegal, doc)
  {
    LegalHeader();
    hide Legal, Lines, Join, Tail, Readable, ValuesPass;
    var lines := Lines(doc, 0, map[]);
    JoinTail(D.XML_HEADER, lines);
    LegalConcat(D.XML_HEADER, Tail(lines));
    LegalLines(doc, 0, map[]);
  }

  // ---- a document ----

  lemma ReadXmlIs(s: string, t: Tree)
    ensures ReadXml(s) == Some(t) <==> Legal(s) && ReadDocument(Normal, s) == Some([t])
  {
    LineEndsFirst(s);
    hide Legal, ReadDocument;
    assert [t][0] == t;
    assert forall trees: seq<Tree> :: |trees| == 1 ==> trees == [trees[0]];
  }

  /** Of a readable document with one root, a conforming reader gets the elements with every value's line ends and tabs
      turned to spaces, or refuses the document for a character that XML does not allow. */
  lemma ConformingReads(doc: seq<Node>, root: Tree)
    requires Readable(doc, map[]) && Trees(Normal, doc, map[]) == [root]
    ensures ReadXml(Printed(doc)) == if ValuesPass(IsLegal, doc) then Some(root) else None
  {
    hide *;
    LegalPrinted(doc);
    ReadableReads(Normal, doc);
    ReadXmlIs(Printed(doc), root);
    ReadXmlRefuses(Printed(doc));
  }

  lemma ReadXmlRefuses(s: string)
    ensures !Legal(s) ==> ReadXml(s) == None
  {
    hide Legal;
  }

  /** A conforming reader gets a printed document of one root back if and only if its tags and attribute names are
      XML names, no element has an attribute twice, and every value has legal characters only and no tab, line feed
      or carriage return. */
  lemma ConformingReadsBackIff(doc: seq<Node>, root: Tree)
    requires Trees(Literal, doc, map[]) == [root]
    ensures ReadXml(Printed(doc)) == Some(root)
      <==> Readable(doc, map[]) && ValuesPass(IsLegal, doc) && ValuesPass(IsOneLined, doc)
  {
    hide *;
    ReadXmlIs(Printed(doc), root);
    ReadableIffLawful(Literal, doc, map[]);
    if Readable(doc, map[]) {
      LegalPrinted(doc);
      ReadableReads(Normal, doc);
      TreesKeptIff(doc, map[]);
    } else if ReadDocument(Normal, Printed(doc)).Some? {
      DocumentIsLawful(Normal, Printed(doc));
    }
  }

  /** From bytes: where the decoder loses no prefix, a conforming reader gets the document out of the decoded text
      under the same condition, whatever the layout. */
  lemma DecodedConformsIff(doc: seq<Node>, l: Layout, root: Tree)
    requires Valid(l) && Events(l.after) == Flatten(doc) && (forall i :: i in l.after ==> R.NamedItem(i))
    requires S.NothingLost(doc, map[], map[]) && Trees(Literal, doc, map[]) == [root]
    ensures D.Decode(File(l)).Ok?
    ensures ReadXml(D.Decode(File(l)).value) == Some(root)
      <==> Readable(doc, map[]) && ValuesPass(IsLegal, doc) && ValuesPass(IsOneLined, doc)
  {
    hide *;
    S.DecodesExactlyWhenNothingIsLost(doc, l);
    ConformingReadsBackIff(doc, root);
  }
}
