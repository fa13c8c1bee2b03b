/** Exactly when the decoder prints the tree, with namespace URIs declared anywhere, again and again.

    The decoder's namespace table forgets a URI at the end of any scope of it. The lemmas follow the table
    beside the proper scope and count the characters that go missing. */
module AxmlScopes {
  import opened Common
  import opened Text
  import opened AxmlDocument
  import opened R = AxmlRoundTrip
  import D = AxmlDecoder

  // ---- the table ----

  // The table after a forest, and after one node.
  function ForestTable(nodes: seq<Node>, table: map<string, string>): map<string, string>
    decreases nodes
  {
    if nodes == [] then table else ForestTable(nodes[1..], NodeTable(nodes[0], table))
  }

  function NodeTable(node: Node, table: map<string, string>): map<string, string>
    decreases node
  {
    match node
    case Element(_, _, kids) => ForestTable(kids, table)
    case Namespace(prefix, uri, body) => ForestTable(body, table[uri := prefix]) - {uri}
  }

  // The lines of a forest as the table has the prefixes.
  function TableLines(nodes: seq<Node>, depth: nat, table: map<string, string>): seq<string>
    decreases nodes
  {
    if nodes == [] then []
    else
      (match nodes[0]
       case Element(tag, attrs, kids) =>
         [Indent(depth) + "<" + tag + AttrText(attrs, table) + ">"]
         + TableLines(kids, depth + 1, table)
         + [Indent(depth) + "</" + tag + ">"]
       case Namespace(prefix, uri, body) => TableLines(body, depth, table[uri := prefix]))
      + TableLines(nodes[1..], depth, NodeTable(nodes[0], table))
  }

  function Printing(v: View, nodes: seq<Node>): View {
    View(v.lines + TableLines(nodes, v.depth, v.scope), v.depth, ForestTable(nodes, v.scope))
  }

  lemma ElementRuns(v: View, tag: string, attrs: seq<Attr>, kids: seq<Node>, nodes: seq<Node>)
    requires nodes != [] && nodes[0] == Element(tag, attrs, kids)
    ensures Printing(Apply(Printing(Apply(v, Open(tag, attrs)), kids), Close(tag)), nodes[1..]) == Printing(v, nodes)
  {
    hide AttrText, Indent;
    var start := Indent(v.depth) + "<" + tag + AttrText(attrs, v.scope) + ">";
    var end := Indent(v.depth) + "</" + tag + ">";
    var inner := TableLines(kids, v.depth + 1, v.scope);
    var rest := TableLines(nodes[1..], v.depth, ForestTable(kids, v.scope));
    assert NodeTable(nodes[0], v.scope) == ForestTable(kids, v.scope);
    assert TableLines(nodes, v.depth, v.scope) == [start] + inner + [end] + rest;
    hide TableLines, ForestTable, NodeTable;
    assert v.lines + [start] + inner + [end] + rest == v.lines + ([start] + inner + [end] + rest);
    ForestTableFirst(nodes, v.scope);
  }

  lemma ForestTableFirst(nodes: seq<Node>, table: map<string, string>)
    requires nodes != []
    ensures ForestTable(nodes, table) == ForestTable(nodes[1..], NodeTable(nodes[0], table))
  {
  }

  lemma NamespaceRuns(v: View, prefix: string, uri: string, body: seq<Node>, nodes: seq<Node>)
    requires nodes != [] && nodes[0] == Namespace(prefix, uri, body)
    ensures Printing(Apply(Printing(Apply(v, OpenScope(prefix, uri)), body), CloseScope(prefix, uri)), nodes[1..])
         == Printing(v, nodes)
  {
    var table := v.scope[uri := prefix];
    var inner := TableLines(body, v.depth, table);
    var rest := TableLines(nodes[1..], v.depth, NodeTable(nodes[0], v.scope));
    assert NodeTable(nodes[0], v.scope) == ForestTable(body, table) - {uri};
    assert TableLines(nodes, v.depth, v.scope) == inner + rest;
    hide TableLines, ForestTable, NodeTable;
    assert v.lines + inner + rest == v.lines + (inner + rest);
    ForestTableFirst(nodes, v.scope);
  }

  /** Running any forest's events prints it with the table's prefixes. */
  lemma {:induction false} RunPrintsTable(v: View, nodes: seq<Node>)
    ensures Run(v, Flatten(nodes)) == Printing(v, nodes)
    decreases nodes
  {
    if nodes == [] {
      assert v.lines + [] == v.lines;
    } else {
      hide Apply, Printing;
      var rest := nodes[1..];
      match nodes[0] {
        case Element(tag, attrs, kids) =>
          RunBracketed(v, Open(tag, attrs), Flatten(kids), Close(tag), Flatten(rest));
          ElementRuns(v, tag, attrs, kids, nodes);
          var v1 := Apply(v, Open(tag, attrs));
          RunPrintsTable(v1, kids);
          RunPrintsTable(Apply(Printing(v1, kids), Close(tag)), rest);
        case Namespace(prefix, uri, body) =>
          RunBracketed(v, OpenScope(prefix, uri), Flatten(body), CloseScope(prefix, uri), Flatten(rest));
          NamespaceRuns(v, prefix, uri, body, nodes);
          var v1 := Apply(v, OpenScope(prefix, uri));
          RunPrintsTable(v1, body);
          RunPrintsTable(Apply(Printing(v1, body), CloseScope(prefix, uri)), rest);
      }
    }
  }

  // ---- what goes missing ----

  // The table never says anything else than the scope; it only says less.
  ghost predicate Says(table: map<string, string>, scope: map<string, string>) {
    forall u :: u in table ==> u in scope && scope[u] == table[u]
  }

  // An attribute whose namespace the scope gives a prefix, and the table has forgotten.
  predicate Loses(a: Attr, scope: map<string, string>, table: map<string, string>) {
    && a.ns.Some? && a.ns.value in scope && a.ns.value !in table
    && scope[a.ns.value] != "" && !IsAndroid(a.ns.value)
  }

  predicate Keeps(attrs: seq<Attr>, scope: map<string, string>, table: map<string, string>) {
    forall k :: 0 <= k < |attrs| ==> !Loses(attrs[k], scope, table)
  }

  // No attribute of the forest comes after the end of an inner scope of its namespace.
  predicate NothingLost(nodes: seq<Node>, scope: map<string, string>, table: map<string, string>)
    decreases nodes
  {
    nodes != [] ==>
      && (match nodes[0]
          case Element(_, attrs, kids) => Keeps(attrs, scope, table) && NothingLost(kids, scope, table)
          case Namespace(prefix, uri, body) => NothingLost(body, scope[uri := prefix], table[uri := prefix]))
      && NothingLost(nodes[1..], scope, NodeTable(nodes[0], table))
  }

  lemma {:induction false} ForestSays(nodes: seq<Node>, table: map<string, string>, scope: map<string, string>)
    requires Says(table, scope)
    ensures Says(ForestTable(nodes, table), scope)
    decreases nodes
  {
    if nodes != [] {
      hide Says;
      NodeSays(nodes[0], table, scope);
      ForestSays(nodes[1..], NodeTable(nodes[0], table), scope);
    }
  }

  lemma {:induction false} NodeSays(node: Node, table: map<string, string>, scope: map<string, string>)
    requires Says(table, scope)
    ensures Says(NodeTable(node, table), scope)
    decreases node
  {
    match node {
      case Element(_, _, kids) => ForestSays(kids, table, scope);
      case Namespace(prefix, uri, body) => ForestSays(body, table[uri := prefix], scope[uri := prefix]);
    }
  }

  lemma NameLoss(a: Attr, scope: map<string, string>, table: map<string, string>)
    requires Says(table, scope)
    ensures Loses(a, scope, table) ==> |AttrSource(a, table)| < |AttrSource(a, scope)|
    ensures !Loses(a, scope, table) ==> AttrSource(a, table) == AttrSource(a, scope)
  {
    hide Escape, Shown, IsAndroid;
  }

  lemma {:induction false} AttrLoss(attrs: seq<Attr>, scope: map<string, string>, table: map<string, string>)
    requires Says(table, scope)
    ensures Keeps(attrs, scope, table) ==> AttrText(attrs, table) == AttrText(attrs, scope)
    ensures |AttrText(attrs, table)| <= |AttrText(attrs, scope)|
    ensures !Keeps(attrs, scope, table) ==> |AttrText(attrs, table)| < |AttrText(attrs, scope)|
    decreases attrs
  {
    hide Says, Loses, AttrSource;
    if attrs != [] {
      NameLoss(attrs[0], scope, table);
      AttrLoss(attrs[1..], scope, table);
      KeepsFirst(attrs, scope, table);
      hide Keeps;
    }
  }

  lemma KeepsFirst(attrs: seq<Attr>, scope: map<string, string>, table: map<string, string>)
    requires attrs != []
    ensures Keeps(attrs, scope, table) <==> !Loses(attrs[0], scope, table) && Keeps(attrs[1..], scope, table)
  {
    hide Loses;
    assert forall k :: 0 < k < |attrs| ==> attrs[1..][k - 1] == attrs[k];
  }

  // All characters of a list of lines.
  function Size(lines: seq<string>): nat {
    if lines == [] then 0 else |lines[0]| + Size(lines[1..])
  }

  lemma {:induction false} SizeConcat(a: seq<string>, b: seq<string>)
    ensures Size(a + b) == Size(a) + Size(b)
  {
    if a == [] {
      assert a + b == b;
    } else {
      assert (a + b)[1..] == a[1..] + b;
      SizeConcat(a[1..], b);
    }
  }

  lemma {:induction false} JoinSize(lines: seq<string>)
    requires lines != []
    ensures |Join(lines, "\n")| == Size(lines) + |lines| - 1
  {
    if |lines| > 1 {
      JoinSize(lines[1..]);
    } else {
      assert lines[1..] == [];
    }
  }

  // `a` is `b` with nothing missing, or shorter.
  ghost predicate Short(a: seq<string>, b: seq<string>, same: bool) {
    |a| == |b| && (if same then a == b else Size(a) < Size(b))
  }

  lemma ShortConcat(a: seq<string>, b: seq<string>, c: seq<string>, d: seq<string>, p: bool, q: bool)
    requires Short(a, b, p) && Short(c, d, q)
    ensures Short(a + c, b + d, p && q)
  {
    SizeConcat(a, c);
    SizeConcat(b, d);
  }

  lemma OneLine(a: string, b: string, same: bool)
    requires if same then a == b else |a| < |b|
    ensures Short([a], [b], same)
  {
    assert [a][1..] == [] && [b][1..] == [];
  }

  lemma {:induction false} ForestLoss(nodes: seq<Node>, depth: nat, scope: map<string, string>, table: map<string, string>)
    requires Says(table, scope)
    ensures Short(TableLines(nodes, depth, table), Lines(nodes, depth, scope), NothingLost(nodes, scope, table))
    decreases nodes
  {
    hide Says, Keeps, Short, AttrText, Indent, NodeTable;
    if nodes == [] {
      NoLines();
    } else {
      NodeSays(nodes[0], table, scope);
      ForestLoss(nodes[1..], depth, scope, NodeTable(nodes[0], table));
      match nodes[0] {
        case Element(tag, attrs, kids) =>
          ForestLoss(kids, depth + 1, scope, table);
          ElementLoss(tag, attrs, kids, depth, scope, table);
          ShortConcat(ElementTableLines(tag, attrs, kids, depth, table), ElementLines(tag, attrs, kids, depth, scope),
                      TableLines(nodes[1..], depth, NodeTable(nodes[0], table)), Lines(nodes[1..], depth, scope),
                      Keeps(attrs, scope, table) && NothingLost(kids, scope, table),
                      NothingLost(nodes[1..], scope, NodeTable(nodes[0], table)));
        case Namespace(prefix, uri, body) =>
          Declared(table, scope, uri, prefix);
          ForestLoss(body, depth, scope[uri := prefix], table[uri := prefix]);
          ShortConcat(TableLines(body, depth, table[uri := prefix]), Lines(body, depth, scope[uri := prefix]),
                      TableLines(nodes[1..], depth, NodeTable(nodes[0], table)), Lines(nodes[1..], depth, scope),
                      NothingLost(body, scope[uri := prefix], table[uri := prefix]),
                      NothingLost(nodes[1..], scope, NodeTable(nodes[0], table)));
      }
    }
  }

  lemma NoLines()
    ensures Short([], [], true)
  {
  }

  lemma Declared(table: map<string, string>, scope: map<string, string>, uri: string, prefix: string)
    requires Says(table, scope)
    ensures Says(table[uri := prefix], scope[uri := prefix])
  {
  }

  function ElementTableLines(tag: string, attrs: seq<Attr>, kids: seq<Node>, depth: nat, table: map<string, string>): seq<string> {
    [Indent(depth) + "<" + tag + AttrText(attrs, table) + ">"]
    + TableLines(kids, depth + 1, table)
    + [Indent(depth) + "</" + tag + ">"]
  }

  function ElementLines(tag: string, attrs: seq<Attr>, kids: seq<Node>, depth: nat, scope: map<string, string>): seq<string> {
    [Indent(depth) + "<" + tag + AttrText(attrs, scope) + ">"]
    + Lines(kids, depth + 1, scope)
    + [Indent(depth) + "</" + tag + ">"]
  }

  lemma ElementLoss(tag: string, attrs: seq<Attr>, kids: seq<Node>, depth: nat,
                    scope: map<string, string>, table: map<string, string>)
    requires Says(table, scope)
    requires Short(TableLines(kids, depth + 1, table), Lines(kids, depth + 1, scope), NothingLost(kids, scope, table))
    ensures Short(ElementTableLines(tag, attrs, kids, depth, table), ElementLines(tag, attrs, kids, depth, scope),
                  Keeps(attrs, scope, table) && NothingLost(kids, scope, table))
  {
    AttrLoss(attrs, scope, table);
    hide Says, Keeps, Short, AttrText, Indent, TableLines, Lines, NothingLost;
    var start, end := Indent(depth) + "<" + tag, Indent(depth) + "</" + tag + ">";
    OneLine(start + AttrText(attrs, table) + ">", start + AttrText(attrs, scope) + ">", Keeps(attrs, scope, table));
    OneLine(end, end, true);
    ShortConcat([start + AttrText(attrs, table) + ">"], [start + AttrText(attrs, scope) + ">"],
                TableLines(kids, depth + 1, table), Lines(kids, depth + 1, scope),
                Keeps(attrs, scope, table), NothingLost(kids, scope, table));
    ShortConcat([start + AttrText(attrs, table) + ">"] + TableLines(kids, depth + 1, table),
                [start + AttrText(attrs, scope) + ">"] + Lines(kids, depth + 1, scope), [end], [end],
                Keeps(attrs, scope, table) && NothingLost(kids, scope, table), true);
  }

  /** Without redeclarations the table is the scope, and nothing is lost. */
  lemma {:induction false} WellFormedLosesNothing(nodes: seq<Node>, scope: map<string, string>)
    requires WellFormed(nodes, scope.Keys)
    ensures NothingLost(nodes, scope, scope) && ForestTable(nodes, scope) == scope
    decreases nodes
  {
    hide Loses;
    if nodes != [] {
      WellFormedLosesNothing(nodes[1..], scope);
      match nodes[0] {
        case Element(tag, attrs, kids) =>
          WellFormedLosesNothing(kids, scope);
          SameScopeKeeps(attrs, scope);
        case Namespace(prefix, uri, body) =>
          var inner := scope[uri := prefix];
          assert inner.Keys == scope.Keys + {uri};
          WellFormedLosesNothing(body, inner);
          assert inner - {uri} == scope;
      }
    }
  }

  lemma SameScopeKeeps(attrs: seq<Attr>, scope: map<string, string>)
    ensures Keeps(attrs, scope, scope)
  {
    hide Contains;
  }

  // ---- the file ----

  /** The decoder prints the tree if and only if no attribute with a prefix of its own comes after the end of an
      inner scope of its namespace; otherwise its text is too short. Every forest with non-empty names and
      every layout of it is covered. */
  lemma DecodesExactlyWhenNothingIsLost(doc: seq<Node>, l: Layout)
    requires Valid(l) && Events(l.after) == Flatten(doc) && forall i :: i in l.after ==> NamedItem(i)
    ensures D.Decode(File(l)) == D.Ok(Printed(doc)) <==> NothingLost(doc, map[], map[])
    ensures !NothingLost(doc, map[], map[]) ==>
      D.Decode(File(l)).Ok? && |D.Decode(File(l)).value| < |Printed(doc)|
  {
    hide Valid, File, Flatten, NamedItem, D.Decode, Run, TableLines, Lines, NothingLost, Join, Size, Events;
    DecoderRunsEvents(l);
    RunPrintsTable(START, doc);
    ForestLoss(doc, 0, map[], map[]);
    var a, b := TableLines(doc, 0, map[]), Lines(doc, 0, map[]);
    OneLine(D.XML_HEADER, D.XML_HEADER, true);
    ShortConcat([D.XML_HEADER], [D.XML_HEADER], a, b, true, NothingLost(doc, map[], map[]));
    JoinSize([D.XML_HEADER] + a);
    JoinSize([D.XML_HEADER] + b);
  }
}
