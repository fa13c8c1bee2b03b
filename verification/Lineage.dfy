/** The migration graph check (`scripts/check-alembic-lineage.py`). */
module Lineage {
  import opened Common

  // Each revision with the revisions it names as its parents; a parent may be missing from the graph.
  type Graph = map<string, seq<string>>

  const MAX_ID: nat := 32

  predicate IsHead(g: Graph, r: string) {
    r in g && forall s <- g.Keys :: r !in g[s]
  }

  // `heads`; the source returns them sorted.
  function Heads(g: Graph): set<string> {
    set r | r in g && IsHead(g, r)
  }

  // ---- ancestry ----

  predicate Edge(g: Graph, child: string, parent: string) {
    child in g && parent in g && parent in g[child]
  }

  ghost predicate Path(g: Graph, p: seq<string>) {
    p != [] && p[0] in g && forall i :: 0 < i < |p| ==> Edge(g, p[i - 1], p[i])
  }

  ghost predicate PathFrom(g: Graph, p: seq<string>, a: string, b: string) {
    Path(g, p) && p[0] == a && p[|p| - 1] == b
  }

  ghost predicate Reaches(g: Graph, a: string, b: string) {
    exists p :: PathFrom(g, p, a, b)
  }

  ghost function Ancestors(g: Graph, head: string): set<string> {
    set r | r in g && Reaches(g, head, r)
  }

  lemma ReachesItself(g: Graph, r: string)
    requires r in g
    ensures Reaches(g, r, r)
  {
    assert PathFrom(g, [r], r, r);
  }

  lemma PathExtend(g: Graph, p: seq<string>, r: string)
    requires Path(g, p) && Edge(g, p[|p| - 1], r)
    ensures Path(g, p + [r])
  {
    hide Edge;
    var q := p + [r];
    forall i | 0 < i < |q| ensures Edge(g, q[i - 1], q[i]) {
      assert i < |p| ==> q[i - 1] == p[i - 1] && q[i] == p[i];
    }
  }

  lemma ReachesParent(g: Graph, a: string, b: string, c: string)
    requires Reaches(g, a, b) && Edge(g, b, c)
    ensures Reaches(g, a, c)
  {
    hide Path, Edge;
    var p :| PathFrom(g, p, a, b);
    PathExtend(g, p, c);
    PathNonempty(g, p);
    assert (p + [c])[0] == a;
    assert PathFrom(g, p + [c], a, c);
  }

  lemma PathNonempty(g: Graph, p: seq<string>)
    requires Path(g, p)
    ensures p != []
  {
  }

  lemma PathPrefix(g: Graph, p: seq<string>, n: nat)
    requires Path(g, p) && 0 < n <= |p|
    ensures Path(g, p[..n])
  {
    hide Edge;
    var q := p[..n];
    forall i | 0 < i < n ensures Edge(g, q[i - 1], q[i]) {
      assert q[i - 1] == p[i - 1] && q[i] == p[i];
    }
  }

  // A set that holds the start and every present parent of its members holds all that is reachable.
  ghost predicate ParentClosed(g: Graph, seen: set<string>) {
    forall r, q :: r in seen && Edge(g, r, q) ==> q in seen
  }

  lemma {:induction false} ClosedHoldsPath(g: Graph, seen: set<string>, p: seq<string>)
    requires ParentClosed(g, seen) && Path(g, p) && p[0] in seen
    ensures p[|p| - 1] in seen
    decreases |p|
  {
    if |p| > 1 {
      var n := |p| - 1;
      assert Edge(g, p[n - 1], p[n]);
      hide Edge;
      var front := p[..n];
      PathPrefix(g, p, n);
      ClosedHoldsPath(g, seen, front);
      assert front[n - 1] == p[n - 1];
    }
  }

  // What the loop of `ancestry` keeps.
  ghost predicate OnStack(stack: seq<string>, r: string) {
    exists k :: 0 <= k < |stack| && stack[k] == r
  }

  ghost predicate Found(g: Graph, head: string, seen: set<string>, stack: seq<string>) {
    && (forall r :: r in seen ==> r in g && Reaches(g, head, r))
    && (forall k :: 0 <= k < |stack| && stack[k] in g ==> Reaches(g, head, stack[k]))
  }

  ghost predicate Pending(g: Graph, head: string, seen: set<string>, stack: seq<string>) {
    && (head in g ==> head in seen || OnStack(stack, head))
    && (forall r, q :: r in seen && Edge(g, r, q) ==> q in seen || OnStack(stack, q))
  }

  // `ancestry`: it ends on every graph, cyclic ones too, and finds exactly the reachable revisions.
  method Ancestry(g: Graph, head: string) returns (seen: set<string>)
    ensures seen == Ancestors(g, head)
  {
    hide Reaches, Found, Pending;
    var stack := [head];
    seen := {};
    AncestryStart(g, head);
    while stack != []
      invariant Found(g, head, seen, stack) && Pending(g, head, seen, stack)
      decreases |g.Keys - seen|, |stack|
    {
      var revision := stack[|stack| - 1];
      var rest := stack[..|stack| - 1];
      if revision in seen || revision !in g {
        AncestrySkip(g, head, seen, stack);
        stack := rest;
        continue;
      }
      AncestryVisit(g, head, seen, stack);
      assert g.Keys - (seen + {revision}) == (g.Keys - seen) - {revision};
      seen := seen + {revision};
      stack := rest + g[revision];
    }
    AncestryDone(g, head, seen);
  }

  lemma AncestryStart(g: Graph, head: string)
    ensures Found(g, head, {}, [head]) && Pending(g, head, {}, [head])
  {
    if head in g {
      ReachesItself(g, head);
    }
    hide Reaches, Edge;
    assert [head][0] == head;
    assert OnStack([head], head);
  }

  lemma PopKeeps(stack: seq<string>, r: string)
    requires stack != [] && OnStack(stack, r) && r != stack[|stack| - 1]
    ensures OnStack(stack[..|stack| - 1], r)
  {
    var k :| 0 <= k < |stack| && stack[k] == r;
    assert stack[..|stack| - 1][k] == r;
  }

  lemma AncestrySkip(g: Graph, head: string, seen: set<string>, stack: seq<string>)
    requires Found(g, head, seen, stack) && Pending(g, head, seen, stack) && stack != []
    requires stack[|stack| - 1] in seen || stack[|stack| - 1] !in g
    ensures Found(g, head, seen, stack[..|stack| - 1]) && Pending(g, head, seen, stack[..|stack| - 1])
  {
    hide Reaches, OnStack;
    forall q | q in g && q !in seen && OnStack(stack, q) ensures OnStack(stack[..|stack| - 1], q) {
      PopKeeps(stack, q);
    }
  }

  lemma PushKeeps(stack: seq<string>, more: seq<string>, r: string)
    requires OnStack(stack, r)
    ensures OnStack(stack + more, r)
  {
    var k :| 0 <= k < |stack| && stack[k] == r;
    assert (stack + more)[k] == r;
  }

  lemma Pushed(stack: seq<string>, more: seq<string>, r: string)
    requires r in more
    ensures OnStack(stack + more, r)
  {
    var k :| 0 <= k < |more| && more[k] == r;
    assert (stack + more)[|stack| + k] == r;
  }

  lemma AncestryVisit(g: Graph, head: string, seen: set<string>, stack: seq<string>)
    requires Found(g, head, seen, stack) && Pending(g, head, seen, stack) && stack != []
    requires stack[|stack| - 1] in g
    ensures var r := stack[|stack| - 1];
      var next := stack[..|stack| - 1] + g[r];
      Found(g, head, seen + {r}, next) && Pending(g, head, seen + {r}, next)
  {
    var n := |stack| - 1;
    var r, rest := stack[n], stack[..n];
    VisitFound(g, head, seen, stack, r);
    hide Found, Reaches;
    forall q | q != r && OnStack(stack, q) ensures OnStack(rest + g[r], q) {
      PopKeeps(stack, q);
      PushKeeps(rest, g[r], q);
    }
    forall q | Edge(g, r, q) ensures OnStack(rest + g[r], q) {
      Pushed(rest, g[r], q);
    }
    hide OnStack, Edge;
  }

  lemma VisitFound(g: Graph, head: string, seen: set<string>, stack: seq<string>, r: string)
    requires Found(g, head, seen, stack) && stack != [] && stack[|stack| - 1] == r && r in g
    ensures Found(g, head, seen + {r}, stack[..|stack| - 1] + g[r])
  {
    hide Reaches;
    var rest, more := stack[..|stack| - 1], g[r];
    forall k | 0 <= k < |rest + more| && (rest + more)[k] in g ensures Reaches(g, head, (rest + more)[k]) {
      if k < |rest| {
        assert (rest + more)[k] == stack[k];
      } else {
        assert (rest + more)[k] == more[k - |rest|];
        ReachesParent(g, head, r, (rest + more)[k]);
      }
    }
  }

  lemma AncestryDone(g: Graph, head: string, seen: set<string>)
    requires Found(g, head, seen, []) && Pending(g, head, seen, [])
    ensures seen == Ancestors(g, head)
  {
    forall r | Reaches(g, head, r) ensures r in seen {
      var p :| PathFrom(g, p, head, r);
      hide Edge;
      ClosedHoldsPath(g, seen, p);
    }
    hide Reaches;
  }

  // ---- one head ----

  // No revision is its own ancestor.
  ghost predicate Acyclic(g: Graph) {
    forall p :: Path(g, p) && |p| >= 2 ==> p[0] != p[|p| - 1]
  }

  lemma {:induction false} DistinctFit(p: seq<string>, s: set<string>)
    requires Distinct(p) && forall i :: 0 <= i < |p| ==> p[i] in s
    ensures |p| <= |s|
    decreases |p|
  {
    if p != [] {
      DistinctFit(p[1..], s - {p[0]});
    }
  }

  lemma PathInGraph(g: Graph, p: seq<string>)
    requires Path(g, p)
    ensures forall i :: 0 <= i < |p| ==> p[i] in g
  {
    forall i | 0 <= i < |p| ensures p[i] in g {
      assert i > 0 ==> Edge(g, p[i - 1], p[i]);
    }
  }

  lemma PathPrepend(g: Graph, p: seq<string>, r: string)
    requires Path(g, p) && Edge(g, r, p[0])
    ensures Path(g, [r] + p)
  {
    var q := [r] + p;
    assert r in g;
    hide Edge;
    forall i | 0 < i < |q| ensures Edge(g, q[i - 1], q[i]) {
      if i > 1 {
        assert Edge(g, p[i - 2], p[i - 1]);
      }
    }
  }

  // A child of the path's start is new to the path.
  lemma ChildIsNew(g: Graph, p: seq<string>, r: string, i: nat)
    requires Acyclic(g) && Path(g, p) && Edge(g, r, p[0]) && i < |p|
    ensures p[i] != r
  {
    PathPrefix(g, p, i + 1);
    PathPrepend(g, p[..i + 1], r);
    var q := [r] + p[..i + 1];
    assert q[0] == r && q[|q| - 1] == p[i];
  }

  // Climbing from a revision ends at a head.
  lemma {:induction false} Climb(g: Graph, p: seq<string>, r: string) returns (h: string)
    requires Acyclic(g) && Path(g, p) && Distinct(p) && p[|p| - 1] == r
    ensures IsHead(g, h) && Reaches(g, h, r)
    decreases |g.Keys| - |p|
  {
    hide *;
    PathNonempty(g, p);
    h := p[0];
    if IsHead(g, h) {
      PathReaches(g, p);
    } else {
      var q := Higher(g, p);
      h := Climb(g, q, r);
    }
  }

  lemma PathReaches(g: Graph, p: seq<string>)
    requires Path(g, p)
    ensures Reaches(g, p[0], p[|p| - 1])
  {
    PathNonempty(g, p);
    hide Path;
    assert PathFrom(g, p, p[0], p[|p| - 1]);
  }

  // One step up.
  lemma Higher(g: Graph, p: seq<string>) returns (q: seq<string>)
    requires Acyclic(g) && Path(g, p) && Distinct(p) && !IsHead(g, p[0])
    ensures Path(g, q) && Distinct(q) && |q| == |p| + 1 <= |g.Keys| && q[|q| - 1] == p[|p| - 1]
  {
    PathInGraph(g, p);
    var child :| child in g && p[0] in g[child];
    assert Edge(g, child, p[0]);
    hide Acyclic, IsHead, Edge;
    forall i | 0 <= i < |p| ensures p[i] != child {
      ChildIsNew(g, p, child, i);
    }
    PathPrepend(g, p, child);
    q := [child] + p;
    hide Path;
    assert forall i :: 0 <= i < |q| ==> q[i] in g.Keys;
    DistinctFit(q, g.Keys);
  }

  /** In a graph without cycles every revision is an ancestor of some head. */
  lemma EveryRevisionHasAHead(g: Graph, r: string) returns (h: string)
    requires Acyclic(g) && r in g
    ensures h in Heads(g) && r in Ancestors(g, h)
  {
    assert Path(g, [r]) && [r][|[r]| - 1] == r;
    hide Acyclic, Path, Reaches;
    h := Climb(g, [r], r);
  }

  // A revision reached from another one is some revision's parent.
  lemma ReachedIsNoHead(g: Graph, a: string, r: string)
    requires Reaches(g, a, r) && a != r
    ensures !IsHead(g, r)
  {
    var p :| PathFrom(g, p, a, r);
    assert Edge(g, p[|p| - 2], p[|p| - 1]);
  }

  lemma NothingAbove(g: Graph, h: string, child: string)
    requires Acyclic(g) && Reaches(g, h, child)
    ensures !Edge(g, child, h)
  {
    var p :| PathFrom(g, p, h, child);
    CannotReturn(g, p, h);
    if Edge(g, child, h) {
      PathExtend(g, p, h);
    }
  }

  lemma CannotReturn(g: Graph, p: seq<string>, h: string)
    requires Acyclic(g) && p != [] && p[0] == h
    ensures !Path(g, p + [h])
  {
    hide Path;
    var q := p + [h];
    assert |q| >= 2 && q[0] == q[|q| - 1];
  }

  /** Without cycles, a revision is the only head exactly when its ancestry is the whole history. */
  lemma OneHeadIsWholeHistory(g: Graph, h: string)
    requires Acyclic(g) && h in g
    ensures Heads(g) == {h} <==> Ancestors(g, h) == g.Keys
  {
    if Heads(g) == {h} {
      forall r | r in g ensures r in Ancestors(g, h) {
        var k := EveryRevisionHasAHead(g, r);
      }
    } else if Ancestors(g, h) == g.Keys {
      hide Acyclic, Reaches;
      forall child | child in g ensures h !in g[child] {
        assert child in Ancestors(g, h);
        NothingAbove(g, h, child);
      }
      assert h in Heads(g);
      forall r | r in g && r != h ensures r !in Heads(g) {
        assert r in Ancestors(g, h);
        ReachedIsNoHead(g, h, r);
      }
      assert false;
    }
  }

  // ---- cycles ----

  // Every cyclic path starts at a revision the head reaches.
  ghost predicate CyclesReached(g: Graph, h: string) {
    forall p :: Path(g, p) && |p| >= 2 && p[0] == p[|p| - 1] ==> Reaches(g, h, p[0])
  }

  lemma {:induction false} ReachesAlong(g: Graph, a: string, p: seq<string>)
    requires Path(g, p) && Reaches(g, a, p[0])
    ensures Reaches(g, a, p[|p| - 1])
    decreases |p|
  {
    if |p| > 1 {
      var n := |p| - 1;
      assert Edge(g, p[n - 1], p[n]);
      PathPrefix(g, p, n);
      hide Path, Edge, Reaches;
      ReachesAlong(g, a, p[..n]);
      ReachesParent(g, a, p[n - 1], p[n]);
    }
  }

  lemma PathSuffix(g: Graph, p: seq<string>, n: nat)
    requires Path(g, p) && n < |p|
    ensures Path(g, p[n..])
  {
    hide Edge;
    PathInGraph(g, p);
    var q := p[n..];
    forall i | 0 < i < |q| ensures Edge(g, q[i - 1], q[i]) {
      assert q[i - 1] == p[n + i - 1] && q[i] == p[n + i];
    }
  }

  // Above an unreached revision everything is unreached.
  lemma UnreachedAbove(g: Graph, h: string, p: seq<string>, i: nat)
    requires Path(g, p) && i < |p| && !Reaches(g, h, p[|p| - 1])
    ensures !Reaches(g, h, p[i])
  {
    PathSuffix(g, p, i);
    hide Path, Reaches;
    if Reaches(g, h, p[i]) {
      ReachesAlong(g, h, p[i..]);
    }
  }

  // Climbing from an unreached revision ends at another head.
  lemma {:induction false} ClimbUnreached(g: Graph, h: string, p: seq<string>) returns (k: string)
    requires CyclesReached(g, h) && h in g && Path(g, p) && Distinct(p) && !Reaches(g, h, p[|p| - 1])
    ensures IsHead(g, k) && k != h
    decreases |g.Keys| - |p|
  {
    hide *;
    PathNonempty(g, p);
    k := p[0];
    if IsHead(g, k) {
      UnreachedAbove(g, h, p, 0);
      ReachesItself(g, h);
    } else {
      var q := HigherUnreached(g, h, p);
      k := ClimbUnreached(g, h, q);
    }
  }

  // One step up.
  lemma HigherUnreached(g: Graph, h: string, p: seq<string>) returns (q: seq<string>)
    requires CyclesReached(g, h) && Path(g, p) && Distinct(p) && !Reaches(g, h, p[|p| - 1]) && !IsHead(g, p[0])
    ensures Path(g, q) && Distinct(q) && |q| == |p| + 1 <= |g.Keys| && q[|q| - 1] == p[|p| - 1]
  {
    PathInGraph(g, p);
    var child :| child in g && p[0] in g[child];
    assert Edge(g, child, p[0]);
    hide CyclesReached, Reaches, IsHead, Edge;
    forall i | 0 <= i < |p| ensures p[i] != child {
      UnreachedAbove(g, h, p, i);
      NoUnreachedCycle(g, h, p, child, i);
    }
    PathPrepend(g, p, child);
    q := [child] + p;
    hide Path;
    assert forall i :: 0 <= i < |q| ==> q[i] in g.Keys;
    DistinctFit(q, g.Keys);
  }

  lemma NoUnreachedCycle(g: Graph, h: string, p: seq<string>, child: string, i: nat)
    requires CyclesReached(g, h) && Path(g, p) && Edge(g, child, p[0]) && i < |p| && !Reaches(g, h, p[i])
    ensures p[i] != child
  {
    hide *;
    PathPrefix(g, p, i + 1);
    CutKeepsFirst(p, i);
    PathPrepend(g, p[..i + 1], child);
    if p[i] == child {
      CycleIsReached(g, h, [child] + p[..i + 1]);
    }
  }

  lemma CutKeepsFirst(p: seq<string>, i: nat)
    requires i < |p|
    ensures p[..i + 1] != [] && p[..i + 1][0] == p[0]
    ensures forall c :: ([c] + p[..i + 1])[0] == c && ([c] + p[..i + 1])[|[c] + p[..i + 1]| - 1] == p[i]
  {
  }

  lemma CycleIsReached(g: Graph, h: string, q: seq<string>)
    requires CyclesReached(g, h) && Path(g, q) && |q| >= 2 && q[0] == q[|q| - 1]
    ensures Reaches(g, h, q[0])
  {
    hide Path, Reaches;
  }

  lemma OnlyHead(g: Graph, h: string, k: string)
    requires Heads(g) == {h} && IsHead(g, k)
    ensures k == h
  {
    assert k in Heads(g);
  }

  /** On any graph, cycles and all: a single head's ancestry is the whole history if and only if the head reaches
      every cycle. */
  lemma OneHeadIsWholeHistoryIff(g: Graph, h: string)
    requires Heads(g) == {h}
    ensures Ancestors(g, h) == g.Keys <==> CyclesReached(g, h)
  {
    assert h in Heads(g);
    if Ancestors(g, h) == g.Keys {
      forall p | Path(g, p) && |p| >= 2 && p[0] == p[|p| - 1] ensures Reaches(g, h, p[0]) {
        assert p[0] in Ancestors(g, h);
      }
    } else if CyclesReached(g, h) {
      var r :| r in g && r !in Ancestors(g, h);
      assert Path(g, [r]) && [r][|[r]| - 1] == r;
      hide CyclesReached, Path, Reaches, IsHead;
      var k := ClimbUnreached(g, h, [r]);
      OnlyHead(g, h, k);
    }
  }

  /** A cycle below the head does no harm; one beside it hides behind the single head. */
  lemma CycleHides()
    ensures var g: Graph := map["c" := [], "a" := ["b"], "b" := ["a"]];
      Heads(g) == {"c"} && Ancestors(g, "c") == {"c"}
    ensures var g: Graph := map["h" := ["a"], "a" := ["b"], "b" := ["a"]];
      Heads(g) == {"h"} && Ancestors(g, "h") == g.Keys
  {
    CycleBeside();
    CycleBelow();
  }

  lemma CycleBeside()
    ensures var g: Graph := map["c" := [], "a" := ["b"], "b" := ["a"]];
      Heads(g) == {"c"} && Ancestors(g, "c") == {"c"}
  {
    var g: Graph := map["c" := [], "a" := ["b"], "b" := ["a"]];
    assert "b" in g["a"] && "a" in g["b"];
    ReachesItself(g, "c");
    forall r | Reaches(g, "c", r) ensures r == "c" {
      var p :| PathFrom(g, p, "c", r);
      ClosedHoldsPath(g, {"c"}, p);
    }
    hide Reaches;
  }

  lemma CycleBelow()
    ensures var g: Graph := map["h" := ["a"], "a" := ["b"], "b" := ["a"]];
      Heads(g) == {"h"} && Ancestors(g, "h") == g.Keys
  {
    var g: Graph := map["h" := ["a"], "a" := ["b"], "b" := ["a"]];
    assert "b" in g["a"] && "a" in g["b"];
    assert Edge(g, "h", "a") && Edge(g, "a", "b");
    ReachesItself(g, "h");
    ReachesParent(g, "h", "h", "a");
    ReachesParent(g, "h", "a", "b");
    hide Reaches;
  }

  // ---- merging ----

  // `{**base, **current}`: the branch's entries win.
  function Merged(base: Graph, current: Graph): Graph {
    base + current
  }

  // `main`'s exit code; `base` is None when git cannot read the ref.
  function ExitCode(current: Graph, base: Option<Graph>): nat {
    if current == map[] then 2
    else if exists r :: r in current && |r| > MAX_ID then 1
    else match base
      case None => 0
      case Some(b) => if |Heads(Merged(b, current))| == 1 then 0 else 1
  }

  /** The exit code: 2 exactly for a tree without revisions; 1 exactly if some id is longer than 32 characters, or the
      base can be read and the union has no head or several; 0 otherwise, and so whenever the base cannot be read. A head
      of the union is a revision of either that none of the union names, where the branch's entry stands for the
      base's. */
  lemma ExitCodeIs(current: Graph, base: Option<Graph>)
    ensures var long := exists r :: r in current && |r| > 32;
      && (ExitCode(current, base) == 2 <==> forall r :: r !in current)
      && (ExitCode(current, base) == 1 <==>
            (exists r :: r in current) && (long || (base.Some? && |Heads(Merged(base.value, current))| != 1)))
      && ExitCode(current, base) <= 2
    ensures base.Some? ==> forall r :: r in Heads(Merged(base.value, current)) <==>
      && (r in current || r in base.value)
      && (forall s :: s in current ==> r !in current[s])
      && (forall s :: s in base.value && s !in current ==> r !in base.value[s])
  {
    assert current == map[] <==> forall r :: r !in current;
  }

  ghost predicate Agree(base: Graph, current: Graph) {
    forall r :: r in base && r in current ==> base[r] == current[r]
  }

  ghost predicate Complete(g: Graph) {
    forall r, k :: r in g && 0 <= k < |g[r]| ==> g[r][k] in g
  }

  /** A branch that only lacks revisions of the base passes exactly when the base itself has one head. */
  lemma BehindIsNoProblem(base: Graph, current: Graph)
    requires current != map[] && (forall r :: r in current ==> |r| <= MAX_ID)
    requires Agree(base, current) && current.Keys <= base.Keys
    ensures Merged(base, current) == base
    ensures ExitCode(current, Some(base)) == 0 <==> |Heads(base)| == 1
  {
    assert Merged(base, current) == base;
  }

  lemma {:induction false} OneElement(s: set<string>) returns (h: string)
    requires |s| == 1
    ensures s == {h}
  {
    h :| h in s;
    assert |s - {h}| == 0;
  }

  // What a merge really leaves: the union without the revisions the branch has deleted.
  function Left(base: Graph, current: Graph, deleted: set<string>): Graph {
    Merged(base, current) - deleted
  }

  lemma LeftIsClosed(base: Graph, current: Graph, deleted: set<string>, p: seq<string>)
    requires Complete(Left(base, current, deleted)) && Path(Merged(base, current), p) && p[0] !in deleted
    ensures p[|p| - 1] !in deleted
  {
    var g, left := Merged(base, current), Left(base, current, deleted);
    forall r, q | r in left.Keys && Edge(g, r, q) ensures q in left.Keys {
      assert left[r] == g[r];
      var k :| 0 <= k < |g[r]| && g[r][k] == q;
      assert left[r][k] in left;
    }
    assert ParentClosed(g, left.Keys);
    ClosedHoldsPath(g, left.Keys, p);
  }

  /** When the check looks at the heads that the merge leaves: for a branch that deletes some of the base's revisions
      and leaves no revision without its parents, the union has the heads of what is left if and only if nothing was
      deleted. The exit code can be right all the same; `VerdictRightIff` says when. */
  lemma DeletionsAreNotSeen(base: Graph, current: Graph, deleted: set<string>)
    requires Acyclic(Merged(base, current)) && deleted <= base.Keys - current.Keys
    requires Complete(Left(base, current, deleted))
    ensures Heads(Merged(base, current)) == Heads(Left(base, current, deleted)) <==> deleted == {}
  {
    var g, left := Merged(base, current), Left(base, current, deleted);
    if deleted == {} {
      assert left == g;
    } else {
      var d :| d in deleted;
      var h := EveryRevisionHasAHead(g, d);
      var p :| PathFrom(g, p, h, d);
      if h !in deleted {
        LeftIsClosed(base, current, deleted, p);
      }
      hide Acyclic, Complete, Reaches, IsHead;
      assert h in Heads(g) && h !in left;
      assert h !in Heads(left);
    }
  }

  /** The smallest case: the branch deletes the second head of the base, and the check still counts it. */
  lemma DeletedHeadStillCounts()
    ensures var base: Graph := map["r" := [], "a" := ["r"], "b" := ["r"]];
      var branch: Graph := map["r" := [], "a" := ["r"]];
      Heads(branch) == {"a"} && Heads(Merged(base, branch)) == {"a", "b"} && ExitCode(branch, Some(base)) == 1
  {
    var base: Graph := map["r" := [], "a" := ["r"], "b" := ["r"]];
    var branch: Graph := map["r" := [], "a" := ["r"]];
    assert "r" in branch["a"] && "r" in base["a"];
    assert Merged(base, branch) == base;
    assert |{"a", "b"}| == 2;
    assert forall r :: r in branch ==> |r| <= MAX_ID;
  }

  /** A passing check means that one revision's ancestry is the whole union of base and branch. */
  lemma PassingUnionIsOneHistory(current: Graph, base: Graph) returns (h: string)
    requires ExitCode(current, Some(base)) == 0 && Acyclic(Merged(base, current))
    ensures Heads(Merged(base, current)) == {h}
    ensures Ancestors(Merged(base, current), h) == base.Keys + current.Keys
  {
    var g := Merged(base, current);
    h := OneElement(Heads(g));
    assert h in Heads(g);
    hide Acyclic, Reaches, IsHead;
    OneHeadIsWholeHistory(g, h);
    assert g.Keys == base.Keys + current.Keys;
  }

  // ---- the verdict against what the merge leaves ----

  // Remaining revisions with children, all of them deleted: new heads that the union does not show.
  function Exposed(g: Graph, deleted: set<string>): set<string> {
    set r | r in g && r !in deleted && !IsHead(g, r) && forall s <- g.Keys :: r in g[s] ==> s in deleted
  }

  /** Deleting revisions from any graph leaves its remaining heads and the exposed revisions as heads. */
  lemma HeadsLeft(g: Graph, deleted: set<string>)
    ensures Heads(g - deleted) == (Heads(g) - deleted) + Exposed(g, deleted)
    ensures |Heads(g - deleted)| == |Heads(g) - deleted| + |Exposed(g, deleted)|
  {
    var left := g - deleted;
    forall r | r in left
      ensures IsHead(left, r) <==> IsHead(g, r) || forall s <- g.Keys :: r in g[s] ==> s in deleted
    {
      assert forall s :: s in left <==> s in g && s !in deleted;
    }
    assert (Heads(g) - deleted) !! Exposed(g, deleted);
  }

  /** The exit code agrees with what the merge leaves if and only if the union has one head exactly when its remaining
      heads and the exposed revisions are one together. */
  lemma VerdictRightIff(current: Graph, base: Graph, deleted: set<string>)
    requires current != map[] && (forall r :: r in current ==> |r| <= MAX_ID)
    ensures var g := Merged(base, current);
      (ExitCode(current, Some(base)) == 0 <==> |Heads(Left(base, current, deleted))| == 1)
      <==> (|Heads(g)| == 1 <==> |Heads(g) - deleted| + |Exposed(g, deleted)| == 1)
  {
    hide Heads, Exposed;
    HeadsLeft(Merged(base, current), deleted);
  }

  // `alembic upgrade head` has one target, and reaching it applies everything.
  ghost predicate Deployable(g: Graph) {
    exists h :: h in g && Ancestors(g, h) == g.Keys
  }

  lemma DeployableIff(g: Graph)
    requires Acyclic(g)
    ensures Deployable(g) <==> |Heads(g)| == 1
  {
    if |Heads(g)| == 1 {
      var h := OneElement(Heads(g));
      assert h in Heads(g);
      hide Acyclic, Ancestors, IsHead;
      OneHeadIsWholeHistory(g, h);
    }
    if Deployable(g) {
      var h :| h in g && Ancestors(g, h) == g.Keys;
      hide Acyclic, Ancestors, IsHead;
      OneHeadIsWholeHistory(g, h);
    }
  }

  // A path in what is left is a path in the union.
  lemma LeftPath(g: Graph, deleted: set<string>, p: seq<string>)
    requires Path(g - deleted, p)
    ensures Path(g, p)
  {
    forall i | 0 < i < |p| ensures Edge(g, p[i - 1], p[i]) {
      assert Edge(g - deleted, p[i - 1], p[i]);
    }
  }

  lemma LeftAcyclic(g: Graph, deleted: set<string>)
    requires Acyclic(g)
    ensures Acyclic(g - deleted)
  {
    forall p | Path(g - deleted, p) && |p| >= 2 ensures p[0] != p[|p| - 1] {
      LeftPath(g, deleted, p);
    }
  }

  // The only head is above everything, so a deletion that leaves no orphan takes it first.
  lemma DeletedHead(base: Graph, current: Graph, deleted: set<string>, h: string)
    requires Acyclic(Merged(base, current)) && deleted <= base.Keys - current.Keys && deleted != {}
    requires Complete(Left(base, current, deleted)) && Heads(Merged(base, current)) == {h}
    ensures h in deleted
  {
    var g := Merged(base, current);
    var d :| d in deleted;
    var k := EveryRevisionHasAHead(g, d);
    var p :| PathFrom(g, p, k, d);
    if h !in deleted {
      LeftIsClosed(base, current, deleted, p);
    }
  }

  lemma PassingHasOneHead(current: Graph, base: Graph) returns (h: string)
    requires ExitCode(current, Some(base)) == 0
    ensures Heads(Merged(base, current)) == {h}
  {
    h := OneElement(Heads(Merged(base, current)));
  }

  // With the only head deleted, what is left has the exposed heads alone.
  lemma ExposedAreHeads(g: Graph, deleted: set<string>, h: string)
    requires Heads(g) == {h} && h in deleted
    ensures |Heads(g - deleted)| == |Exposed(g, deleted)|
  {
    hide *;
    HeadsLeft(g, deleted);
    assert {h} - deleted == {};
  }

  /** For a branch without cycles that leaves no revision without its parents, a passing check is right about what the
      merge leaves if and only if the branch deletes nothing or exposes exactly one revision. */
  lemma PassingIsDeployableIff(current: Graph, base: Graph, deleted: set<string>)
    requires ExitCode(current, Some(base)) == 0 && Acyclic(Merged(base, current))
    requires deleted <= base.Keys - current.Keys && Complete(Left(base, current, deleted))
    ensures Deployable(Left(base, current, deleted))
      <==> deleted == {} || |Exposed(Merged(base, current), deleted)| == 1
  {
    hide ExitCode, Acyclic, Complete, Heads, Exposed, Deployable, Merged;
    var g := Merged(base, current);
    var h := PassingHasOneHead(current, base);
    LeftAcyclic(g, deleted);
    DeployableIff(g - deleted);
    if deleted == {} {
      assert g - deleted == g;
      assert |{h}| == 1;
    } else {
      DeletedHead(base, current, deleted, h);
      ExposedAreHeads(g, deleted, h);
    }
  }

  /** A branch that is up to date with its base deletes whatever it lacks of it. The merge then leaves the branch's own
      graph, and the exit code is right if and only if the union and the branch agree on having one head; a passing one
      is right if and only if the branch has one. */
  lemma UpToDateIsRightIff(current: Graph, base: Graph)
    requires current != map[] && (forall r :: r in current ==> |r| <= MAX_ID)
    ensures Left(base, current, base.Keys - current.Keys) == current
    ensures (ExitCode(current, Some(base)) == 0 <==> |Heads(current)| == 1)
      <==> (|Heads(Merged(base, current))| == 1 <==> |Heads(current)| == 1)
    ensures ExitCode(current, Some(base)) == 0 && Acyclic(current)
      ==> (Deployable(current) <==> |Heads(current)| == 1)
  {
    assert Left(base, current, base.Keys - current.Keys) == current;
    hide Heads, Acyclic, Deployable;
    if Acyclic(current) {
      DeployableIff(current);
    }
  }

  lemma MergedBaseHead()
    ensures var base: Graph := map["r" := [], "a" := ["r"], "b" := ["r"], "m" := ["a", "b"]];
      Heads(base) == {"m"}
  {
    var base: Graph := map["r" := [], "a" := ["r"], "b" := ["r"], "m" := ["a", "b"]];
    assert base["m"][0] == "a" && base["m"][1] == "b" && base["a"][0] == "r";
  }

  lemma TwoHeadBranch()
    ensures var branch: Graph := map["r" := [], "a" := ["r"], "b" := ["r"]];
      Heads(branch) == {"a", "b"} && Complete(branch)
  {
    var branch: Graph := map["r" := [], "a" := ["r"], "b" := ["r"]];
    assert branch["a"][0] == "r";
  }

  /** The harmful case: the branch deletes the revision that merged two heads, the check passes on the union, and the
      merge leaves both heads. */
  lemma DeletedMergePasses()
    ensures var base: Graph := map["r" := [], "a" := ["r"], "b" := ["r"], "m" := ["a", "b"]];
      var branch: Graph := map["r" := [], "a" := ["r"], "b" := ["r"]];
      && ExitCode(branch, Some(base)) == 0
      && Complete(Left(base, branch, {"m"})) && Heads(Left(base, branch, {"m"})) == {"a", "b"}
  {
    var base: Graph := map["r" := [], "a" := ["r"], "b" := ["r"], "m" := ["a", "b"]];
    var branch: Graph := map["r" := [], "a" := ["r"], "b" := ["r"]];
    MergedBaseHead();
    TwoHeadBranch();
    hide Heads, Complete;
    assert Merged(base, branch) == base;
    assert Left(base, branch, {"m"}) == branch;
    assert "r" in branch && branch != map[];
    assert forall r :: r in branch ==> |r| <= MAX_ID;
    assert |{"m"}| == 1;
  }

  // From a revision of a complete base, ancestry stays inside the base.
  lemma StaysInBase(base: Graph, current: Graph, h: string, r: string)
    requires Complete(base) && Agree(base, current) && h in base && Reaches(Merged(base, current), h, r)
    ensures r in base
  {
    var g := Merged(base, current);
    assert forall q :: q in base ==> g[q] == base[q];
    assert ParentClosed(g, base.Keys);
    var p :| PathFrom(g, p, h, r);
    ClosedHoldsPath(g, base.Keys, p);
  }

  lemma OldHeadStays(base: Graph, current: Graph, h: string)
    requires Agree(base, current) && IsHead(base, h)
    requires forall r :: r in current && r !in base ==> h !in current[r]
    ensures IsHead(Merged(base, current), h)
  {
    var g := Merged(base, current);
    forall s | s in g ensures h !in g[s] {
      assert s in base ==> g[s] == base[s];
    }
  }

  /** A branch whose new revisions do not continue the base's head leaves that head and adds another,
      so the check fails. */
  lemma SiblingSplits(base: Graph, current: Graph, h: string, added: string) returns (other: string)
    requires Complete(base) && Agree(base, current) && Acyclic(Merged(base, current))
    requires h in Heads(base) && added in current && added !in base
    requires forall r :: r in current && r !in base ==> h !in current[r]
    ensures other != h && {h, other} <= Heads(Merged(base, current))
    ensures ExitCode(current, Some(base)) != 0
  {
    var g := Merged(base, current);
    hide Acyclic, Complete, Agree, Reaches;
    OldHeadStays(base, current, h);
    other := EveryRevisionHasAHead(g, added);
    if other == h {
      StaysInBase(base, current, h, added);
    }
    hide IsHead;
    assert h in Heads(g) && other in Heads(g);
    if |Heads(g)| == 1 {
      var only := OneElement(Heads(g));
      assert false;
    }
  }

  /** Two branches that each continue the same head pass one at a time and split once both are in. */
  lemma IndependentBranchesSplit(base: Graph, h: string, a: string, b: string)
    requires Heads(base) == {h} && Complete(base) && a !in base && b !in base && a != b
    ensures Heads(base[a := [h]]) == {a} && Heads(base[b := [h]]) == {b}
    ensures Heads(base[a := [h]][b := [h]]) == {a, b}
  {
    assert h in Heads(base);
    Continue(base, h, a);
    Continue(base, h, b);
    var g := base[a := [h]];
    CompleteStays(base, h, a);
    BesideHead(g, h, a, b);
  }

  lemma CompleteStays(g: Graph, h: string, a: string)
    requires Complete(g) && h in g && a !in g
    ensures Complete(g[a := [h]])
  {
  }

  lemma Unnamed(g: Graph, r: string, s: string)
    requires Complete(g) && r !in g && s in g
    ensures r !in g[s]
  {
  }

  lemma Continue(g: Graph, h: string, a: string)
    requires Heads(g) == {h} && Complete(g) && a !in g
    ensures Heads(g[a := [h]]) == {a}
  {
    var next := g[a := [h]];
    assert h in Heads(g);
    forall s | s in next ensures a !in next[s] {
      if s in g {
        Unnamed(g, a, s);
      }
    }
    assert h in next[a];
    forall r | r in g && r != h ensures !IsHead(next, r) {
      assert r !in Heads(g);
      var s :| s in g && r in g[s];
      assert r in next[s];
    }
    hide Complete;
  }

  lemma BesideHead(g: Graph, h: string, a: string, b: string)
    requires Heads(g) == {a} && Complete(g) && h in g && h != a && b !in g
    ensures Heads(g[b := [h]]) == {a, b}
  {
    var next := g[b := [h]];
    assert a in Heads(g);
    forall s | s in next ensures b !in next[s] && a !in next[s] {
      if s in g {
        Unnamed(g, b, s);
      }
    }
    forall r | r in g && r != a ensures !IsHead(next, r) {
      assert r !in Heads(g);
      var s :| s in g && r in g[s];
      assert r in next[s];
    }
    hide Complete;
  }

  /** The suggested fix: a new revision with the given parents becomes the only head exactly when it
      names every head and neither it nor any revision names it. */
  lemma MergeRevision(g: Graph, m: string, parents: seq<string>)
    requires m !in g
    ensures Heads(g[m := parents]) == {m} <==>
      && (forall h :: h in Heads(g) ==> h in parents)
      && m !in parents
      && (forall s :: s in g ==> m !in g[s])
  {
    var next := g[m := parents];
    assert IsHead(next, m) <==> m !in parents && (forall s :: s in g ==> m !in g[s]) by {
      assert forall s :: s in g ==> next[s] == g[s];
      assert next[m] == parents;
    }
    forall r | r in g ensures IsHead(next, r) <==> IsHead(g, r) && r !in parents {
      HeadAfter(g, m, parents, r);
    }
    hide IsHead;
    assert forall r :: r in g ==> r != m;
    if Heads(next) == {m} {
      forall h | h in Heads(g) ensures h in parents {
        assert h !in Heads(next);
      }
      assert m in Heads(next);
    }
  }

  lemma HeadAfter(g: Graph, m: string, parents: seq<string>, r: string)
    requires m !in g && r in g
    ensures IsHead(g[m := parents], r) <==> IsHead(g, r) && r !in parents
  {
    var next := g[m := parents];
    assert next[m] == parents;
    assert forall s :: s in g ==> next[s] == g[s];
  }
}
