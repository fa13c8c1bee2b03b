/** The on-box helper's file watch: debounce and cooldown (`_watch_run_inotify`, `_fire_watch_site`). */
module Watch {
  import opened Common

  // `key` names the site's cooldown file.
  datatype Site = Site(root: string, id: string, key: string)

  // A scan requested from the server; `stored` says that its time went into the cooldown file.
  datatype Request = Request(root: string, key: string, at: real, stored: bool)

  // Last change seen per root; the cooldown files; the requests posted.
  datatype State = State(pending: map<string, real>, marks: map<string, real>, requests: seq<Request>)

  // What firing a site meets: the wall clock, whether the cooldown file can be written, whether the root is
  // accepted and a directory, and the scan id in the server's reply, "" if the request failed.
  datatype Moment = Moment(wall: real, stored: bool, accepted: bool, directory: bool, reply: string) {
    predicate Usable() {
      accepted && directory
    }
  }

  // What a firing goes on to: it returns a code, polls, or scans the root under the reply's id.
  datatype Next = Return(code: nat) | Poll | Scan(root: string, id: string)

  // One turn of the loop: the monotonic clock, the line read, and what firing each site would meet.
  datatype Round = Round(now: real, line: Option<string>, moments: seq<Moment>)

  // ---- one turn ----

  predicate Covers(root: string, changed: string) {
    changed == root || root + "/" <= changed
  }

  // The first site whose root covers the path; |sites| if none does.
  function Route(sites: seq<Site>, changed: string): (k: nat)
    ensures k <= |sites|
    ensures k < |sites| ==> Covers(sites[k].root, changed)
    ensures forall i :: 0 <= i < k ==> !Covers(sites[i].root, changed)
  {
    if sites == [] then 0
    else if Covers(sites[0].root, changed) then 0
    else 1 + Route(sites[1..], changed)
  }

  // The root a turn's line, or a line, is a change of.
  function Touched(sites: seq<Site>, r: Round): Option<string> {
    if r.line.Some? then RootOf(sites, r.line.value) else None
  }

  function RootOf(sites: seq<Site>, line: string): Option<string> {
    if line == "" || '\0' in line then None
    else
      var k := Route(sites, line);
      if k < |sites| then Some(sites[k].root) else None
  }

  function Noted(sites: seq<Site>, pending: map<string, real>, r: Round): map<string, real> {
    match Touched(sites, r)
    case None => pending
    case Some(root) => pending[root := r.now]
  }

  predicate Expired(pending: map<string, real>, root: string, now: real, debounce: real) {
    root in pending && now - pending[root] >= debounce
  }

  // The pass over the sites: what stays pending, and the places of the sites to fire.
  datatype Pass = Pass(pending: map<string, real>, fired: seq<nat>)

  function Swept(sites: seq<Site>, n: nat, pending: map<string, real>, now: real, debounce: real): (p: Pass)
    requires n <= |sites|
    ensures forall k :: 0 <= k < |p.fired| ==> p.fired[k] < n
  {
    if n == 0 then Pass(pending, [])
    else
      var before := Swept(sites, n - 1, pending, now, debounce);
      var root := sites[n - 1].root;
      if Expired(before.pending, root, now, debounce) then Pass(before.pending - {root}, before.fired + [n - 1]) else before
  }

  // `_watch_cooldown_remaining(...) > 0`
  predicate Cooling(marks: map<string, real>, key: string, cooldown: real, wall: real) {
    key in marks && marks[key] + cooldown > wall
  }

  // `_fire_watch_site`; a site without an id only polls.
  function Fire(st: State, site: Site, m: Moment, cooldown: real): State {
    if !m.Usable() || site.id == "" || Cooling(st.marks, site.key, cooldown, m.wall) then st
    else st.(
      marks := if m.stored then st.marks[site.key := m.wall] else st.marks,
      requests := st.requests + [Request(site.root, site.key, m.wall, m.stored)])
  }

  function AfterFire(st: State, site: Site, m: Moment, cooldown: real): Next {
    if !m.accepted then Return(2)
    else if !m.directory then Return(3)
    else if site.id == "" then Poll
    else if Cooling(st.marks, site.key, cooldown, m.wall) then Return(0)
    else if m.reply != "" then Scan(site.root, m.reply)
    else Poll
  }

  function FireAll(st: State, sites: seq<Site>, fired: seq<nat>, moments: seq<Moment>, cooldown: real): State
    requires |moments| == |sites| && forall k :: 0 <= k < |fired| ==> fired[k] < |sites|
    decreases |fired|
  {
    if fired == [] then st
    else
      var k := |fired| - 1;
      Fire(FireAll(st, sites, fired[..k], moments, cooldown), sites[fired[k]], moments[fired[k]], cooldown)
  }

  function Turn(st: State, sites: seq<Site>, r: Round, debounce: real, cooldown: real): State
    requires |r.moments| == |sites|
  {
    var p := Swept(sites, |sites|, Noted(sites, st.pending, r), r.now, debounce);
    FireAll(st.(pending := p.pending), sites, p.fired, r.moments, cooldown)
  }

  ghost predicate Fit(sites: seq<Site>, rounds: seq<Round>) {
    forall k :: 0 <= k < |rounds| ==> |rounds[k].moments| == |sites|
  }

  function Watched(st: State, sites: seq<Site>, rounds: seq<Round>, debounce: real, cooldown: real): State
    requires Fit(sites, rounds)
    decreases |rounds|
  {
    if rounds == [] then st
    else Turn(Watched(st, sites, rounds[..|rounds| - 1], debounce, cooldown), sites, rounds[|rounds| - 1], debounce, cooldown)
  }

  class Watcher {
    var pending: map<string, real>
    var marks: map<string, real>
    var requests: seq<Request>

    function Now(): State reads this {
      State(pending, marks, requests)
    }

    // The loop, up to the end of the event stream.
    method Run(sites: seq<Site>, rounds: seq<Round>, debounce: real, cooldown: real)
      requires Fit(sites, rounds)
      modifies this
      ensures Now() == Watched(old(Now()), sites, rounds, debounce, cooldown)
    {
      hide Turn, Fire, Swept;
      for k := 0 to |rounds|
        invariant Now() == Watched(old(Now()), sites, rounds[..k], debounce, cooldown)
      {
        assert rounds[..k + 1][..k] == rounds[..k];
        Round(sites, rounds[k], debounce, cooldown);
      }
      assert rounds[..|rounds|] == rounds;
    }

    method Round(sites: seq<Site>, r: Round, debounce: real, cooldown: real)
      requires |r.moments| == |sites|
      modifies this
      ensures Now() == Turn(old(Now()), sites, r, debounce, cooldown)
    {
      hide Fire, Route, Expired;
      if r.line.Some? && r.line.value != "" && '\0' !in r.line.value {
        var k := Route(sites, r.line.value);
        if k < |sites| {
          pending := pending[sites[k].root := r.now];
        }
      }
      var fired := Sweep(sites, r.now, debounce);
      ghost var start := Now();
      for k := 0 to |fired|
        invariant Now() == FireAll(start, sites, fired[..k], r.moments, cooldown)
      {
        assert fired[..k + 1][..k] == fired[..k];
        var _ := FireSite(sites[fired[k]], r.moments[fired[k]], cooldown);
      }
      assert fired[..|fired|] == fired;
    }

    method Sweep(sites: seq<Site>, now: real, debounce: real) returns (fired: seq<nat>)
      modifies this`pending
      ensures Pass(pending, fired) == Swept(sites, |sites|, old(pending), now, debounce)
    {
      hide Expired;
      fired := [];
      for k := 0 to |sites|
        invariant Pass(pending, fired) == Swept(sites, k, old(pending), now, debounce)
      {
        var root := sites[k].root;
        if Expired(pending, root, now, debounce) {
          fired := fired + [k];
          pending := pending - {root};
        }
      }
    }

    method FireSite(site: Site, m: Moment, cooldown: real) returns (next: Next)
      modifies this`marks, this`requests
      ensures Now() == Fire(old(Now()), site, m, cooldown)
      ensures next == AfterFire(old(Now()), site, m, cooldown)
    {
      if !m.accepted {
        return Return(2);
      }
      if !m.directory {
        return Return(3);
      }
      if site.id == "" {
        return Poll;
      }
      if Cooling(marks, site.key, cooldown, m.wall) {
        return Return(0);
      }
      if m.stored {
        marks := marks[site.key := m.wall];
      }
      requests := requests + [Request(site.root, site.key, m.wall, m.stored)];
      if m.reply != "" {
        return Scan(site.root, m.reply);
      }
      next := Poll;
    }
  }

  // ---- a change and a firing, spelled out ----

  // The path is the root, or below it.
  predicate IsWithin(path: string, root: string) {
    path == root || (|path| > |root| && path[..|root|] == root && path[|root|] == '/')
  }

  /** A line is a change of the first site, in the order of the list, whose root it is or lies below; an empty line, one
      with a NUL, and one outside all roots are no change. */
  lemma ChangeIs(sites: seq<Site>, line: string, k: nat)
    requires k < |sites|
    ensures IsWithin(line, sites[k].root) && (forall i :: 0 <= i < k ==> !IsWithin(line, sites[i].root)) ==>
      RootOf(sites, line) == if line == "" || '\0' in line then None else Some(sites[k].root)
    ensures (forall i :: 0 <= i < |sites| ==> !IsWithin(line, sites[i].root)) ==> RootOf(sites, line) == None
  {
    forall i | 0 <= i < |sites| ensures Covers(sites[i].root, line) <==> IsWithin(line, sites[i].root) {
      CoversIs(line, sites[i].root);
    }
    hide Covers, IsWithin;
  }

  lemma CoversIs(path: string, root: string)
    ensures Covers(root, path) <==> IsWithin(path, root)
  {
    if root + "/" <= path {
      assert path[..|root| + 1] == root + "/" && path[..|root|] == path[..|root| + 1][..|root|];
      assert path[|root|] == path[..|root| + 1][|root|];
    }
    if IsWithin(path, root) && path != root {
      assert path[..|root| + 1] == path[..|root|] + [path[|root|]];
    }
  }

  /** What firing a site does. It posts a request, and marks the time if that can be stored, if and only if the root is
      accepted and a directory, the site has an id, and its mark is missing or at least the cooldown old. It goes on to a
      scan under the id in the reply, or to a poll if there is none or the site has no id; a site that is cooling ends
      with 0, a root that is not accepted with 2, one that is no directory with 3. */
  lemma FiringEffect(st: State, site: Site, m: Moment, cooldown: real)
    ensures var cooling := site.key in st.marks && m.wall < st.marks[site.key] + cooldown;
      var posts := m.accepted && m.directory && site.id != "" && !cooling;
      && Fire(st, site, m, cooldown)
         == State(st.pending,
                  if posts && m.stored then st.marks[site.key := m.wall] else st.marks,
                  if posts then st.requests + [Request(site.root, site.key, m.wall, m.stored)] else st.requests)
      && AfterFire(st, site, m, cooldown)
         == if posts && m.reply != "" then Scan(site.root, m.reply)
            else if posts || (m.accepted && m.directory && site.id == "") then Poll
            else Return(if !m.accepted then 2 else if !m.directory then 3 else 0)
  {
  }

  // ---- cooldown ----

  // Each key's requests are spaced, and its mark is no older than any of them.
  ghost predicate Spaced(requests: seq<Request>, cooldown: real) {
    forall i, j :: 0 <= i < j < |requests| && requests[i].key == requests[j].key ==>
      requests[j].at >= requests[i].at + cooldown
  }

  ghost predicate Marked(st: State) {
    forall i :: 0 <= i < |st.requests| ==>
      st.requests[i].key in st.marks && st.marks[st.requests[i].key] >= st.requests[i].at
  }

  ghost predicate AllStored(moments: seq<Moment>) {
    forall k :: 0 <= k < |moments| ==> moments[k].stored
  }

  lemma FireKeepsSpace(st: State, site: Site, m: Moment, cooldown: real)
    requires Spaced(st.requests, cooldown) && Marked(st) && m.stored && cooldown >= 0.0
    ensures Spaced(Fire(st, site, m, cooldown).requests, cooldown) && Marked(Fire(st, site, m, cooldown))
  {
  }

  lemma {:induction false} FireAllKeepsSpace(st: State, sites: seq<Site>, fired: seq<nat>, moments: seq<Moment>,
                              cooldown: real)
    requires |moments| == |sites| && forall k :: 0 <= k < |fired| ==> fired[k] < |sites|
    requires Spaced(st.requests, cooldown) && Marked(st) && AllStored(moments) && cooldown >= 0.0
    ensures var after := FireAll(st, sites, fired, moments, cooldown); Spaced(after.requests, cooldown) && Marked(after)
    decreases |fired|
  {
    if fired != [] {
      var k := |fired| - 1;
      hide Spaced, Marked, Fire;
      FireAllKeepsSpace(st, sites, fired[..k], moments, cooldown);
      FireKeepsSpace(FireAll(st, sites, fired[..k], moments, cooldown), sites[fired[k]], moments[fired[k]], cooldown);
    }
  }

  lemma TurnKeepsSpace(st: State, sites: seq<Site>, r: Round, debounce: real, cooldown: real)
    requires |r.moments| == |sites| && AllStored(r.moments) && cooldown >= 0.0
    requires Spaced(st.requests, cooldown) && Marked(st)
    ensures var after := Turn(st, sites, r, debounce, cooldown); Spaced(after.requests, cooldown) && Marked(after)
  {
    hide Spaced, Swept, FireAll, Noted, AllStored;
    var p := Swept(sites, |sites|, Noted(sites, st.pending, r), r.now, debounce);
    var swept := st.(pending := p.pending);
    assert Marked(swept);
    hide Marked;
    FireAllKeepsSpace(swept, sites, p.fired, r.moments, cooldown);
  }

  /** Over every run in which the cooldown files can be written, and whatever the wall clock does, two requests for
      one site are at least the cooldown apart. */
  lemma {:induction false} RequestsAreSpaced(st: State, sites: seq<Site>, rounds: seq<Round>, debounce: real,
                              cooldown: real)
    requires Fit(sites, rounds) && cooldown >= 0.0 && Spaced(st.requests, cooldown) && Marked(st)
    requires forall k :: 0 <= k < |rounds| ==> AllStored(rounds[k].moments)
    ensures var after := Watched(st, sites, rounds, debounce, cooldown); Spaced(after.requests, cooldown) && Marked(after)
    decreases |rounds|
  {
    if rounds != [] {
      var n := |rounds| - 1;
      var front := WatchedLast(st, sites, rounds, debounce, cooldown);
      hide *;
      RequestsAreSpaced(st, sites, front, debounce, cooldown);
      TurnKeepsSpace(Watched(st, sites, front, debounce, cooldown), sites, rounds[n], debounce, cooldown);
    }
  }

  // ---- ignored writes ----

  // What comes after a request whose mark was stored, or was not, keeps the distance.
  ghost predicate SpacedAfter(requests: seq<Request>, cooldown: real, stored: bool) {
    forall i, j :: 0 <= i < j < |requests| && requests[i].key == requests[j].key && requests[i].stored == stored ==>
      requests[j].at >= requests[i].at + cooldown
  }

  ghost predicate StoredMarked(st: State) {
    forall i :: 0 <= i < |st.requests| && st.requests[i].stored ==>
      st.requests[i].key in st.marks && st.marks[st.requests[i].key] >= st.requests[i].at
  }

  ghost predicate StoredSpaced(st: State, cooldown: real) {
    SpacedAfter(st.requests, cooldown, true) && StoredMarked(st)
  }

  lemma FireKeepsStored(st: State, site: Site, m: Moment, cooldown: real)
    requires StoredSpaced(st, cooldown) && cooldown >= 0.0
    ensures StoredSpaced(Fire(st, site, m, cooldown), cooldown)
  {
  }

  lemma {:induction false} FireAllKeepsStored(st: State, sites: seq<Site>, fired: seq<nat>, moments: seq<Moment>,
                                              cooldown: real)
    requires |moments| == |sites| && forall k :: 0 <= k < |fired| ==> fired[k] < |sites|
    requires StoredSpaced(st, cooldown) && cooldown >= 0.0
    ensures StoredSpaced(FireAll(st, sites, fired, moments, cooldown), cooldown)
    decreases |fired|
  {
    if fired != [] {
      var k := |fired| - 1;
      hide StoredSpaced, Fire;
      FireAllKeepsStored(st, sites, fired[..k], moments, cooldown);
      FireKeepsStored(FireAll(st, sites, fired[..k], moments, cooldown), sites[fired[k]], moments[fired[k]], cooldown);
    }
  }

  lemma TurnKeepsStored(st: State, sites: seq<Site>, r: Round, debounce: real, cooldown: real)
    requires |r.moments| == |sites| && StoredSpaced(st, cooldown) && cooldown >= 0.0
    ensures StoredSpaced(Turn(st, sites, r, debounce, cooldown), cooldown)
  {
    hide Swept, FireAll, Noted;
    var p := Swept(sites, |sites|, Noted(sites, st.pending, r), r.now, debounce);
    var swept := st.(pending := p.pending);
    assert StoredSpaced(swept, cooldown);
    hide StoredSpaced;
    FireAllKeepsStored(swept, sites, p.fired, r.moments, cooldown);
  }

  lemma {:induction false} RunKeepsStored(st: State, sites: seq<Site>, rounds: seq<Round>, debounce: real,
                                          cooldown: real)
    requires Fit(sites, rounds) && cooldown >= 0.0 && StoredSpaced(st, cooldown)
    ensures StoredSpaced(Watched(st, sites, rounds, debounce, cooldown), cooldown)
    decreases |rounds|
  {
    if rounds != [] {
      var n := |rounds| - 1;
      var front := WatchedLast(st, sites, rounds, debounce, cooldown);
      hide *;
      RunKeepsStored(st, sites, front, debounce, cooldown);
      TurnKeepsStored(Watched(st, sites, front, debounce, cooldown), sites, rounds[n], debounce, cooldown);
    }
  }

  lemma SpacedIff(requests: seq<Request>, cooldown: real)
    ensures Spaced(requests, cooldown)
      <==> SpacedAfter(requests, cooldown, true) && SpacedAfter(requests, cooldown, false)
  {
  }

  /** Over every run, whichever cooldown writes fail: a request whose mark was stored keeps the later ones a cooldown
      away. So all requests are spaced if and only if none comes within a cooldown of an earlier one whose mark was
      not stored. */
  lemma RequestsAreSpacedIff(st: State, sites: seq<Site>, rounds: seq<Round>, debounce: real, cooldown: real)
    requires Fit(sites, rounds) && cooldown >= 0.0 && StoredSpaced(st, cooldown)
    ensures var after := Watched(st, sites, rounds, debounce, cooldown).requests;
      && SpacedAfter(after, cooldown, true)
      && (Spaced(after, cooldown) <==> SpacedAfter(after, cooldown, false))
  {
    RunKeepsStored(st, sites, rounds, debounce, cooldown);
    var after := Watched(st, sites, rounds, debounce, cooldown).requests;
    SpacedIff(after, cooldown);
    hide Watched, Spaced, SpacedAfter;
  }

  // A turn of a watch with one site and no debounce, in which the root changes.
  lemma OnlySiteChanged(st: State, site: Site, r: Round, cooldown: real)
    requires r.line == Some(site.root) && site.root != "" && '\0' !in site.root && |r.moments| == 1
    ensures Turn(st, [site], r, 0.0, cooldown)
         == Fire(st.(pending := st.pending - {site.root}), site, r.moments[0], cooldown)
  {
    var noted := st.pending[site.root := r.now];
    assert Route([site], site.root) == 0;
    assert Noted([site], st.pending, r) == noted;
    assert Swept([site], 0, noted, r.now, 0.0) == Pass(noted, []);
    var p := Swept([site], 1, noted, r.now, 0.0);
    assert noted - {site.root} == st.pending - {site.root};
    assert p.pending == st.pending - {site.root} && p.fired == [0];
    hide Fire, Swept, Noted, Route;
    assert [0][..0] == [];
    assert FireAll(st.(pending := p.pending), [site], [], r.moments, cooldown) == st.(pending := p.pending);
  }

  // An ignored write leaves the key as it was, so the next firing posts too.
  lemma PostsAgain(st: State, site: Site, m: Moment, later: Moment, cooldown: real)
    requires site.id != "" && m.Usable() && later.Usable() && !m.stored && site.key !in st.marks
    ensures var mid := Fire(st, site, m, cooldown);
      && mid.requests == st.requests + [Request(site.root, site.key, m.wall, false)]
      && forall pending :: Fire(mid.(pending := pending), site, later, cooldown).requests
           == mid.requests + [Request(site.root, site.key, later.wall, later.stored)]
  {
  }

  lemma NotSpaced(a: Request, b: Request, cooldown: real)
    requires a.key == b.key && b.at < a.at + cooldown
    ensures !Spaced([a, b], cooldown)
  {
    assert [a, b][0] == a && [a, b][1] == b;
  }

  /** The smallest failing run: the first cooldown write fails, and the site's next change, one second later, is
      requested as well. */
  lemma IgnoredWriteRepeats()
    ensures var sites := [Site("/a", "1", "1")];
      var rounds := [Round(0.0, Some("/a"), [Moment(0.0, false, true, true, "")]),
                     Round(1.0, Some("/a"), [Moment(1.0, true, true, true, "")])];
      var after := Watched(State(map[], map[], []), sites, rounds, 0.0, 10.0).requests;
      after == [Request("/a", "1", 0.0, false), Request("/a", "1", 1.0, true)] && !Spaced(after, 10.0)
  {
    hide *;
    var site, m, later := Site("/a", "1", "1"), Moment(0.0, false, true, true, ""), Moment(1.0, true, true, true, "");
    var r, q := Round(0.0, Some("/a"), [m]), Round(1.0, Some("/a"), [later]);
    var st := State(map[], map[], []);
    assert '\0' !in site.root;
    TwoTurns(st, [site], r, q, 0.0, 10.0);
    OnlySiteChanged(st, site, r, 10.0);
    OnlySiteChanged(Turn(st, [site], r, 0.0, 10.0), site, q, 10.0);
    BothUsable(m, later);
    PostsAgain(st.(pending := st.pending - {"/a"}), site, m, later, 10.0);
    NotSpaced(Request("/a", "1", 0.0, false), Request("/a", "1", 1.0, true), 10.0);
  }

  lemma BothUsable(m: Moment, later: Moment)
    ensures m.accepted && m.directory ==> m.Usable()
    ensures later.accepted && later.directory ==> later.Usable()
  {
  }

  lemma TwoTurns(st: State, sites: seq<Site>, r: Round, q: Round, debounce: real, cooldown: real)
    requires |r.moments| == |sites| == |q.moments|
    ensures Fit(sites, [r, q])
    ensures Watched(st, sites, [r, q], debounce, cooldown)
         == Turn(Turn(st, sites, r, debounce, cooldown), sites, q, debounce, cooldown)
  {
    hide Turn;
    assert [r, q][..1] == [r] && [r][..0] == [];
    assert Watched(st, sites, [], debounce, cooldown) == st;
    assert Watched(st, sites, [r], debounce, cooldown) == Turn(st, sites, r, debounce, cooldown);
  }

  lemma WatchedLast(st: State, sites: seq<Site>, rounds: seq<Round>, debounce: real,
                    cooldown: real) returns (front: seq<Round>)
    requires Fit(sites, rounds) && rounds != []
    ensures front == rounds[..|rounds| - 1] && Fit(sites, front) && |rounds[|rounds| - 1].moments| == |sites|
    ensures forall k :: 0 <= k < |front| ==> front[k] == rounds[k]
    ensures Watched(st, sites, rounds, debounce, cooldown)
         == Turn(Watched(st, sites, front, debounce, cooldown), sites, rounds[|rounds| - 1], debounce, cooldown)
  {
    hide Turn;
    front := rounds[..|rounds| - 1];
  }

  // ---- debounce ----

  function RootsOf(sites: seq<Site>, n: nat): set<string>
    requires n <= |sites|
  {
    set k | 0 <= k < n :: sites[k].root
  }

  lemma RootsOfStep(sites: seq<Site>, n: nat, root: string)
    requires n < |sites|
    ensures root in RootsOf(sites, n + 1) <==> root in RootsOf(sites, n) || root == sites[n].root
  {
    if root in RootsOf(sites, n + 1) {
      var k :| 0 <= k < n + 1 && sites[k].root == root;
    }
  }

  // What the pass removes and fires: exactly the expired roots, each at the first site that has it.
  lemma {:induction false} SweptOutcome(sites: seq<Site>, n: nat, pending: map<string, real>, now: real,
                              debounce: real, root: string)
    requires n <= |sites|
    ensures var p := Swept(sites, n, pending, now, debounce);
      && p.pending.Keys <= pending.Keys
      && (root in p.pending <==> root in pending && !(root in RootsOf(sites, n) && Expired(pending, root, now, debounce)))
      && (root in p.pending ==> p.pending[root] == pending[root])
  {
    if n > 0 {
      SweptOutcome(sites, n - 1, pending, now, debounce, root);
      RootsOfStep(sites, n - 1, root);
      hide RootsOf;
    }
  }

  lemma {:induction false} SweptFired(sites: seq<Site>, n: nat, pending: map<string, real>, now: real, debounce: real,
                              k: nat)
    requires n <= |sites| && k < |Swept(sites, n, pending, now, debounce).fired|
    ensures var f := Swept(sites, n, pending, now, debounce).fired[k];
      f < |sites| && Expired(pending, sites[f].root, now, debounce)
  {
    if n > 0 {
      var before := Swept(sites, n - 1, pending, now, debounce);
      if k < |before.fired| {
        SweptFired(sites, n - 1, pending, now, debounce, k);
      } else {
        SweptOutcome(sites, n - 1, pending, now, debounce, sites[n - 1].root);
      }
    }
  }

  lemma {:induction false} FiringKeepsPending(st: State, sites: seq<Site>, fired: seq<nat>, moments: seq<Moment>,
                              cooldown: real)
    requires |moments| == |sites| && forall k :: 0 <= k < |fired| ==> fired[k] < |sites|
    ensures FireAll(st, sites, fired, moments, cooldown).pending == st.pending
    decreases |fired|
  {
    if fired != [] {
      FiringKeepsPending(st, sites, fired[..|fired| - 1], moments, cooldown);
    }
  }

  // The time of the latest change of a root.
  function LastTouched(sites: seq<Site>, rounds: seq<Round>, root: string): Option<real>
    decreases |rounds|
  {
    if rounds == [] then None
    else
      var r := rounds[|rounds| - 1];
      if Touched(sites, r) == Some(root) then Some(r.now) else LastTouched(sites, rounds[..|rounds| - 1], root)
  }

  ghost predicate PendingIsLast(sites: seq<Site>, rounds: seq<Round>, pending: map<string, real>, root: string) {
    root in pending ==> LastTouched(sites, rounds, root) == Some(pending[root])
  }

  lemma {:induction false} PendingTimes(st: State, sites: seq<Site>, rounds: seq<Round>, debounce: real,
                              cooldown: real, root: string)
    requires Fit(sites, rounds) && st.pending == map[]
    ensures PendingIsLast(sites, rounds, Watched(st, sites, rounds, debounce, cooldown).pending, root)
    decreases |rounds|
  {
    if rounds != [] {
      var n := |rounds| - 1;
      PendingTimes(st, sites, rounds[..n], debounce, cooldown, root);
      var mid := Watched(st, sites, rounds[..n], debounce, cooldown);
      hide Touched, Swept, FireAll, Expired, RootsOf;
      TurnPending(mid, sites, rounds[n], debounce, cooldown, root);
      hide Turn;
    }
  }

  lemma TurnPending(st: State, sites: seq<Site>, r: Round, debounce: real, cooldown: real, root: string)
    requires |r.moments| == |sites|
    ensures var after, noted := Turn(st, sites, r, debounce, cooldown).pending, Noted(sites, st.pending, r);
      && (root in after ==> root in noted && after[root] == noted[root])
      && (root in after && root in RootsOf(sites, |sites|) ==> r.now - after[root] < debounce)
      && (root in noted && root !in after ==> root in RootsOf(sites, |sites|) && r.now - noted[root] >= debounce)
  {
    var noted := Noted(sites, st.pending, r);
    var p := Swept(sites, |sites|, noted, r.now, debounce);
    SweptOutcome(sites, |sites|, noted, r.now, debounce, root);
    FiringKeepsPending(st.(pending := p.pending), sites, p.fired, r.moments, cooldown);
    hide Noted, Swept, FireAll, RootsOf;
  }

  /** A site is fired only in a turn at least the debounce after the latest change of its root. */
  lemma FiresOnlyWhenQuiet(st: State, sites: seq<Site>, rounds: seq<Round>, r: Round, debounce: real, cooldown: real,
                           k: nat)
    requires Fit(sites, rounds) && |r.moments| == |sites| && st.pending == map[]
    requires var mid := Watched(st, sites, rounds, debounce, cooldown);
      k < |Swept(sites, |sites|, Noted(sites, mid.pending, r), r.now, debounce).fired|
    ensures var mid := Watched(st, sites, rounds, debounce, cooldown);
      var site := sites[Swept(sites, |sites|, Noted(sites, mid.pending, r), r.now, debounce).fired[k]];
      var last := LastTouched(sites, rounds + [r], site.root);
      last.Some? && r.now - last.value >= debounce
  {
    var mid := Watched(st, sites, rounds, debounce, cooldown);
    var noted := Noted(sites, mid.pending, r);
    SweptFired(sites, |sites|, noted, r.now, debounce, k);
    var root := sites[Swept(sites, |sites|, noted, r.now, debounce).fired[k]].root;
    PendingTimes(st, sites, rounds, debounce, cooldown, root);
    assert (rounds + [r])[..|rounds|] == rounds;
    hide Touched, Swept, Watched;
  }

  lemma {:induction false} ForgottenIsFired(sites: seq<Site>, n: nat, pending: map<string, real>, now: real,
                              debounce: real, root: string)
      returns (k: nat)
    requires n <= |sites| && root in pending && root !in Swept(sites, n, pending, now, debounce).pending
    ensures var p := Swept(sites, n, pending, now, debounce); k < |p.fired| && sites[p.fired[k]].root == root
  {
    hide Expired;
    var before := Swept(sites, n - 1, pending, now, debounce);
    if root in before.pending {
      k := |before.fired|;
    } else {
      k := ForgottenIsFired(sites, n - 1, pending, now, debounce, root);
    }
  }

  /** No change is dropped or overdue: a watched root that has a change noted in a turn is fired in that turn, or
      stays pending because the change is less than the debounce old. */
  lemma ChangeFiresOrWaits(st: State, sites: seq<Site>, r: Round, debounce: real, cooldown: real, i: nat)
    requires |r.moments| == |sites| && i < |sites| && sites[i].root in Noted(sites, st.pending, r)
    ensures var root, noted := sites[i].root, Noted(sites, st.pending, r);
      var after := Turn(st, sites, r, debounce, cooldown).pending;
      var fired := Swept(sites, |sites|, noted, r.now, debounce).fired;
      if r.now - noted[root] < debounce then root in after && after[root] == noted[root]
      else root !in after && exists k :: 0 <= k < |fired| && sites[fired[k]].root == root
  {
    var root, noted := sites[i].root, Noted(sites, st.pending, r);
    var p := Swept(sites, |sites|, noted, r.now, debounce);
    SweptOutcome(sites, |sites|, noted, r.now, debounce, root);
    FiringKeepsPending(st.(pending := p.pending), sites, p.fired, r.moments, cooldown);
    assert root in RootsOf(sites, |sites|);
    hide Noted, Swept, FireAll, RootsOf;
    if root !in p.pending {
      var k := ForgottenIsFired(sites, |sites|, noted, r.now, debounce, root);
    }
  }

  // ---- which roots are watched ----

  lemma CoversNested(outer: string, inner: string, changed: string)
    requires Covers(outer, inner) && Covers(inner, changed)
    ensures Covers(outer, changed)
  {
    if changed != inner && inner != outer {
      assert changed[..|outer| + 1] == inner[..|outer| + 1] == outer + "/";
    }
  }

  // No earlier site's root covers the first site of this root.
  ghost predicate Foremost(sites: seq<Site>, root: string) {
    exists f :: 0 <= f < |sites| && sites[f].root == root && forall i :: 0 <= i < f ==> !Covers(sites[i].root, root)
  }

  lemma TouchedIsForemost(sites: seq<Site>, line: string, root: string)
    requires RootOf(sites, line) == Some(root)
    ensures Foremost(sites, root)
  {
    var f := Route(sites, line);
    hide Route, Covers;
    forall i | 0 <= i < f ensures !Covers(sites[i].root, root) {
      if Covers(sites[i].root, root) {
        CoversNested(sites[i].root, root, line);
      }
    }
  }

  /** Exactly which roots can have a change: a path is taken for a root's, for some path, if and only if no site
      listed before the first one of that root covers it. */
  lemma TouchableIff(sites: seq<Site>, root: string)
    requires root != "" && '\0' !in root
    ensures (exists line :: RootOf(sites, line) == Some(root)) <==> Foremost(sites, root)
  {
    hide Route;
    if Foremost(sites, root) {
      var f :| 0 <= f < |sites| && sites[f].root == root && forall i :: 0 <= i < f ==> !Covers(sites[i].root, root);
      assert Covers(sites[f].root, root);
      hide Covers;
      assert Route(sites, root) == f;
      assert RootOf(sites, root) == Some(root);
    }
    if line :| RootOf(sites, line) == Some(root) {
      TouchedIsForemost(sites, line, root);
    }
  }

  /** Over every run only such roots are ever pending, so only they are ever fired. */
  lemma {:induction false} OnlyForemostIsPending(st: State, sites: seq<Site>, rounds: seq<Round>, debounce: real,
                                                 cooldown: real, root: string)
    requires Fit(sites, rounds) && st.pending == map[]
    requires root in Watched(st, sites, rounds, debounce, cooldown).pending
    ensures Foremost(sites, root)
    decreases |rounds|
  {
    PendingTimes(st, sites, rounds, debounce, cooldown, root);
    hide Watched, Foremost, Touched;
    var k := SomeTouch(sites, rounds, root);
    TouchIsLine(sites, rounds[k], root);
    TouchedIsForemost(sites, rounds[k].line.value, root);
  }

  lemma {:induction false} SomeTouch(sites: seq<Site>, rounds: seq<Round>, root: string) returns (k: nat)
    requires LastTouched(sites, rounds, root).Some?
    ensures k < |rounds| && Touched(sites, rounds[k]) == Some(root)
    decreases |rounds|
  {
    hide Touched;
    k := |rounds| - 1;
    if Touched(sites, rounds[k]) != Some(root) {
      k := SomeTouch(sites, rounds[..k], root);
    }
  }

  lemma TouchIsLine(sites: seq<Site>, r: Round, root: string)
    requires Touched(sites, r) == Some(root)
    ensures r.line.Some? && RootOf(sites, r.line.value) == Some(root)
  {
  }

  /** In particular a root listed after one that contains it is shadowed: its changes are all taken for the outer
      root's. */
  lemma NestedRootIsShadowed(st: State, sites: seq<Site>, rounds: seq<Round>, debounce: real, cooldown: real,
                             i: nat, j: nat)
    requires Fit(sites, rounds) && st.pending == map[]
    requires i < j < |sites| && Covers(sites[i].root, sites[j].root) && sites[i].root != sites[j].root
    requires forall k :: 0 <= k < i ==> sites[k].root != sites[j].root
    ensures sites[j].root !in Watched(st, sites, rounds, debounce, cooldown).pending
  {
    hide Watched, Covers;
    if sites[j].root in Watched(st, sites, rounds, debounce, cooldown).pending {
      OnlyForemostIsPending(st, sites, rounds, debounce, cooldown, sites[j].root);
    }
  }

  // ---- what a run has pending ----

  // The monotonic clock.
  ghost predicate Ticking(rounds: seq<Round>) {
    forall i, j :: 0 <= i < j < |rounds| ==> rounds[i].now <= rounds[j].now
  }

  /** After any run a watched root is pending if and only if its last change is less than the debounce old. At the
      end of the event stream these, and no others, are the changes that are dropped. */
  lemma {:induction false} PendingIff(st: State, sites: seq<Site>, rounds: seq<Round>, debounce: real, cooldown: real,
                                      root: string)
    requires Fit(sites, rounds) && st.pending == map[] && Ticking(rounds) && rounds != []
    requires root in RootsOf(sites, |sites|)
    ensures var pending, last := Watched(st, sites, rounds, debounce, cooldown).pending, LastTouched(sites, rounds, root);
      && (root in pending <==> last.Some? && rounds[|rounds| - 1].now - last.value < debounce)
      && (root in pending ==> pending[root] == last.value)
    decreases |rounds|
  {
    var n := |rounds| - 1;
    var front := WatchedLast(st, sites, rounds, debounce, cooldown);
    var mid, r := Watched(st, sites, front, debounce, cooldown), rounds[n];
    TurnPending(mid, sites, r, debounce, cooldown, root);
    assert Touched(sites, r) == Some(root) ==> LastTouched(sites, rounds, root) == Some(r.now);
    assert Touched(sites, r) != Some(root) ==> LastTouched(sites, rounds, root) == LastTouched(sites, front, root);
    if front == [] {
      assert mid == st;
      hide Watched, Turn, RootsOf, Touched;
    } else {
      assert Ticking(front) && front[n - 1].now <= r.now;
      hide Watched, Turn, RootsOf, Touched, LastTouched, Ticking;
      PendingIff(st, sites, front, debounce, cooldown, root);
    }
  }

  /** A change is fired in the first turn that comes at least the debounce after it, if no other change of the root
      comes before. */
  lemma ChangeFiresInFirstTurn(st: State, sites: seq<Site>, rounds: seq<Round>, r: Round, debounce: real,
                               cooldown: real, root: string) returns (k: nat)
    requires Fit(sites, rounds) && |r.moments| == |sites| && st.pending == map[] && Ticking(rounds) && rounds != []
    requires root in RootsOf(sites, |sites|) && Touched(sites, r) != Some(root)
    requires var last := LastTouched(sites, rounds, root);
      last.Some? && rounds[|rounds| - 1].now - last.value < debounce <= r.now - last.value
    ensures var mid := Watched(st, sites, rounds, debounce, cooldown);
      var fired := Swept(sites, |sites|, Noted(sites, mid.pending, r), r.now, debounce).fired;
      k < |fired| && sites[fired[k]].root == root
  {
    PendingIff(st, sites, rounds, debounce, cooldown, root);
    var noted := Noted(sites, Watched(st, sites, rounds, debounce, cooldown).pending, r);
    hide Watched, Touched, LastTouched, Fit, Ticking, RootsOf;
    SweptOutcome(sites, |sites|, noted, r.now, debounce, root);
    hide Swept;
    k := ForgottenIsFired(sites, |sites|, noted, r.now, debounce, root);
  }

  /** Without a debounce nothing is pending after a turn, so the branch for a single pass, which waits for something
      pending without a debounce, is never taken. */
  lemma NoDebounceNothingPending(st: State, sites: seq<Site>, rounds: seq<Round>, cooldown: real, root: string)
    requires Fit(sites, rounds) && st.pending == map[] && Ticking(rounds) && rounds != []
    requires root in RootsOf(sites, |sites|)
    ensures root !in Watched(st, sites, rounds, 0.0, cooldown).pending
  {
    hide Watched, Touched, RootsOf;
    PendingIff(st, sites, rounds, 0.0, cooldown, root);
    LastTouchedPast(sites, rounds, root);
  }

  lemma {:induction false} LastTouchedPast(sites: seq<Site>, rounds: seq<Round>, root: string)
    requires Ticking(rounds) && rounds != []
    ensures var last := LastTouched(sites, rounds, root); last.Some? ==> last.value <= rounds[|rounds| - 1].now
    decreases |rounds|
  {
    hide Touched;
    var n := |rounds| - 1;
    if n > 0 {
      LastTouchedPast(sites, rounds[..n], root);
    } else {
      assert rounds[..n] == [];
    }
  }

  // ---- what is requested ----

  function RequestsFrom(requests: seq<Request>, root: string): nat {
    if requests == [] then 0
    else RequestsFrom(requests[..|requests| - 1], root) + if requests[|requests| - 1].root == root then 1 else 0
  }

  // Whether firing a site posts a request.
  predicate Posts(st: State, site: Site, m: Moment, cooldown: real) {
    m.Usable() && site.id != "" && !Cooling(st.marks, site.key, cooldown, m.wall)
  }

  lemma FireCounts(st: State, site: Site, m: Moment, cooldown: real, root: string)
    ensures RequestsFrom(Fire(st, site, m, cooldown).requests, root)
         == RequestsFrom(st.requests, root) + if site.root == root && Posts(st, site, m, cooldown) then 1 else 0
  {
    hide Cooling;
    var r := Request(site.root, site.key, m.wall, m.stored);
    assert (st.requests + [r])[..|st.requests|] == st.requests;
  }

  lemma {:induction false} FireAllMisses(st: State, sites: seq<Site>, fired: seq<nat>, moments: seq<Moment>,
                                         cooldown: real, root: string)
    requires |moments| == |sites| && forall k :: 0 <= k < |fired| ==> fired[k] < |sites|
    requires forall k :: 0 <= k < |fired| ==> sites[fired[k]].root != root
    ensures RequestsFrom(FireAll(st, sites, fired, moments, cooldown).requests, root) == RequestsFrom(st.requests, root)
    decreases |fired|
  {
    if fired != [] {
      var n := |fired| - 1;
      hide Fire, RequestsFrom, Posts;
      FireAllMisses(st, sites, fired[..n], moments, cooldown, root);
      FireCounts(FireAll(st, sites, fired[..n], moments, cooldown), sites[fired[n]], moments[fired[n]], cooldown, root);
    }
  }

  lemma {:induction false} FireAllHits(st: State, sites: seq<Site>, fired: seq<nat>, moments: seq<Moment>,
                                       cooldown: real, root: string, m: nat)
    requires |moments| == |sites| && forall k :: 0 <= k < |fired| ==> fired[k] < |sites|
    requires m < |fired| && forall k :: 0 <= k < |fired| ==> (sites[fired[k]].root == root <==> k == m)
    ensures RequestsFrom(FireAll(st, sites, fired, moments, cooldown).requests, root)
         == RequestsFrom(st.requests, root)
            + if Posts(FireAll(st, sites, fired[..m], moments, cooldown), sites[fired[m]], moments[fired[m]], cooldown)
              then 1 else 0
    decreases |fired|
  {
    var n := |fired| - 1;
    var front := fired[..n];
    hide Fire, RequestsFrom, Posts;
    FireCounts(FireAll(st, sites, front, moments, cooldown), sites[fired[n]], moments[fired[n]], cooldown, root);
    if m == n {
      FireAllMisses(st, sites, front, moments, cooldown, root);
    } else {
      FireAllHits(st, sites, front, moments, cooldown, root, m);
      assert front[..m] == fired[..m];
    }
  }

  // No root is fired twice, and none that is fired stays pending.
  ghost predicate FiredApart(sites: seq<Site>, p: Pass) {
    && (forall k :: 0 <= k < |p.fired| ==> p.fired[k] < |sites| && sites[p.fired[k]].root !in p.pending)
    && (forall i, j :: 0 <= i < j < |p.fired| ==>
          p.fired[i] < |sites| && p.fired[j] < |sites| && sites[p.fired[i]].root != sites[p.fired[j]].root)
  }

  lemma FireOneMore(sites: seq<Site>, before: Pass, f: nat)
    requires FiredApart(sites, before) && f < |sites| && sites[f].root in before.pending
    ensures FiredApart(sites, Pass(before.pending - {sites[f].root}, before.fired + [f]))
  {
  }

  lemma {:induction false} FiredOnce(sites: seq<Site>, n: nat, pending: map<string, real>, now: real, debounce: real)
    requires n <= |sites|
    ensures FiredApart(sites, Swept(sites, n, pending, now, debounce))
  {
    hide FiredApart;
    if n > 0 {
      FiredOnce(sites, n - 1, pending, now, debounce);
      var before := Swept(sites, n - 1, pending, now, debounce);
      if Expired(before.pending, sites[n - 1].root, now, debounce) {
        FireOneMore(sites, before, n - 1);
      }
    } else {
      NoneFired(sites, pending);
    }
  }

  lemma NoneFired(sites: seq<Site>, pending: map<string, real>)
    ensures FiredApart(sites, Pass(pending, []))
  {
  }

  /** In the turn in which a watched root's debounce runs out, the root is forgotten and fired at one site, and one
      request comes from it if and only if that site is usable, has an id, and is not cooling after the firings
      before it in that turn. */
  lemma ExpiredRootRequestsIff(st: State, sites: seq<Site>, r: Round, debounce: real, cooldown: real, root: string)
      returns (m: nat)
    requires |r.moments| == |sites| && root in RootsOf(sites, |sites|)
    requires Expired(Noted(sites, st.pending, r), root, r.now, debounce)
    ensures var p := Swept(sites, |sites|, Noted(sites, st.pending, r), r.now, debounce);
      && m < |p.fired| && sites[p.fired[m]].root == root
      && root !in Turn(st, sites, r, debounce, cooldown).pending
      && RequestsFrom(Turn(st, sites, r, debounce, cooldown).requests, root)
         == RequestsFrom(st.requests, root)
            + if Posts(FireAll(st.(pending := p.pending), sites, p.fired[..m], r.moments, cooldown),
                       sites[p.fired[m]], r.moments[p.fired[m]], cooldown) then 1 else 0
  {
    var noted := Noted(sites, st.pending, r);
    var p := Swept(sites, |sites|, noted, r.now, debounce);
    SweptOutcome(sites, |sites|, noted, r.now, debounce, root);
    FiredOnce(sites, |sites|, noted, r.now, debounce);
    m := ForgottenIsFired(sites, |sites|, noted, r.now, debounce, root);
    var swept := st.(pending := p.pending);
    FiringKeepsPending(swept, sites, p.fired, r.moments, cooldown);
    hide Swept, Noted, RootsOf, FireAll, RequestsFrom, Posts, Expired;
    FireAllHits(swept, sites, p.fired, r.moments, cooldown, root, m);
  }

  lemma UntouchedTurn(st: State, sites: seq<Site>, r: Round, debounce: real, cooldown: real, root: string)
    requires |r.moments| == |sites| && Touched(sites, r) != Some(root) && root !in st.pending
    ensures var after := Turn(st, sites, r, debounce, cooldown);
      root !in after.pending && RequestsFrom(after.requests, root) == RequestsFrom(st.requests, root)
  {
    var noted := Noted(sites, st.pending, r);
    var p := Swept(sites, |sites|, noted, r.now, debounce);
    var swept := st.(pending := p.pending);
    forall k | 0 <= k < |p.fired| ensures sites[p.fired[k]].root != root {
      SweptFired(sites, |sites|, noted, r.now, debounce, k);
    }
    SweptOutcome(sites, |sites|, noted, r.now, debounce, root);
    FiringKeepsPending(swept, sites, p.fired, r.moments, cooldown);
    hide Swept, Noted, Touched, FireAll, RequestsFrom;
    FireAllMisses(swept, sites, p.fired, r.moments, cooldown, root);
  }

  ghost predicate Untouched(sites: seq<Site>, rounds: seq<Round>, root: string) {
    forall k :: 0 <= k < |rounds| ==> Touched(sites, rounds[k]) != Some(root)
  }

  /** A root that is not pending and is not changed again requests nothing, over any run. */
  lemma {:induction false} UntouchedRequestsNothing(st: State, sites: seq<Site>, rounds: seq<Round>, debounce: real,
                                                    cooldown: real, root: string)
    requires Fit(sites, rounds) && root !in st.pending && Untouched(sites, rounds, root)
    ensures var after := Watched(st, sites, rounds, debounce, cooldown);
      root !in after.pending && RequestsFrom(after.requests, root) == RequestsFrom(st.requests, root)
    decreases |rounds|
  {
    if rounds != [] {
      var n := |rounds| - 1;
      var front := WatchedLast(st, sites, rounds, debounce, cooldown);
      assert Untouched(sites, front, root) && Touched(sites, rounds[n]) != Some(root);
      hide *;
      UntouchedRequestsNothing(st, sites, front, debounce, cooldown, root);
      UntouchedTurn(Watched(st, sites, front, debounce, cooldown), sites, rounds[n], debounce, cooldown, root);
    }
  }

  /** So a change whose debounce runs out while its site is cooling (or is unusable, or has no id) is lost: however
      long the watch goes on, and whatever the other sites do, it brings no request. */
  lemma CooldownLosesChange(st: State, sites: seq<Site>, r: Round, later: seq<Round>, debounce: real, cooldown: real,
                            root: string, m: nat)
    requires |r.moments| == |sites| && Fit(sites, later) && root in RootsOf(sites, |sites|)
    requires Expired(Noted(sites, st.pending, r), root, r.now, debounce) && Untouched(sites, later, root)
    requires var p := Swept(sites, |sites|, Noted(sites, st.pending, r), r.now, debounce);
      && m < |p.fired| && sites[p.fired[m]].root == root
      && !Posts(FireAll(st.(pending := p.pending), sites, p.fired[..m], r.moments, cooldown),
                sites[p.fired[m]], r.moments[p.fired[m]], cooldown)
    ensures RequestsFrom(Watched(Turn(st, sites, r, debounce, cooldown), sites, later, debounce, cooldown).requests, root)
         == RequestsFrom(st.requests, root)
  {
    FiredOnce(sites, |sites|, Noted(sites, st.pending, r), r.now, debounce);
    hide Expired, Noted, Swept, FireAll, Posts, Turn, Watched, Untouched, RootsOf, RequestsFrom, Fit;
    var k := ExpiredRootRequestsIff(st, sites, r, debounce, cooldown, root);
    assert k == m;
    UntouchedRequestsNothing(Turn(st, sites, r, debounce, cooldown), sites, later, debounce, cooldown, root);
  }
}
