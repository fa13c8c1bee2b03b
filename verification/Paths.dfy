/** Path checks of the on-box helper (`packaging/host-protect-helper/sinexis_host_scan.py`), on
    strings as the code has them, and what they mean for lists of components.

    `word` stands for the regular expression class `\w`. */
module Paths {
  import opened Text

  datatype Result = Ok(path: string) | ValueError

  const NUL: char := '\0'
  const SLASH: string := "/"

  // ---- str.strip, str.split("/"), "/".join ----

  // The characters `str.strip()` removes.
  predicate Space(c: char) {
    var v := c as int;
    9 <= v <= 13 || 28 <= v <= 32 || v == 0x85 || v == 0xA0 || v == 0x1680 || 0x2000 <= v <= 0x200A
    || v == 0x2028 || v == 0x2029 || v == 0x202F || v == 0x205F || v == 0x3000
  }

  function StripLeft(s: string): string {
    if s != "" && Space(s[0]) then StripLeft(s[1..]) else s
  }

  function StripRight(s: string): string {
    if s != "" && Space(s[|s| - 1]) then StripRight(s[..|s| - 1]) else s
  }

  function Strip(s: string): string {
    StripRight(StripLeft(s))
  }

  // `.lstrip("/")`
  function StripSlashes(s: string): (r: string)
    ensures r == "" || r[0] != '/'
  {
    if s != "" && s[0] == '/' then StripSlashes(s[1..]) else s
  }

  function Split(s: string): (r: seq<string>)
    ensures r != []
    ensures forall i :: 0 <= i < |r| ==> '/' !in r[i]
  {
    if s == "" then [""]
    else
      var rest := Split(s[1..]);
      if s[0] == '/' then [""] + rest else [[s[0]] + rest[0]] + rest[1..]
  }

  lemma SplitHead(a: char, s: string)
    ensures Split([a] + s) == if a == '/' then [""] + Split(s) else [[a] + Split(s)[0]] + Split(s)[1..]
  {
    assert ([a] + s)[1..] == s;
  }

  lemma {:induction false} SplitConcat(a: string, b: string)
    ensures Split(a + SLASH + b) == Split(a) + Split(b)
    decreases a
  {
    if a == "" {
      assert a + SLASH + b == ['/'] + b;
      SplitHead('/', b);
    } else {
      var t := a[1..] + SLASH + b;
      SplitConcat(a[1..], b);
      assert a + SLASH + b == [a[0]] + t && a == [a[0]] + a[1..];
      SplitHead(a[0], t);
      SplitHead(a[0], a[1..]);
      hide Split;
      ConcatTail(Split(a[1..]), Split(b), a[0]);
    }
  }

  lemma ConcatTail(x: seq<string>, y: seq<string>, a: char)
    requires x != []
    ensures [""] + (x + y) == ([""] + x) + y
    ensures [[a] + (x + y)[0]] + (x + y)[1..] == ([[a] + x[0]] + x[1..]) + y
  {
    assert (x + y)[1..] == x[1..] + y;
  }

  lemma {:induction false} SplitPlain(s: string)
    requires '/' !in s
    ensures Split(s) == [s]
    decreases s
  {
    if s != "" {
      SplitPlain(s[1..]);
      assert s == [s[0]] + s[1..];
      SplitHead(s[0], s[1..]);
    }
  }

  lemma {:induction false} SplitJoin(c: seq<string>)
    requires c != [] && forall i :: 0 <= i < |c| ==> '/' !in c[i]
    ensures Split(Join(c, SLASH)) == c
    decreases c
  {
    SplitPlain(c[0]);
    if |c| == 1 {
    } else {
      SplitJoin(c[1..]);
      SplitConcat(c[0], Join(c[1..], SLASH));
    }
  }

  lemma {:induction false} JoinSplit(s: string)
    ensures Join(Split(s), SLASH) == s
    decreases s
  {
    if s != "" {
      var rest := Split(s[1..]);
      JoinSplit(s[1..]);
      if s[0] == '/' {
        assert Join([""] + rest, SLASH) == "" + SLASH + Join(rest, SLASH);
      } else {
        JoinHead([s[0]], rest);
      }
    }
  }

  lemma JoinHead(a: string, c: seq<string>)
    requires c != []
    ensures Join([a + c[0]] + c[1..], SLASH) == a + Join(c, SLASH)
  {
    var d := [a + c[0]] + c[1..];
    assert d[1..] == c[1..];
    if |c| > 1 {
      assert Join(d, SLASH) == d[0] + SLASH + Join(c[1..], SLASH);
      assert Join(c, SLASH) == c[0] + SLASH + Join(c[1..], SLASH);
      hide Join;
      Assoc(a, c[0], SLASH);
      Assoc(a, c[0] + SLASH, Join(c[1..], SLASH));
    }
  }

  lemma {:induction false} JoinConcat(a: seq<string>, b: seq<string>)
    requires a != [] && b != []
    ensures Join(a + b, SLASH) == Join(a, SLASH) + SLASH + Join(b, SLASH)
    decreases a
  {
    assert (a + b)[1..] == a[1..] + b;
    if |a| == 1 {
      assert (a + b)[1..] == b;
    } else {
      JoinConcat(a[1..], b);
    }
  }

  // ---- os.path.normpath ----

  // The component loop; `rooted` is whether the path starts with a slash.
  function Normalized(comps: seq<string>, rooted: bool, done: seq<string>): seq<string>
    decreases comps
  {
    if comps == [] then done
    else
      var c := comps[0];
      Normalized(comps[1..], rooted,
        if c == "" || c == "." then done
        else if c != ".." || (!rooted && done == []) || (done != [] && done[|done| - 1] == "..") then done + [c]
        else if done != [] then done[..|done| - 1]
        else done)
  }

  // Two leading slashes are kept; one, or three and more, become one.
  function LeadingSlashes(path: string): string {
    if path == "" || path[0] != '/' then ""
    else if |path| >= 2 && path[1] == '/' && (|path| == 2 || path[2] != '/') then "//"
    else "/"
  }

  function NormPath(path: string): string {
    if path == "" then "."
    else
      var slashes := LeadingSlashes(path);
      var r := slashes + Join(Normalized(Split(path), slashes != "", []), SLASH);
      if r == "" then "." else r
  }

  method ComputeNormalized(comps: seq<string>, rooted: bool) returns (done: seq<string>)
    ensures done == Normalized(comps, rooted, [])
  {
    done := [];
    for i := 0 to |comps|
      invariant Normalized(comps[i..], rooted, done) == Normalized(comps, rooted, [])
    {
      var c := comps[i];
      assert comps[i..][0] == c && comps[i..][1..] == comps[i + 1..];
      if c == "" || c == "." {
        continue;
      }
      if c != ".." || (!rooted && done == []) || (done != [] && done[|done| - 1] == "..") {
        done := done + [c];
      } else if done != [] {
        done := done[..|done| - 1];
      }
    }
  }

  predicate Plain(c: string) {
    c != "" && c != "." && c != ".." && '/' !in c
  }

  // The components without the empty ones and the dots.
  function Cleaned(comps: seq<string>): seq<string> {
    if comps == [] then []
    else (if comps[0] == "" || comps[0] == "." then [] else [comps[0]]) + Cleaned(comps[1..])
  }

  lemma {:induction false} CleanedPlain(comps: seq<string>)
    requires forall i :: 0 <= i < |comps| ==> '/' !in comps[i] && comps[i] != ".."
    ensures forall i :: 0 <= i < |Cleaned(comps)| ==> Plain(Cleaned(comps)[i])
    decreases comps
  {
    if comps != [] {
      CleanedPlain(comps[1..]);
    }
  }

  lemma {:induction false} CleanedConcat(a: seq<string>, b: seq<string>)
    ensures Cleaned(a + b) == Cleaned(a) + Cleaned(b)
    decreases a
  {
    if a == [] {
      assert a + b == b;
    } else {
      assert (a + b)[1..] == a[1..] + b;
      CleanedConcat(a[1..], b);
    }
  }

  lemma {:induction false} CleanedOfPlain(c: seq<string>)
    requires forall i :: 0 <= i < |c| ==> Plain(c[i])
    ensures Cleaned(c) == c
    decreases c
  {
    if c != [] {
      CleanedOfPlain(c[1..]);
    }
  }

  // Without "..", normalising only drops empty components and dots.
  lemma {:induction false} NormalizedWithoutParents(comps: seq<string>, done: seq<string>)
    requires forall i :: 0 <= i < |comps| ==> comps[i] != ".."
    ensures Normalized(comps, true, done) == done + Cleaned(comps)
    decreases comps
  {
    if comps != [] {
      var c := comps[0];
      var next := if c == "" || c == "." then done else done + [c];
      NormalizedWithoutParents(comps[1..], next);
      assert next + Cleaned(comps[1..]) == done + Cleaned(comps);
    }
  }

  /** A component and the ".." after it cancel, wherever they stand; a ".." at the top of an absolute path is dropped. */
  lemma {:induction false} ParentsCancel(a: seq<string>, x: string, b: seq<string>, rooted: bool, done: seq<string>)
    requires Plain(x)
    ensures Normalized(a + [x, ".."] + b, rooted, done) == Normalized(a + b, rooted, done)
    ensures Normalized([".."] + b, true, []) == Normalized(b, true, [])
    decreases a
  {
    assert ([".."] + b)[1..] == b;
    if a == [] {
      var s := [x, ".."] + b;
      assert a + [x, ".."] + b == s && a + b == b;
      assert s[1..][0] == ".." && s[1..][1..] == b;
      assert (done + [x])[..|done|] == done;
    } else {
      assert (a + [x, ".."] + b)[1..] == a[1..] + [x, ".."] + b && (a + b)[1..] == a[1..] + b;
      var c := a[0];
      ParentsCancel(a[1..], x, b, rooted,
        if c == "" || c == "." then done
        else if c != ".." || (!rooted && done == []) || (done != [] && done[|done| - 1] == "..") then done + [c]
        else if done != [] then done[..|done| - 1]
        else done);
    }
  }

  // ---- absolute paths and their components ----

  // `path` is `slashes` followed by the components `c`.
  ghost predicate Spells(path: string, slashes: string, c: seq<string>) {
    && (slashes == "/" || slashes == "//")
    && c != [] && (forall i :: 0 <= i < |c| ==> Plain(c[i]))
    && path == slashes + Join(c, SLASH)
  }

  // What splitting makes of the leading slashes.
  function Lead(slashes: string): seq<string> {
    if slashes == "/" then [""] else ["", ""]
  }

  lemma JoinStart(c: seq<string>)
    requires c != [] && Plain(c[0])
    ensures Join(c, SLASH) != "" && Join(c, SLASH)[0] == c[0][0] != '/'
  {
  }

  lemma SpelledShape(path: string, slashes: string, c: seq<string>)
    requires Spells(path, slashes, c)
    ensures LeadingSlashes(path) == slashes
    ensures Split(path) == Lead(slashes) + c
  {
    SpelledSlashes(path, slashes, c);
    SpelledSplit(path, slashes, c);
    hide Split, LeadingSlashes, Lead, Spells;
  }

  lemma SpelledSlashes(path: string, slashes: string, c: seq<string>)
    requires Spells(path, slashes, c)
    ensures LeadingSlashes(path) == slashes
  {
    hide Split, Lead;
    var tail := Join(c, SLASH);
    JoinStart(c);
    assert path[0] == '/';
    hide Join;
    if slashes == "/" {
      assert path[1] == tail[0];
    } else {
      assert path[1] == '/' && path[2] == tail[0];
    }
  }

  lemma SpelledSplit(path: string, slashes: string, c: seq<string>)
    requires Spells(path, slashes, c)
    ensures Split(path) == Lead(slashes) + c
  {
    hide Split, Join, LeadingSlashes;
    var tail := Join(c, SLASH);
    PlainNoSlash(c);
    SplitJoin(c);
    SplitHead('/', tail);
    SplitHead('/', ['/'] + tail);
    if slashes == "/" {
      assert path == ['/'] + tail;
    } else {
      assert path == ['/'] + (['/'] + tail);
      assert [""] + ([""] + c) == Lead(slashes) + c;
    }
  }

  lemma PlainNoSlash(c: seq<string>)
    requires forall i :: 0 <= i < |c| ==> Plain(c[i])
    ensures forall i :: 0 <= i < |c| ==> '/' !in c[i]
  {
  }

  /** Appending a relative part without ".." to a spelled path and normalising appends its components. */
  lemma NormPathAppend(root: string, slashes: string, c: seq<string>, rel: string)
    requires Spells(root, slashes, c) && forall i :: 0 <= i < |Split(rel)| ==> Split(rel)[i] != ".."
    ensures Spells(NormPath(root + SLASH + rel), slashes, c + Cleaned(Split(rel)))
  {
    SpelledShape(root, slashes, c);
    AppendKeepsSlashes(root, slashes, c, rel);
    SplitConcat(root, rel);
    hide Split, LeadingSlashes, Cleaned, Lead, Plain;
    CleanedLead(slashes, c, Split(rel));
    NormalizedWithoutParents(Split(root) + Split(rel), []);
    CleanedPlain(Split(rel));
    var d := Cleaned(Split(root) + Split(rel));
    assert [] + d == d;
    hide Cleaned, Normalized, NormPath, Join;
    NormPathIs(root + SLASH + rel, slashes, Split(root) + Split(rel), d);
  }

  lemma NormPathIs(path: string, slashes: string, comps: seq<string>, d: seq<string>)
    requires path != "" && LeadingSlashes(path) == slashes && slashes != ""
    requires Split(path) == comps && Normalized(comps, true, []) == d
    ensures NormPath(path) == slashes + Join(d, SLASH)
  {
    hide Split, Normalized, LeadingSlashes, Join;
  }

  lemma AppendKeepsSlashes(root: string, slashes: string, c: seq<string>, rel: string)
    requires Spells(root, slashes, c)
    ensures LeadingSlashes(root + SLASH + rel) == slashes
  {
    SpelledShape(root, slashes, c);
    var path := root + SLASH + rel;
    JoinStart(c);
    assert path[0] == root[0] && path[1] == root[1];
    assert |root| >= 3 ==> path[2] == root[2];
  }

  // Cleaning drops the empty components the leading slashes leave.
  lemma CleanedLead(slashes: string, c: seq<string>, comps: seq<string>)
    requires forall i :: 0 <= i < |c| ==> Plain(c[i])
    ensures Cleaned(Lead(slashes) + c + comps) == c + Cleaned(comps)
  {
    hide Cleaned, Lead;
    CleanedConcat(Lead(slashes) + c, comps);
    CleanedConcat(Lead(slashes), c);
    CleanedOfPlain(c);
    CleanedOfLead(slashes);
    assert [] + c == c;
  }

  lemma CleanedOfLead(slashes: string)
    ensures Cleaned(Lead(slashes)) == []
  {
    assert ["", ""][1..] == [""] && [""][1..] == [];
  }

  lemma NormPathFixed(path: string, slashes: string, c: seq<string>)
    requires Spells(path, slashes, c)
    ensures NormPath(path) == path
  {
    SpelledShape(path, slashes, c);
    hide Split, LeadingSlashes, Cleaned;
    CleanedLead(slashes, c, []);
    CleanedNothing();
    NormalizedWithoutParents(Split(path), []);
    assert Split(path) + [] == Split(path) && c + [] == c && [] + c == c;
  }

  lemma CleanedNothing()
    ensures Cleaned([]) == []
  {
  }

  /** On spelled paths, `startswith(root + "/")` is exactly "a proper prefix, component by component". */
  lemma StartsWithIsPrefix(root: string, slashes: string, c: seq<string>, path: string, d: seq<string>)
    requires Spells(root, slashes, c) && Spells(path, slashes, d)
    ensures root + SLASH <= path <==> |c| < |d| && c <= d
    ensures root == path ==> c == d
  {
    SpelledShape(root, slashes, c);
    SpelledShape(path, slashes, d);
    hide Split, Spells;
    hide Lead;
    var lead := Lead(slashes);
    if root + SLASH <= path {
      var rest := path[|root + SLASH|..];
      assert path == root + SLASH + rest;
      SplitConcat(root, rest);
      LeadCancels(lead, d, c + Split(rest));
      assert lead + c + Split(rest) == lead + (c + Split(rest));
    }
    if |c| < |d| && c <= d {
      PrefixSpelled(root, slashes, c, path, d);
    }
    if root == path {
      LeadCancels(lead, c, d);
    }
  }

  lemma LeadCancels(lead: seq<string>, a: seq<string>, b: seq<string>)
    requires lead + a == lead + b
    ensures a == b
  {
    assert (lead + a)[|lead|..] == a && (lead + b)[|lead|..] == b;
  }

  lemma PrefixSpelled(root: string, slashes: string, c: seq<string>, path: string, d: seq<string>)
    requires Spells(root, slashes, c) && Spells(path, slashes, d) && |c| < |d| && c <= d
    ensures root + SLASH <= path
  {
    var rest := d[|c|..];
    assert d == c + rest;
    JoinConcat(c, rest);
    assert path == root + SLASH + Join(rest, SLASH);
  }
}
