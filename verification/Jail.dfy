/** Root validation, the jail join, the quarantine directory and the basename check of the on-box
    helper, as functions on strings. */
module Jail {
  import opened Text
  import opened Paths

  const ALLOWED_PREFIXES: seq<string> := ["/var/www", "/srv/www", "/home"]

  // What the proofs use of `\w`: no white space, slash, dot or NUL.
  ghost predicate WordClass(word: char -> bool) {
    forall c: char :: word(c) ==> !Space(c) && c != '/' && c != '.' && c != NUL
  }

  // `^[\w./\-]+$`. A stripped string does not end in a newline, so `$` means its end.
  predicate PathChars(s: string, word: char -> bool) {
    s != "" && forall i :: 0 <= i < |s| ==> PathChar(s[i], word)
  }

  predicate PathChar(c: char, word: char -> bool) {
    word(c) || c == '.' || c == '/' || c == '-'
  }

  // `path == p or path.startswith(p + "/")` for some allowed prefix.
  predicate UnderAllowed(path: string) {
    exists k :: 0 <= k < |ALLOWED_PREFIXES| && Under(path, ALLOWED_PREFIXES[k])
  }

  predicate Under(path: string, prefix: string) {
    path == prefix || prefix + SLASH <= path
  }

  function ValidateRoot(raw: string, word: char -> bool): Result {
    var path := Strip(raw);
    if path == "" || NUL in path then ValueError
    else if path[0] != '/' then ValueError
    else if Contains(path, "..") then ValueError
    else if !PathChars(path, word) then ValueError
    else
      var n := NormPath(path);
      if ".." in Split(n) || !UnderAllowed(n) then ValueError else Ok(n)
  }

  function JailRel(root: string, raw: string): Result {
    var rel := StripSlashes(Strip(raw));
    if rel == "" || NUL in rel || ".." in Split(rel) then ValueError
    else
      var joined := NormPath(JoinPath(root, rel));
      if joined != root && !(root + SLASH <= joined) then ValueError else Ok(joined)
  }

  // `os.path.join(a, b)`
  function JoinPath(a: string, b: string): string {
    if b != "" && b[0] == '/' then b
    else if a == "" || a[|a| - 1] == '/' then a + b
    else a + SLASH + b
  }

  function QuarantineDir(siteId: string, qroot: string, word: char -> bool): Result {
    var root := NormPath(qroot);
    if root[0] != '/' || ".." in Split(root) then ValueError
    else if UnderAllowed(root) then ValueError
    else
      var sid := Strip(siteId);
      if sid == "" || exists i :: 0 <= i < |sid| && !(word(sid[i]) || sid[i] == '-') then ValueError
      else
        var dest := NormPath(JoinPath(root, sid));
        if dest != root && !(root + SLASH <= dest) then ValueError else Ok(dest)
  }

  // `re.match(r"^[\w.\-]+$", name)`, where `$` also matches before a final newline.
  predicate BasenameOk(name: string, word: char -> bool) {
    var body := if name != "" && name[|name| - 1] == '\n' then name[..|name| - 1] else name;
    || NameChars(name, word)
    || NameChars(body, word)
  }

  predicate NameChars(s: string, word: char -> bool) {
    s != "" && forall i :: 0 <= i < |s| ==> word(s[i]) || s[i] == '.' || s[i] == '-'
  }

  // ---- substrings and components ----

  lemma OccursShift(a: char, s: string, c: string, k: nat)
    requires OccursAt(s, c, k)
    ensures OccursAt([a] + s, c, k + 1) && Contains([a] + s, c)
  {
    assert ([a] + s)[k + 1..k + 1 + |c|] == s[k..k + |c|];
    assert OccursAt([a] + s, c, k + 1);
  }

  lemma {:induction false} FirstOccurs(path: string)
    ensures OccursAt(path, Split(path)[0], 0) && Contains(path, Split(path)[0])
    decreases path
  {
    if path != "" && path[0] != '/' {
      FirstOccurs(path[1..]);
      var f := Split(path[1..])[0];
      assert path[..1 + |f|] == [path[0]] + path[1..][..|f|];
    }
    assert OccursAt(path, Split(path)[0], 0);
  }

  lemma {:induction false} ComponentOccurs(path: string, i: nat)
    requires i < |Split(path)|
    ensures Contains(path, Split(path)[i])
    decreases path
  {
    if i == 0 {
      FirstOccurs(path);
    } else {
      var rest := path[1..];
      var q := if path[0] == '/' then i - 1 else i;
      assert path == [path[0]] + rest && Split(rest)[q] == Split(path)[i];
      ComponentOccurs(rest, q);
      hide Split;
      var k :| 0 <= k <= |rest| && OccursAt(rest, Split(rest)[q], k);
      OccursShift(path[0], rest, Split(rest)[q], k);
    }
  }

  lemma SliceOfSlice(a: string, i: nat, n: nat, j: nat, m: nat)
    requires i + n <= |a| && j + m <= n
    ensures a[i..i + n][j..j + m] == a[i + j..i + j + m]
  {
    var x, y := a[i..i + n][j..j + m], a[i + j..i + j + m];
    forall k | 0 <= k < |x| ensures x[k] == y[k] {
      assert x[k] == a[i..i + n][j + k];
    }
  }

  lemma ContainsTransitive(a: string, b: string, c: string)
    requires Contains(a, b) && Contains(b, c)
    ensures Contains(a, c)
  {
    var i :| 0 <= i <= |a| && OccursAt(a, b, i);
    var j :| 0 <= j <= |b| && OccursAt(b, c, j);
    SliceOfSlice(a, i, |b|, j, |c|);
    assert OccursAt(a, c, i + j);
  }

  // Two dots in a row do not span a slash.
  lemma {:induction false} DotsInsideComponent(c: seq<string>)
    requires c != [] && Contains(Join(c, SLASH), "..")
    ensures exists i :: 0 <= i < |c| && Contains(c[i], "..")
    decreases c
  {
    var s := Join(c, SLASH);
    if |c| == 1 {
      assert Contains(c[0], "..");
    } else {
      var t, n := Join(c[1..], SLASH), |c[0]|;
      var k :| 0 <= k <= |s| && OccursAt(s, "..", k);
      assert s[k] == '.' && s[k + 1] == '.' by {
        assert s[k..k + 2][0] == '.' && s[k..k + 2][1] == '.';
      }
      assert s[n] == '/';
      if k + 1 < n {
        assert c[0][k..k + 2] == "..";
        assert OccursAt(c[0], "..", k);
      } else {
        assert k > n;
        assert t[k - n - 1..k - n + 1] == "..";
        assert OccursAt(t, "..", k - n - 1);
        DotsInsideComponent(c[1..]);
        var i :| 0 <= i < |c[1..]| && Contains(c[1..][i], "..");
        assert Contains(c[i + 1], "..");
      }
    }
  }

  lemma {:induction false} CleanedFrom(comps: seq<string>)
    ensures forall i :: 0 <= i < |Cleaned(comps)| ==> Cleaned(comps)[i] in comps
    decreases comps
  {
    if comps != [] {
      CleanedFrom(comps[1..]);
      assert comps == [comps[0]] + comps[1..];
    }
  }

  // Every character of a joined path is a slash or a character of a component.
  lemma {:induction false} JoinChars(c: seq<string>, p: char -> bool)
    requires p('/') && forall i, j :: 0 <= i < |c| && 0 <= j < |c[i]| ==> p(c[i][j])
    ensures forall k :: 0 <= k < |Join(c, SLASH)| ==> p(Join(c, SLASH)[k])
    decreases c
  {
    if |c| > 1 {
      var rest := c[1..];
      assert forall i, j :: 0 <= i < |rest| && 0 <= j < |rest[i]| ==> rest[i][j] == c[i + 1][j];
      JoinChars(rest, p);
    }
  }

  // ---- accepted roots ----

  lemma NoParents(path: string)
    requires !Contains(path, "..")
    ensures forall i :: 0 <= i < |Split(path)| ==> Split(path)[i] != ".."
  {
    forall i | 0 <= i < |Split(path)| ensures Split(path)[i] != ".." {
      ComponentOccurs(path, i);
    }
  }

  lemma NormPathOf(path: string)
    requires path != "" && path[0] == '/' && !Contains(path, "..")
    ensures NormPath(path) == LeadingSlashes(path) + Join(Cleaned(Split(path)), SLASH)
    ensures forall i :: 0 <= i < |Cleaned(Split(path))| ==> Plain(Cleaned(Split(path))[i])
  {
    NoParents(path);
    NormalizedWithoutParents(Split(path), []);
    CleanedPlain(Split(path));
    assert [] + Cleaned(Split(path)) == Cleaned(Split(path));
  }

  lemma AllowedStart(path: string)
    requires UnderAllowed(path)
    ensures |path| >= 2 && path[0] == '/' && path[1] != '/'
  {
    var k :| 0 <= k < |ALLOWED_PREFIXES| && Under(path, ALLOWED_PREFIXES[k]);
    var p := ALLOWED_PREFIXES[k];
    assert p == "/var/www" || p == "/srv/www" || p == "/home";
    assert p <= path;
  }

  /** An accepted root is "/" and plain components: those of the stripped input without the empty ones
      and the dots. */
  lemma RootIsSpelled(raw: string, word: char -> bool)
    requires ValidateRoot(raw, word).Ok?
    ensures Spells(ValidateRoot(raw, word).path, "/", Cleaned(Split(Strip(raw))))
  {
    var path := Strip(raw);
    var n := NormPath(path);
    NormPathOf(path);
    AllowedStart(n);
    hide Split, Cleaned, UnderAllowed, Plain;
    OneSlash(LeadingSlashes(path), Join(Cleaned(Split(path)), SLASH));
  }

  lemma OneSlash(slashes: string, tail: string)
    requires slashes == "/" || slashes == "//"
    requires |slashes + tail| >= 2 && (slashes + tail)[1] != '/'
    ensures slashes == "/" && tail != "" && tail != Join([], SLASH)
  {
    TwoSlashes(tail);
  }

  lemma TwoSlashes(tail: string)
    ensures ("//" + tail)[1] == '/'
  {
  }

  lemma PrefixSpelledOut()
    ensures Spells("/var/www", "/", ["var", "www"])
    ensures Spells("/srv/www", "/", ["srv", "www"])
    ensures Spells("/home", "/", ["home"])
  {
    assert Join(["var", "www"][1..], SLASH) == "www" && Join(["srv", "www"][1..], SLASH) == "www";
    assert Join(["var", "www"], SLASH) == "var/www" && Join(["srv", "www"], SLASH) == "srv/www";
    assert "/" + "var/www" == "/var/www" && "/" + "srv/www" == "/srv/www" && "/" + "home" == "/home";
  }

  lemma UnderMeansPrefix(path: string, c: seq<string>, prefix: string, d: seq<string>)
    requires Spells(path, "/", c) && Spells(prefix, "/", d) && Under(path, prefix)
    ensures d <= c
  {
    hide Spells;
    StartsWithIsPrefix(prefix, "/", d, path, c);
  }

  /** The string allowlist is a component allowlist: an accepted root lies in one of three directories,
      not merely in one whose name begins alike. */
  lemma RootComponentsAllowed(raw: string, word: char -> bool)
    requires ValidateRoot(raw, word).Ok?
    ensures var c := Cleaned(Split(Strip(raw)));
      ["var", "www"] <= c || ["srv", "www"] <= c || ["home"] <= c
  {
    var path, c := ValidateRoot(raw, word).path, Cleaned(Split(Strip(raw)));
    RootIsSpelled(raw, word);
    PrefixSpelledOut();
    hide Spells, Cleaned, Split, Under;
    var k :| 0 <= k < |ALLOWED_PREFIXES| && Under(path, ALLOWED_PREFIXES[k]);
    if k == 0 {
      UnderMeansPrefix(path, c, "/var/www", ["var", "www"]);
    } else if k == 1 {
      UnderMeansPrefix(path, c, "/srv/www", ["srv", "www"]);
    } else {
      UnderMeansPrefix(path, c, "/home", ["home"]);
    }
  }

  // ---- exactly which roots are accepted ----

  ghost predicate AllowedComponents(c: seq<string>) {
    ["var", "www"] <= c || ["srv", "www"] <= c || ["home"] <= c
  }

  // What a path says without being normalised: its characters, its slashes and its components.
  ghost predicate AcceptablePath(path: string, word: char -> bool) {
    && path != "" && path[0] == '/'
    && !(|path| >= 2 && path[1] == '/' && (|path| == 2 || path[2] != '/'))
    && (forall i :: 0 <= i < |path| ==> word(path[i]) || path[i] in "./-")
    && NUL !in path
    && (forall i :: 0 <= i < |path| - 1 ==> !(path[i] == '.' && path[i + 1] == '.'))
    && AllowedComponents(Cleaned(Split(path)))
  }

  lemma DotsAt(path: string, i: nat)
    ensures OccursAt(path, "..", i) <==> i + 1 < |path| && path[i] == '.' && path[i + 1] == '.'
  {
    if i + 2 <= |path| {
      assert path[i..i + 2] == [path[i], path[i + 1]];
      assert ".." == ['.', '.'];
    }
  }

  lemma TwoDots(path: string)
    ensures Contains(path, "..") <==> exists i :: 0 <= i < |path| - 1 && path[i] == '.' && path[i + 1] == '.'
  {
    if Contains(path, "..") {
      var i :| 0 <= i <= |path| && OccursAt(path, "..", i);
      DotsAt(path, i);
    }
    if i :| 0 <= i < |path| - 1 && path[i] == '.' && path[i + 1] == '.' {
      DotsAt(path, i);
    }
  }

  lemma SlashesAre(path: string)
    requires path != "" && path[0] == '/'
    ensures LeadingSlashes(path) == "/"
      <==> !(|path| >= 2 && path[1] == '/' && (|path| == 2 || path[2] != '/'))
  {
  }

  lemma PrefixAllowed(path: string, c: seq<string>, prefix: string, d: seq<string>)
    requires Spells(path, "/", c) && Spells(prefix, "/", d) && d <= c
    ensures Under(path, prefix)
  {
    if |d| < |c| {
      hide Spells;
      StartsWithIsPrefix(prefix, "/", d, path, c);
    } else {
      assert d == c;
    }
  }

  lemma AllowedIff(path: string, c: seq<string>)
    requires Spells(path, "/", c)
    ensures UnderAllowed(path) <==> AllowedComponents(c)
  {
    PrefixSpelledOut();
    hide Spells, Under;
    if UnderAllowed(path) {
      var k :| 0 <= k < |ALLOWED_PREFIXES| && Under(path, ALLOWED_PREFIXES[k]);
      UnderMeansPrefix(path, c, ALLOWED_PREFIXES[k], [["var", "www"], ["srv", "www"], ["home"]][k]);
    }
    if AllowedComponents(c) {
      var k := if ["var", "www"] <= c then 0 else if ["srv", "www"] <= c then 1 else 2;
      PrefixAllowed(path, c, ALLOWED_PREFIXES[k], [["var", "www"], ["srv", "www"], ["home"]][k]);
    }
  }

  lemma NoParentLeft(path: string, slashes: string, c: seq<string>)
    requires Spells(path, slashes, c)
    ensures ".." !in Split(path)
  {
    SpelledShape(path, slashes, c);
    hide Split;
  }

  /** A root is accepted if and only if, stripped, it starts with a slash (not exactly two), holds nothing but word
      characters, dots, slashes and hyphens, no two dots in a row, and its components start with one of the three
      allowed directories. */
  lemma RootAcceptedIff(raw: string, word: char -> bool)
    ensures ValidateRoot(raw, word).Ok? <==> AcceptablePath(Strip(raw), word)
  {
    var path := Strip(raw);
    TwoDots(path);
    PathCharsAre(path, word);
    if path != "" && path[0] == '/' && !Contains(path, "..") {
      var n, c := NormPath(path), Cleaned(Split(path));
      NormPathOf(path);
      SlashesAre(path);
      RootNormal(raw, path, n, word);
      hide NormPath, Split, Cleaned, Contains, PathChars, ValidateRoot, Strip, LeadingSlashes, UnderAllowed;
      if LeadingSlashes(path) == "/" && c != [] {
        assert Spells(n, "/", c);
        AllowedIff(n, c);
        NoParentLeft(n, "/", c);
      } else {
        NotAllowed(n, LeadingSlashes(path), c);
      }
    } else {
      hide NormPath, Split, Cleaned, Contains, PathChars, Strip, UnderAllowed;
    }
  }

  lemma PathCharsAre(path: string, word: char -> bool)
    ensures PathChars(path, word) <==> path != "" && forall i :: 0 <= i < |path| ==> word(path[i]) || path[i] in "./-"
  {
  }

  lemma RootNormal(raw: string, path: string, n: string, word: char -> bool)
    requires path == Strip(raw) && n == NormPath(path) && path != "" && path[0] == '/' && !Contains(path, "..")
    ensures ValidateRoot(raw, word).Ok?
      <==> NUL !in path && PathChars(path, word) && ".." !in Split(n) && UnderAllowed(n)
  {
    hide NormPath, Split, Contains, PathChars, Strip, UnderAllowed;
  }

  lemma NotAllowed(n: string, slashes: string, c: seq<string>)
    requires n == slashes + Join(c, SLASH) && (slashes == "/" || slashes == "//") && (slashes == "//" || c == [])
    ensures !UnderAllowed(n)
  {
    if UnderAllowed(n) {
      AllowedStart(n);
      hide UnderAllowed;
      OneSlash(slashes, Join(c, SLASH));
    }
  }

  lemma StripFixed(s: string)
    requires s != "" && !Space(s[0]) && !Space(s[|s| - 1])
    ensures Strip(s) == s
  {
  }

  lemma {:induction false} StripLeftChars(s: string, c: char)
    requires c in StripLeft(s)
    ensures c in s
  {
    if s != "" && Space(s[0]) {
      StripLeftChars(s[1..], c);
    }
  }

  // The characters of a component are characters of the path.
  lemma ComponentChars(path: string, comp: string, j: nat)
    requires comp in Split(path) && j < |comp|
    ensures comp[j] in path
  {
    var i :| 0 <= i < |Split(path)| && Split(path)[i] == comp;
    ComponentOccurs(path, i);
    var k :| 0 <= k <= |path| && OccursAt(path, comp, k);
    assert comp[j] == path[k..k + |comp|][j] == path[k + j];
  }

  // What an accepted root keeps of the characters and dots of its input.
  lemma NormalChars(path: string, word: char -> bool)
    requires PathChars(path, word) && path[0] == '/' && !Contains(path, "..")
    requires Spells(NormPath(path), "/", Cleaned(Split(path)))
    ensures PathChars(NormPath(path), word) && !Contains(NormPath(path), "..")
  {
    var c := Cleaned(Split(path));
    var n := NormPath(path);
    CleanedFrom(Split(path));
    hide Split, Cleaned, NormPath, Spells, Contains;
    SpelledChars(path, n, c, word);
    if Contains(n, "..") {
      DotsInPath(path, n, c);
    }
  }

  lemma SpelledChars(path: string, n: string, c: seq<string>, word: char -> bool)
    requires PathChars(path, word) && Spells(n, "/", c)
    requires forall i :: 0 <= i < |c| ==> c[i] in Split(path)
    ensures PathChars(n, word)
  {
    hide Split, PathChar;
    forall i, j | 0 <= i < |c| && 0 <= j < |c[i]| ensures PathChar(c[i][j], word) {
      ComponentChars(path, c[i], j);
    }
    SlashIsPathChar(word);
    JoinChars(c, x => PathChar(x, word));
    assert forall k :: 0 < k < |n| ==> n[k] == Join(c, SLASH)[k - 1];
  }

  lemma SlashIsPathChar(word: char -> bool)
    ensures PathChar('/', word)
  {
  }

  lemma DotsInPath(path: string, n: string, c: seq<string>)
    requires Spells(n, "/", c) && Contains(n, "..")
    requires forall i :: 0 <= i < |c| ==> c[i] in Split(path)
    ensures Contains(path, "..")
  {
    var tail := Join(c, SLASH);
    var k :| 0 <= k <= |n| && OccursAt(n, "..", k);
    assert n[k] == n[k..k + 2][0] == '.';
    assert tail[k - 1..k + 1] == n[k..k + 2];
    assert OccursAt(tail, "..", k - 1);
    hide Split, Join;
    DotsInsideComponent(c);
    var i :| 0 <= i < |c| && Contains(c[i], "..");
    var q :| 0 <= q < |Split(path)| && Split(path)[q] == c[i];
    ComponentOccurs(path, q);
    ContainsTransitive(path, c[i], "..");
  }

  /** Validating an accepted root again gives it back. */
  lemma ValidateRootIdempotent(raw: string, word: char -> bool)
    requires WordClass(word) && ValidateRoot(raw, word).Ok?
    ensures ValidateRoot(ValidateRoot(raw, word).path, word) == ValidateRoot(raw, word)
  {
    var path := Strip(raw);
    var n, c := NormPath(path), Cleaned(Split(path));
    RootIsSpelled(raw, word);
    NormalChars(path, word);
    SpelledEnds(n, c, word);
    StripFixed(n);
    NormPathFixed(n, "/", c);
    hide NormPath, Split, Cleaned, UnderAllowed, Contains;
    assert NUL !in n;
  }

  lemma SpelledEnds(n: string, c: seq<string>, word: char -> bool)
    requires WordClass(word) && PathChars(n, word) && Spells(n, "/", c)
    ensures n[0] == '/' && !Space(n[0]) && !Space(n[|n| - 1]) && forall k :: 0 <= k < |n| ==> n[k] != NUL
  {
    assert forall k :: 0 <= k < |n| ==> PathChar(n[k], word);
  }

  // ---- the jail ----

  /** For every accepted root the jail join either refuses the input for what it is (nothing left of it,
      a NUL, or a ".." component) or appends its components, without the empty ones and the dots, to the
      root's: the "escape" branch is never taken. */
  lemma JailStaysInside(raw: string, word: char -> bool, rawRel: string)
    requires ValidateRoot(raw, word).Ok?
    ensures var root := ValidateRoot(raw, word).path;
      var rel := StripSlashes(Strip(rawRel));
      var r := JailRel(root, rawRel);
      && (r == ValueError <==> rel == "" || NUL in rel || ".." in Split(rel))
      && (r.Ok? ==> Spells(r.path, "/", Cleaned(Split(Strip(raw))) + Cleaned(Split(rel))))
  {
    var root := ValidateRoot(raw, word).path;
    var c := Cleaned(Split(Strip(raw)));
    var rel := StripSlashes(Strip(rawRel));
    RootIsSpelled(raw, word);
    if !(rel == "" || NUL in rel || ".." in Split(rel)) {
      JailAppends(root, c, rel);
    }
  }

  lemma JailAppends(root: string, c: seq<string>, rel: string)
    requires Spells(root, "/", c) && rel != "" && rel[0] != '/' && ".." !in Split(rel)
    ensures var joined := NormPath(JoinPath(root, rel));
      && Spells(joined, "/", c + Cleaned(Split(rel)))
      && (joined == root || root + SLASH <= joined)
  {
    SpelledLast(root, c);
    assert JoinPath(root, rel) == root + SLASH + rel;
    NormPathAppend(root, "/", c, rel);
    var joined, d := NormPath(root + SLASH + rel), c + Cleaned(Split(rel));
    hide NormPath, Split, Cleaned;
    if d == c {
      assert joined == root;
    } else {
      StartsWithIsPrefix(root, "/", c, joined, d);
    }
  }

  // A spelled path does not end in a slash.
  lemma SpelledLast(path: string, c: seq<string>)
    requires exists slashes :: Spells(path, slashes, c)
    ensures path[|path| - 1] != '/'
  {
    JoinLast(c);
  }

  lemma {:induction false} JoinLast(c: seq<string>)
    requires c != [] && forall i :: 0 <= i < |c| ==> Plain(c[i])
    ensures Join(c, SLASH) != "" && Join(c, SLASH)[|Join(c, SLASH)| - 1] != '/'
    decreases c
  {
    if |c| > 1 {
      JoinLast(c[1..]);
    }
  }

  // ---- the quarantine directory ----

  // An absolute normalised path is slashes alone, or slashes and plain components.
  lemma {:induction false} NormalizedPlain(comps: seq<string>, done: seq<string>)
    requires forall i :: 0 <= i < |comps| ==> '/' !in comps[i]
    requires forall i :: 0 <= i < |done| ==> Plain(done[i])
    ensures forall i :: 0 <= i < |Normalized(comps, true, done)| ==> Plain(Normalized(comps, true, done)[i])
    decreases comps
  {
    if comps != [] {
      var c := comps[0];
      NormalizedPlain(comps[1..],
        if c == "" || c == "." then done
        else if c != ".." || (done != [] && done[|done| - 1] == "..") then done + [c]
        else if done != [] then done[..|done| - 1]
        else done);
    }
  }

  lemma NormPathAbsolute(q: string)
    requires NormPath(q)[0] == '/'
    ensures var c := Normalized(Split(q), true, []);
      var slashes := LeadingSlashes(q);
      (slashes == "/" || slashes == "//") && NormPath(q) == slashes + Join(c, SLASH) && (c != [] ==> Spells(NormPath(q), slashes, c))
  {
    if q != "" {
      NormalizedPlain(Split(q), []);
      if LeadingSlashes(q) == "" {
        RelativeStart(q);
      }
    }
  }

  // A relative path does not normalise to an absolute one.
  lemma RelativeStart(q: string)
    requires q != "" && LeadingSlashes(q) == ""
    ensures NormPath(q)[0] != '/'
  {
    var c := Normalized(Split(q), false, []);
    NormalizedNoSlash(Split(q), false, []);
    if c != [] {
      assert c[0] != "" && '/' !in c[0];
      JoinFirst(c);
    }
  }

  lemma JoinFirst(c: seq<string>)
    requires c != [] && c[0] != ""
    ensures Join(c, SLASH) != "" && Join(c, SLASH)[0] == c[0][0]
  {
  }

  lemma {:induction false} NormalizedNoSlash(comps: seq<string>, rooted: bool, done: seq<string>)
    requires forall i :: 0 <= i < |comps| ==> '/' !in comps[i]
    requires forall i :: 0 <= i < |done| ==> '/' !in done[i] && done[i] != ""
    ensures forall i :: 0 <= i < |Normalized(comps, rooted, done)| ==>
      '/' !in Normalized(comps, rooted, done)[i] && Normalized(comps, rooted, done)[i] != ""
    decreases comps
  {
    if comps != [] {
      var c := comps[0];
      NormalizedNoSlash(comps[1..], rooted,
        if c == "" || c == "." then done
        else if c != ".." || (!rooted && done == []) || (done != [] && done[|done| - 1] == "..") then done + [c]
        else if done != [] then done[..|done| - 1]
        else done);
    }
  }

  lemma SiteIdPlain(sid: string, word: char -> bool)
    requires WordClass(word) && sid != "" && forall i :: 0 <= i < |sid| ==> word(sid[i]) || sid[i] == '-'
    ensures Plain(sid) && Split(sid) == [sid] && Cleaned([sid]) == [sid]
  {
    assert forall i :: 0 <= i < |sid| ==> sid[i] != '/' && sid[i] != '.';
    SplitPlain(sid);
    assert [sid][1..] == [];
  }

  /** The quarantine directory is exactly one component, the site id, below the normalised quarantine
      root: different site ids have different directories. A quarantine root of slashes alone is
      always refused. */
  lemma QuarantineDirShape(siteId: string, qroot: string, word: char -> bool)
    requires WordClass(word) && QuarantineDir(siteId, qroot, word).Ok?
    ensures QuarantineDir(siteId, qroot, word).path == NormPath(qroot) + SLASH + Strip(siteId)
    ensures var slashes, c := LeadingSlashes(qroot), Normalized(Split(qroot), true, []);
      && Spells(NormPath(qroot), slashes, c)
      && Spells(QuarantineDir(siteId, qroot, word).path, slashes, c + [Strip(siteId)])
  {
    var root, sid, c := NormPath(qroot), Strip(siteId), Normalized(Split(qroot), true, []);
    var slashes := LeadingSlashes(qroot);
    DirectoryAccepted(siteId, qroot, word);
    NormPathAbsolute(qroot);
    hide *;
    SiteIdPlain(sid, word);
    if c == [] {
      OnlySlashes(slashes, c);
      SlashesRefused(slashes, sid);
    } else {
      DirectoryBelow(root, slashes, c, sid);
    }
  }

  lemma OnlySlashes(slashes: string, c: seq<string>)
    requires c == []
    ensures slashes + Join(c, SLASH) == slashes
  {
  }

  lemma DirectoryAccepted(siteId: string, qroot: string, word: char -> bool)
    requires QuarantineDir(siteId, qroot, word).Ok?
    ensures var root, sid := NormPath(qroot), Strip(siteId);
      && root[0] == '/' && sid != "" && (forall i :: 0 <= i < |sid| ==> word(sid[i]) || sid[i] == '-')
      && QuarantineDir(siteId, qroot, word).path == NormPath(JoinPath(root, sid))
      && (NormPath(JoinPath(root, sid)) == root || root + SLASH <= NormPath(JoinPath(root, sid)))
  {
    hide NormPath, Strip, JoinPath, UnderAllowed;
  }

  lemma DirectoryBelow(root: string, slashes: string, c: seq<string>, sid: string)
    requires Spells(root, slashes, c) && Plain(sid) && Split(sid) == [sid] && Cleaned([sid]) == [sid]
    ensures NormPath(JoinPath(root, sid)) == root + SLASH + sid
    ensures Spells(NormPath(JoinPath(root, sid)), slashes, c + [sid])
  {
    SpelledLast(root, c);
    assert JoinPath(root, sid) == root + SLASH + sid;
    hide NormPath, Split, Cleaned, Join;
    NormPathAppend(root, slashes, c, sid);
    JoinSpelled(root, slashes, c, sid);
  }

  lemma JoinSpelled(root: string, slashes: string, c: seq<string>, sid: string)
    requires Spells(root, slashes, c)
    ensures slashes + Join(c + [sid], SLASH) == root + SLASH + sid
  {
    JoinConcat(c, [sid]);
  }

  lemma SlashesRefused(slashes: string, sid: string)
    requires slashes == "/" || slashes == "//"
    requires Plain(sid)
    ensures var dest := NormPath(JoinPath(slashes, sid));
      dest != slashes && !(slashes + SLASH <= dest)
  {
    var p := slashes + sid;
    assert JoinPath(slashes, sid) == p;
    assert Spells(p, slashes, [sid]);
    NormPathFixed(p, slashes, [sid]);
    assert p[|slashes|] == sid[0];
  }

  // The normalised quarantine root and the site id as they have to be.
  ghost predicate AcceptableQuarantine(siteId: string, qroot: string, word: char -> bool) {
    var c, sid := Normalized(Split(qroot), true, []), Strip(siteId);
    && qroot != "" && qroot[0] == '/' && c != []
    && (LeadingSlashes(qroot) == "/" ==> !AllowedComponents(c))
    && sid != "" && forall i :: 0 <= i < |sid| ==> word(sid[i]) || sid[i] == '-'
  }

  ghost predicate SidChars(sid: string, word: char -> bool) {
    sid != "" && forall i :: 0 <= i < |sid| ==> word(sid[i]) || sid[i] == '-'
  }

  lemma AbsoluteIff(q: string)
    ensures NormPath(q)[0] == '/' <==> q != "" && q[0] == '/'
  {
    if q != "" && q[0] != '/' {
      RelativeStart(q);
    }
  }

  lemma DirectoryTests(siteId: string, qroot: string, word: char -> bool)
    ensures var root, sid := NormPath(qroot), Strip(siteId);
      var dest := NormPath(JoinPath(root, sid));
      QuarantineDir(siteId, qroot, word).Ok?
      <==> root[0] == '/' && ".." !in Split(root) && !UnderAllowed(root) && SidChars(sid, word)
           && (dest == root || root + SLASH <= dest)
  {
    hide NormPath, Split, Strip, JoinPath, UnderAllowed;
  }

  lemma DirectoryAllowed(root: string, slashes: string, c: seq<string>)
    requires Spells(root, slashes, c)
    ensures UnderAllowed(root) <==> slashes == "/" && AllowedComponents(c)
  {
    if slashes == "/" {
      AllowedIff(root, c);
    } else {
      NotAllowed(root, slashes, c);
    }
    hide UnderAllowed;
  }

  lemma DirectoryWanted(siteId: string, qroot: string, word: char -> bool)
    ensures var c, sid := Normalized(Split(qroot), true, []), Strip(siteId);
      AcceptableQuarantine(siteId, qroot, word)
      <==> qroot != "" && qroot[0] == '/' && c != [] && (LeadingSlashes(qroot) == "/" ==> !AllowedComponents(c))
           && SidChars(sid, word)
  {
    hide Normalized, Split, Strip, LeadingSlashes, AllowedComponents;
  }

  lemma SidOf(sid: string, word: char -> bool)
    requires SidChars(sid, word)
    ensures sid != "" && forall i :: 0 <= i < |sid| ==> word(sid[i]) || sid[i] == '-'
  {
  }

  lemma BelowIsPrefix(root: string, sid: string)
    ensures root + SLASH <= root + SLASH + sid
  {
  }

  /** A quarantine directory is accepted if and only if its root is absolute, not slashes alone, and not in one of the
      web directories, and the stripped site id is made of word characters and hyphens. */
  lemma QuarantineDirAcceptedIff(siteId: string, qroot: string, word: char -> bool)
    requires WordClass(word)
    ensures QuarantineDir(siteId, qroot, word).Ok? <==> AcceptableQuarantine(siteId, qroot, word)
  {
    var root, sid, c := NormPath(qroot), Strip(siteId), Normalized(Split(qroot), true, []);
    var slashes := LeadingSlashes(qroot);
    hide *;
    AbsoluteIff(qroot);
    DirectoryTests(siteId, qroot, word);
    DirectoryWanted(siteId, qroot, word);
    if qroot != "" && qroot[0] == '/' && SidChars(sid, word) {
      NormPathAbsolute(qroot);
      SidOf(sid, word);
      SiteIdPlain(sid, word);
      if c == [] {
        OnlySlashes(slashes, c);
        SlashesRefused(slashes, sid);
      } else {
        DirectoryBelow(root, slashes, c, sid);
        BelowIsPrefix(root, sid);
        NoParentLeft(root, slashes, c);
        DirectoryAllowed(root, slashes, c);
      }
    }
  }

  lemma QuarantineDirInjective(a: string, b: string, qroot: string, word: char -> bool)
    requires WordClass(word) && QuarantineDir(a, qroot, word).Ok?
    requires QuarantineDir(a, qroot, word) == QuarantineDir(b, qroot, word)
    ensures Strip(a) == Strip(b)
  {
    QuarantineDirShape(a, qroot, word);
    QuarantineDirShape(b, qroot, word);
    var base := NormPath(qroot) + SLASH;
    hide NormPath, Strip, Normalized;
    assert (base + Strip(a))[|base|..] == Strip(a) && (base + Strip(b))[|base|..] == Strip(b);
  }
}
