/** Moving files into quarantine and back (`run_quarantine`, `run_restore`), on a file system whose
    paths are lists of components. Symbolic links are not modelled, and a move is one rename. */
module Quarantine {
  import opened Common
  import opened Paths
  import Jail

  type Path = seq<string>

  // `Other` is anything that exists without being a file or a directory.
  datatype Node = File(content: string) | Dir | Other

  type Fs = map<Path, Node>

  predicate IsFile(fs: Fs, p: Path) {
    p in fs && fs[p].File?
  }

  predicate IsDir(fs: Fs, p: Path) {
    p == [] || (p in fs && fs[p] == Dir)
  }

  function Parent(p: Path): Path
    requires p != []
  {
    p[..|p| - 1]
  }

  // A tree: everything that exists stands in a directory.
  ghost predicate Tree(fs: Fs) {
    [] !in fs && forall p :: p in fs ==> p != [] && IsDir(fs, Parent(p))
  }

  // `os.makedirs(p, exist_ok=True)`: the new file system, and whether it succeeded.
  function MakeDirs(fs: Fs, p: Path): (r: (Fs, bool))
    ensures forall q :: q in fs ==> q in r.0 && r.0[q] == fs[q]
    ensures forall q :: q in r.0 && q !in fs ==> r.0[q] == Dir && q != [] && q <= p
    ensures r.1 ==> IsDir(r.0, p)
    decreases |p|
  {
    if p == [] then (fs, true)
    else
      var (fs1, ok) := MakeDirs(fs, Parent(p));
      if !ok then (fs1, false)
      else if p in fs1 then (fs1, fs1[p] == Dir)
      else (fs1[p := Dir], true)
  }

  function Rename(fs: Fs, src: Path, dest: Path): Fs
    requires src in fs
  {
    (fs - {src})[dest := fs[src]]
  }

  // A name below a directory. "." and ".." name directories that are already there.
  function Below(dir: Path, name: string): Option<Path> {
    if name == "." || name == ".." then None else Some(dir + [name])
  }

  predicate IsFileAt(fs: Fs, p: Option<Path>) {
    p.Some? && IsFile(fs, p.value)
  }

  // A checked command: the file in the web root, the quarantine directory and the name in it.
  datatype Command =
    | Quarantine(src: Path, dir: Path, name: string)
    | Restore(original: Path, dir: Path, name: string)

  datatype Outcome = Outcome(fs: Fs, code: int)

  // `osError` is a failing chmod or rename; a failing makedirs follows from the file system.
  function Exec(fs: Fs, c: Command, osError: bool): Outcome {
    match c
    case Quarantine(src, dir, name) =>
      var dest := Below(dir, name);
      if IsFileAt(fs, dest) && !IsFile(fs, src) then Outcome(fs, 0)
      else if IsFileAt(fs, dest) && IsFile(fs, src) then Outcome(fs, 6)
      else if !IsFile(fs, src) then Outcome(fs, 6)
      else
        var (fs1, ok) := MakeDirs(fs, dir);
        if !ok || dest.None? || dest.value in fs1 || osError then Outcome(fs1, 6)
        else Outcome(Rename(fs1, src, dest.value), 0)
    case Restore(original, dir, name) =>
      var src := Below(dir, name);
      if IsFile(fs, original) && !IsFileAt(fs, src) then Outcome(fs, 0)
      else if IsFile(fs, original) && IsFileAt(fs, src) then Outcome(fs, 6)
      else if !IsFileAt(fs, src) then Outcome(fs, 6)
      else
        var (fs1, ok) := if original == [] then (fs, true) else MakeDirs(fs, Parent(original));
        if !ok || original == [] || original in fs1 || osError then Outcome(fs1, 6)
        else Outcome(Rename(fs1, src.value, original), 0)
  }

  // ---- the command line ----

  datatype Args = Args(root: string, relPath: string, siteId: string, quarantineRoot: string, basename: string)

  function PathOf(s: string): Path {
    Cleaned(Split(s))
  }

  // The checks both actions start with; None is exit code 2.
  function Checked(restore: bool, a: Args, word: char -> bool): Option<Command> {
    match Jail.ValidateRoot(a.root, word)
    case ValueError => None
    case Ok(root) =>
      match (Jail.JailRel(root, a.relPath), Jail.QuarantineDir(a.siteId, a.quarantineRoot, word))
      case (Ok(file), Ok(dir)) =>
        if !Jail.BasenameOk(a.basename, word) then None
        else if restore then Some(Restore(PathOf(file), PathOf(dir), a.basename))
        else Some(Quarantine(PathOf(file), PathOf(dir), a.basename))
      case _ => None
  }

  class Disk {
    var fs: Fs

    // `run_quarantine` and `run_restore`
    method RunAction(restore: bool, a: Args, word: char -> bool, osError: bool) returns (code: int)
      modifies this
      ensures match Checked(restore, a, word)
        case None => code == 2 && fs == old(fs)
        case Some(c) => Outcome(fs, code) == Exec(old(fs), c, osError)
    {
      hide Exec;
      match Checked(restore, a, word) {
        case None => code := 2;
        case Some(c) =>
          match c {
            case Quarantine(src, dir, name) => code := RunQuarantine(src, dir, name, osError);
            case Restore(original, dir, name) => code := RunRestore(original, dir, name, osError);
          }
      }
    }

    method MkDirs(p: Path) returns (ok: bool)
      modifies this
      ensures (fs, ok) == MakeDirs(old(fs), p)
    {
      ok := true;
      for i := 0 to |p|
        invariant ok && (fs, true) == MakeDirs(old(fs), p[..i])
      {
        var q := p[..i + 1];
        assert Parent(q) == p[..i];
        if q !in fs {
          fs := fs[q := Dir];
        } else if fs[q] != Dir {
          FailureSticks(old(fs), p, i + 1);
          return false;
        }
      }
      assert p[..|p|] == p;
    }

    method RunQuarantine(src: Path, dir: Path, name: string, osError: bool) returns (code: int)
      modifies this
      ensures Outcome(fs, code) == Exec(old(fs), Quarantine(src, dir, name), osError)
    {
      hide MakeDirs;
      var dest := Below(dir, name);
      if IsFileAt(fs, dest) && !IsFile(fs, src) { return 0; }
      if IsFileAt(fs, dest) && IsFile(fs, src) { return 6; }
      if !IsFile(fs, src) { return 6; }
      var ok := MkDirs(dir);
      if !ok || dest.None? || dest.value in fs || osError { return 6; }
      fs := Rename(fs, src, dest.value);
      return 0;
    }

    method RunRestore(original: Path, dir: Path, name: string, osError: bool) returns (code: int)
      modifies this
      ensures Outcome(fs, code) == Exec(old(fs), Restore(original, dir, name), osError)
    {
      hide MakeDirs;
      var src := Below(dir, name);
      if IsFile(fs, original) && !IsFileAt(fs, src) { return 0; }
      if IsFile(fs, original) && IsFileAt(fs, src) { return 6; }
      if !IsFileAt(fs, src) || original == [] { return 6; }
      var ok := MkDirs(Parent(original));
      if !ok || original in fs || osError { return 6; }
      fs := Rename(fs, src.value, original);
      return 0;
    }
  }

  lemma {:induction false} FailureSticks(fs: Fs, p: Path, n: nat)
    requires n <= |p| && !MakeDirs(fs, p[..n]).1
    ensures MakeDirs(fs, p) == MakeDirs(fs, p[..n])
    decreases |p| - n
  {
    if n == |p| {
      assert p[..n] == p;
    } else {
      assert Parent(p[..n + 1]) == p[..n];
      FailureSticks(fs, p, n + 1);
    }
  }

  // ---- what one command does ----

  lemma {:induction false} MakeDirsTree(fs: Fs, p: Path)
    requires Tree(fs)
    ensures Tree(MakeDirs(fs, p).0)
    ensures !MakeDirs(fs, p).1 ==> MakeDirs(fs, p).0 == fs
    ensures IsDir(fs, p) ==> MakeDirs(fs, p) == (fs, true)
    decreases |p|
  {
    if p != [] {
      MakeDirsTree(fs, Parent(p));
    }
  }

  lemma {:induction false} MakeDirsTwice(fs: Fs, p: Path)
    requires Tree(fs)
    ensures MakeDirs(MakeDirs(fs, p).0, p) == MakeDirs(fs, p)
  {
    MakeDirsTree(fs, p);
    if MakeDirs(fs, p).1 {
      MakeDirsTree(MakeDirs(fs, p).0, p);
    }
  }

  // The file a command moves, and where to; None when it moves nothing.
  function Move(fs: Fs, c: Command, osError: bool): Option<(Path, Path)> {
    var after := Exec(fs, c, osError).fs;
    match c
    case Quarantine(src, dir, name) =>
      if name != "." && name != ".." && IsFile(fs, src) && src !in after then Some((src, dir + [name])) else None
    case Restore(original, dir, name) =>
      if name != "." && name != ".." && IsFile(fs, dir + [name]) && dir + [name] !in after
      then Some((dir + [name], original)) else None
  }

  // Nothing but new directories.
  ghost predicate OnlyNewDirs(fs: Fs, after: Fs) {
    forall p :: (p in fs ==> p in after && after[p] == fs[p]) && (p in after && p !in fs ==> after[p] == Dir)
  }

  // The file at `src` is now at `dest`, which was free; elsewhere nothing but new directories.
  ghost predicate Relocates(fs: Fs, after: Fs, src: Path, dest: Path) {
    && IsFile(fs, src) && src !in after && dest !in fs && dest in after && after[dest] == fs[src]
    && forall p :: p != src && p != dest ==>
         (p in fs ==> p in after && after[p] == fs[p]) && (p in after && p !in fs ==> after[p] == Dir)
  }

  lemma RenameRelocates(fs: Fs, fs1: Fs, src: Path, dir: Path, name: string)
    requires Tree(fs1) && OnlyNewDirs(fs, fs1) && IsFile(fs, src) && IsDir(fs1, dir) && dir + [name] !in fs1
    ensures var after := Rename(fs1, src, dir + [name]);
      Tree(after) && Relocates(fs, after, src, dir + [name]) && src !in after
  {
    assert Parent(dir + [name]) == dir;
  }

  lemma QuarantineMovesOneFile(fs: Fs, src: Path, dir: Path, name: string, osError: bool)
    requires Tree(fs)
    ensures var c := Quarantine(src, dir, name);
      var after := Exec(fs, c, osError).fs;
      && Tree(after)
      && match Move(fs, c, osError)
         case None => OnlyNewDirs(fs, after)
         case Some(m) => Relocates(fs, after, m.0, m.1)
  {
    hide MakeDirs, Tree, OnlyNewDirs, Relocates;
    var fs1 := MakeDirs(fs, dir).0;
    MakeDirsTree(fs, dir);
    NothingNew(fs);
    MakeDirsAdds(fs, dir);
    FileStays(fs, fs1, src);
    if MakeDirs(fs, dir).1 && IsFile(fs, src) && dir + [name] !in fs1 {
      RenameRelocates(fs, fs1, src, dir, name);
    }
  }

  lemma MakeDirsAdds(fs: Fs, p: Path)
    ensures OnlyNewDirs(fs, MakeDirs(fs, p).0)
  {
    hide MakeDirs;
  }

  lemma FileStays(fs: Fs, fs1: Fs, src: Path)
    requires OnlyNewDirs(fs, fs1)
    ensures IsFile(fs, src) ==> src in fs1
  {
  }

  lemma NothingNew(fs: Fs)
    ensures OnlyNewDirs(fs, fs)
  {
  }

  lemma RestoreMovesOneFile(fs: Fs, original: Path, dir: Path, name: string, osError: bool)
    requires Tree(fs)
    ensures var c := Restore(original, dir, name);
      var after := Exec(fs, c, osError).fs;
      && Tree(after)
      && match Move(fs, c, osError)
         case None => OnlyNewDirs(fs, after)
         case Some(m) => Relocates(fs, after, m.0, m.1)
  {
    assert OnlyNewDirs(fs, fs);
    if original != [] {
      var up := Parent(original);
      var fs1 := MakeDirs(fs, up).0;
      MakeDirsTree(fs, up);
      assert OnlyNewDirs(fs, fs1);
      assert original == up + [original[|original| - 1]];
      RestoreCases(fs, original, dir, name, osError);
      hide MakeDirs, Exec;
      if Exec(fs, Restore(original, dir, name), osError).fs !in {fs, fs1} {
        RenameRelocates(fs, fs1, dir + [name], up, original[|original| - 1]);
      }
      hide Tree, OnlyNewDirs, Relocates, Rename;
    }
  }

  lemma RestoreCases(fs: Fs, original: Path, dir: Path, name: string, osError: bool)
    requires original != []
    ensures var after := Exec(fs, Restore(original, dir, name), osError).fs;
      var (fs1, ok) := MakeDirs(fs, Parent(original));
      || after == fs
      || after == fs1
      || (name != "." && name != ".." && IsFile(fs, dir + [name]) && ok && original !in fs1
          && after == Rename(fs1, dir + [name], original))
  {
    hide MakeDirs, Rename;
  }

  /** A command either creates directories only, or also takes one file from a place it leaves to a
      place that was free; every other file, and all contents, stay as they are. */
  lemma CommandMovesOneFile(fs: Fs, c: Command, osError: bool)
    requires Tree(fs)
    ensures var after := Exec(fs, c, osError).fs;
      && Tree(after)
      && match Move(fs, c, osError)
         case None => OnlyNewDirs(fs, after)
         case Some(m) => Relocates(fs, after, m.0, m.1)
  {
    hide Exec, Move, Tree;
    match c {
      case Quarantine(src, dir, name) => QuarantineMovesOneFile(fs, src, dir, name, osError);
      case Restore(original, dir, name) => RestoreMovesOneFile(fs, original, dir, name, osError);
    }
  }

  // ---- exactly when a command succeeds ----

  // Nothing but directories on the way down.
  ghost predicate Passable(fs: Fs, dir: Path) {
    forall n :: 0 < n <= |dir| && dir[..n] in fs ==> fs[dir[..n]] == Dir
  }

  predicate OnTheWay(p: Path, dir: Path) {
    p != [] && p <= dir
  }

  // The missing directories on the way down, and nothing else.
  ghost predicate WithDirs(fs: Fs, after: Fs, dir: Path) {
    forall p ::
      && (p in after <==> p in fs || OnTheWay(p, dir))
      && (p in after ==> after[p] == if p in fs then fs[p] else Dir)
  }

  // The missing directories on the way down to the new place, and the file there instead of here.
  ghost predicate Moved(fs: Fs, after: Fs, src: Path, dest: Path, dir: Path)
    requires src in fs
  {
    forall p ::
      && (p in after <==> p == dest || (p != src && (p in fs || OnTheWay(p, dir))))
      && (p in after ==> after[p] == if p == dest then fs[src] else if p in fs then fs[p] else Dir)
  }

  lemma PassableParent(fs: Fs, p: Path)
    requires p != []
    ensures Passable(fs, p) <==> Passable(fs, Parent(p)) && (p in fs ==> fs[p] == Dir)
  {
    assert p[..|p|] == p;
    assert forall n :: 0 <= n < |p| ==> Parent(p)[..n] == p[..n];
  }

  lemma WayStep(p: Path, q: Path)
    requires p != []
    ensures OnTheWay(q, p) <==> q == p || OnTheWay(q, Parent(p))
  {
    assert p == Parent(p) + [p[|p| - 1]];
    if q <= p && q != p {
      assert q == p[..|q|] && |q| < |p|;
      assert Parent(p)[..|q|] == p[..|q|];
    }
  }

  lemma {:induction false} MakeDirsIff(fs: Fs, p: Path)
    requires Tree(fs)
    ensures MakeDirs(fs, p).1 <==> Passable(fs, p)
    ensures MakeDirs(fs, p).1 ==> WithDirs(fs, MakeDirs(fs, p).0, p)
    ensures !MakeDirs(fs, p).1 ==> MakeDirs(fs, p).0 == fs
    decreases |p|
  {
    MakeDirsTree(fs, p);
    if p == [] {
    } else {
      MakeDirsIff(fs, Parent(p));
      PassableParent(fs, p);
      MakeDirsStep(fs, p);
      hide MakeDirs, Tree, Passable, WithDirs;
    }
  }

  lemma MakeDirsStep(fs: Fs, p: Path)
    requires p != [] && Tree(fs)
    requires MakeDirs(fs, Parent(p)).1 ==> WithDirs(fs, MakeDirs(fs, Parent(p)).0, Parent(p))
    ensures MakeDirs(fs, p).1 <==> MakeDirs(fs, Parent(p)).1 && (p in fs ==> fs[p] == Dir)
    ensures MakeDirs(fs, p).1 ==> WithDirs(fs, MakeDirs(fs, p).0, p)
  {
    var (fs1, ok) := MakeDirs(fs, Parent(p));
    var out := MakeDirs(fs, p);
    assert out == if !ok then (fs1, false) else if p in fs1 then (fs1, fs1[p] == Dir) else (fs1[p := Dir], true);
    hide MakeDirs, Tree;
    if ok {
      NotOnOwnWay(p);
      OneMoreDir(fs, fs1, p);
    }
  }

  lemma NotOnOwnWay(p: Path)
    requires p != []
    ensures !OnTheWay(p, Parent(p))
  {
  }

  lemma OneMoreDir(fs: Fs, fs1: Fs, p: Path)
    requires p != [] && WithDirs(fs, fs1, Parent(p)) && !OnTheWay(p, Parent(p))
    ensures p in fs1 <==> p in fs
    ensures p in fs1 ==> fs1[p] == fs[p] && (fs1[p] == Dir ==> WithDirs(fs, fs1, p))
    ensures p !in fs1 ==> WithDirs(fs, fs1[p := Dir], p)
  {
    forall q ensures OnTheWay(q, p) <==> q == p || OnTheWay(q, Parent(p)) {
      WayStep(p, q);
    }
    hide OnTheWay;
  }

  lemma NewPlace(dir: Path, name: string)
    ensures !OnTheWay(dir + [name], dir)
  {
  }

  lemma RenameIs(fs: Fs, fs1: Fs, src: Path, dest: Path, dir: Path)
    requires src in fs && WithDirs(fs, fs1, dir)
    ensures src in fs1 && Moved(fs, Rename(fs1, src, dest), src, dest, dir)
  {
    hide OnTheWay;
  }

  // A free place stays free while directories are made on the way to it.
  lemma StaysFree(fs: Fs, fs1: Fs, dir: Path, name: string)
    requires WithDirs(fs, fs1, dir)
    ensures dir + [name] in fs1 <==> dir + [name] in fs
  {
    NewPlace(dir, name);
    hide OnTheWay;
  }

  lemma BelowIs(fs: Fs, dir: Path, name: string)
    ensures Below(dir, name) == if name != "." && name != ".." then Some(dir + [name]) else None
    ensures IsFileAt(fs, Below(dir, name))
      <==> name != "." && name != ".." && dir + [name] in fs && fs[dir + [name]].File?
  {
  }

  // The two commands with their tests on the file map written out.
  lemma QuarantineIs(fs: Fs, src: Path, dir: Path, name: string, osError: bool, fs1: Fs, ok: bool)
    requires (fs1, ok) == MakeDirs(fs, dir)
    ensures Exec(fs, Quarantine(src, dir, name), osError)
      == (var dest := dir + [name];
          var plain := name != "." && name != "..";
          var here, there := src in fs && fs[src].File?, plain && dest in fs && fs[dest].File?;
          if !here || there then Outcome(fs, if there && !here then 0 else 6)
          else if !ok || !plain || dest in fs1 || osError then Outcome(fs1, 6)
          else if src in fs then Outcome(Rename(fs1, src, dest), 0)
          else Outcome(fs, 6))
  {
    BelowIs(fs, dir, name);
    hide MakeDirs, Rename, Below, IsFileAt;
  }

  lemma RestoreIs(fs: Fs, original: Path, dir: Path, name: string, osError: bool, fs1: Fs, ok: bool)
    requires original != [] && (fs1, ok) == MakeDirs(fs, Parent(original))
    ensures Exec(fs, Restore(original, dir, name), osError)
      == (var src := dir + [name];
          var there := original in fs && fs[original].File?;
          var here := name != "." && name != ".." && src in fs && fs[src].File?;
          if !here || there then Outcome(fs, if there && !here then 0 else 6)
          else if !ok || original in fs1 || osError then Outcome(fs1, 6)
          else if src in fs then Outcome(Rename(fs1, src, original), 0)
          else Outcome(fs, 6))
  {
    BelowIs(fs, dir, name);
    hide MakeDirs, Rename, Below, IsFileAt;
  }

  /** When a quarantine succeeds, and what it leaves, from the file map alone. Without an operating system error it
      moves the file if and only if the file is there, the name is no dot name, its place in the quarantine directory is
      free, and nothing but directories is on the way down to it, whether they exist yet or not. It returns 0 if it moves
      the file, or if the file has been moved before; otherwise it returns 6, and adds at most the directories. */
  lemma QuarantineSucceedsIff(fs: Fs, src: Path, dir: Path, name: string, osError: bool)
    requires Tree(fs)
    ensures var out := Exec(fs, Quarantine(src, dir, name), osError);
      var dest := dir + [name];
      var plain := name != "." && name != "..";
      var here, there := src in fs && fs[src].File?, plain && dest in fs && fs[dest].File?;
      var moves := here && plain && dest !in fs && Passable(fs, dir) && !osError;
      && out.code == (if moves || (there && !here) then 0 else 6)
      && (if moves then Moved(fs, out.fs, src, dest, dir)
          else if here && !there && Passable(fs, dir) then WithDirs(fs, out.fs, dir)
          else out.fs == fs)
  {
    var fs1 := MakeDirs(fs, dir).0;
    MakeDirsIff(fs, dir);
    QuarantineIs(fs, src, dir, name, osError, fs1, MakeDirs(fs, dir).1);
    hide *;
    if Passable(fs, dir) {
      StaysFree(fs, fs1, dir, name);
      if src in fs {
        RenameIs(fs, fs1, src, dir + [name], dir);
      }
    }
  }

  /** The same for a restore: it moves the file back if and only if it is in quarantine under a name that is no dot name,
      its old place is free and not the root, and nothing but directories is on the way there. */
  lemma RestoreSucceedsIff(fs: Fs, original: Path, dir: Path, name: string, osError: bool)
    requires Tree(fs)
    ensures var out := Exec(fs, Restore(original, dir, name), osError);
      var src := dir + [name];
      var there := original in fs && fs[original].File?;
      var here := name != "." && name != ".." && src in fs && fs[src].File?;
      var up := if original == [] then [] else original[..|original| - 1];
      var moves := here && original != [] && original !in fs && Passable(fs, up) && !osError;
      && out.code == (if moves || (there && !here) then 0 else 6)
      && (if moves then Moved(fs, out.fs, src, original, up)
          else if original != [] && here && !there && Passable(fs, up) then WithDirs(fs, out.fs, up)
          else out.fs == fs)
  {
    if original == [] {
      NotRoot(fs);
      hide Tree;
    } else {
      var up := Parent(original);
      var fs1 := MakeDirs(fs, up).0;
      MakeDirsIff(fs, up);
      RestoreIs(fs, original, dir, name, osError, fs1, MakeDirs(fs, up).1);
      assert up == original[..|original| - 1];
      hide *;
      if Passable(fs, up) {
        assert original == up + [original[|original| - 1]];
        StaysFree(fs, fs1, up, original[|original| - 1]);
        if dir + [name] in fs {
          RenameIs(fs, fs1, dir + [name], original, up);
        }
      }
    }
  }

  lemma NotRoot(fs: Fs)
    requires Tree(fs)
    ensures [] !in fs
  {
  }

  // ---- no content is lost or doubled ----

  // Where a content is stored, and in how many places.
  function Places(fs: Fs, content: string): (r: set<Path>)
    ensures forall p :: p in r <==> p in fs && fs[p] == File(content)
  {
    set p | p in fs && fs[p] == File(content)
  }

  function Copies(fs: Fs, content: string): nat {
    |Places(fs, content)|
  }

  lemma CopiesAfterMove(fs: Fs, after: Fs, src: Path, dest: Path, content: string)
    requires Relocates(fs, after, src, dest)
    ensures Copies(after, content) == Copies(fs, content)
  {
    hide Places;
    var before, now := Places(fs, content), Places(after, content);
    assert forall p :: p != src && p != dest ==> (p in now <==> p in before);
    assert src !in now && dest !in before;
    if src in before {
      assert dest in now && now == before - {src} + {dest};
    } else {
      assert dest !in now && now == before;
    }
  }

  lemma CopiesUnmoved(fs: Fs, after: Fs, content: string)
    requires OnlyNewDirs(fs, after)
    ensures Copies(after, content) == Copies(fs, content)
  {
    hide Places;
    assert Places(after, content) == Places(fs, content);
  }

  datatype Call = Call(command: Command, osError: bool)

  function Run(fs: Fs, calls: seq<Call>): Fs
    decreases calls
  {
    if calls == [] then fs else Run(Exec(fs, calls[0].command, calls[0].osError).fs, calls[1..])
  }

  lemma CommandKeepsCopies(fs: Fs, c: Command, osError: bool, content: string)
    requires Tree(fs)
    ensures Copies(Exec(fs, c, osError).fs, content) == Copies(fs, content)
  {
    CommandMovesOneFile(fs, c, osError);
    hide Exec, Move, Copies, Tree, IsFile, OnlyNewDirs, Relocates;
    var after := Exec(fs, c, osError).fs;
    match Move(fs, c, osError) {
      case None => CopiesUnmoved(fs, after, content);
      case Some(m) => CopiesAfterMove(fs, after, m.0, m.1, content);
    }
  }

  /** Over any run of quarantine and restore commands, in any order, with repeats and failures, every
      content is stored in as many places as before: nothing is lost, overwritten or doubled. */
  lemma {:induction false} RunKeepsCopies(fs: Fs, calls: seq<Call>, content: string)
    requires Tree(fs)
    ensures Tree(Run(fs, calls)) && Copies(Run(fs, calls), content) == Copies(fs, content)
    decreases calls
  {
    if calls != [] {
      CommandMovesOneFile(fs, calls[0].command, calls[0].osError);
      CommandKeepsCopies(fs, calls[0].command, calls[0].osError, content);
      hide Exec, Move, Copies, Tree, IsFile, OnlyNewDirs, Relocates;
      RunKeepsCopies(Exec(fs, calls[0].command, calls[0].osError).fs, calls[1..], content);
    }
  }

  // ---- repeated delivery ----

  lemma QuarantineIdempotent(fs: Fs, src: Path, dir: Path, name: string)
    requires Tree(fs)
    ensures var c := Quarantine(src, dir, name); Exec(Exec(fs, c, false).fs, c, false) == Exec(fs, c, false)
  {
    hide MakeDirs, Tree;
    MakeDirsTree(fs, dir);
    MakeDirsTwice(fs, dir);
  }

  lemma RestoreIdempotent(fs: Fs, original: Path, dir: Path, name: string)
    requires Tree(fs)
    ensures var c := Restore(original, dir, name); Exec(Exec(fs, c, false).fs, c, false) == Exec(fs, c, false)
  {
    hide MakeDirs, Tree;
    if original != [] {
      MakeDirsTree(fs, Parent(original));
      MakeDirsTwice(fs, Parent(original));
    }
  }

  /** Delivering a command a second time changes nothing and returns the same code. */
  lemma CommandIdempotent(fs: Fs, c: Command)
    requires Tree(fs)
    ensures Exec(Exec(fs, c, false).fs, c, false) == Exec(fs, c, false)
  {
    hide Exec, Tree;
    match c {
      case Quarantine(src, dir, name) => QuarantineIdempotent(fs, src, dir, name);
      case Restore(original, dir, name) => RestoreIdempotent(fs, original, dir, name);
    }
  }

  // Each command delivered once more `extra[i]` times, one delivery after the other.
  function Repeated(c: Command, times: nat): seq<Call> {
    if times == 0 then [] else [Call(c, false)] + Repeated(c, times - 1)
  }

  function Delivered(commands: seq<Command>, extra: seq<nat>): seq<Call>
    requires |extra| == |commands|
    decreases commands
  {
    if commands == [] then []
    else Repeated(commands[0], extra[0] + 1) + Delivered(commands[1..], extra[1..])
  }

  lemma {:induction false} RunConcat(fs: Fs, a: seq<Call>, b: seq<Call>)
    ensures Run(fs, a + b) == Run(Run(fs, a), b)
    decreases a
  {
    hide Exec;
    if a == [] {
      assert a + b == b;
    } else {
      assert (a + b)[1..] == a[1..] + b;
      RunConcat(Exec(fs, a[0].command, a[0].osError).fs, a[1..], b);
    }
  }

  lemma {:induction false} RepeatsAbsorbed(fs: Fs, c: Command, times: nat)
    requires Tree(fs)
    ensures Run(fs, Repeated(c, times + 1)) == Exec(fs, c, false).fs
    decreases times
  {
    CommandIdempotent(fs, c);
    CommandMovesOneFile(fs, c, false);
    hide Exec, Tree, Move;
    var calls := Repeated(c, times + 1);
    assert calls[0] == Call(c, false) && calls[1..] == Repeated(c, times);
    if times > 0 {
      RepeatsAbsorbed(Exec(fs, c, false).fs, c, times - 1);
    } else {
      assert Repeated(c, 0) == [];
    }
  }

  /** At-least-once delivery is as good as exactly once: however often each command is repeated before
      the next one, the disk ends up the same. */
  lemma {:induction false} RepeatedDelivery(fs: Fs, commands: seq<Command>, extra: seq<nat>)
    requires Tree(fs) && |extra| == |commands|
    ensures Run(fs, Delivered(commands, extra)) == Run(fs, Delivered(commands, seq(|commands|, _ => 0)))
    decreases commands
  {
    if commands != [] {
      var c := commands[0];
      var none := seq(|commands|, _ => 0);
      assert none[1..] == seq(|commands| - 1, _ => 0);
      RepeatsAbsorbed(fs, c, extra[0]);
      RepeatsAbsorbed(fs, c, 0);
      CommandMovesOneFile(fs, c, false);
      hide Exec, Tree, Move, Repeated;
      RunConcat(fs, Repeated(c, extra[0] + 1), Delivered(commands[1..], extra[1..]));
      RunConcat(fs, Repeated(c, 1), Delivered(commands[1..], none[1..]));
      RepeatedDelivery(Exec(fs, c, false).fs, commands[1..], extra[1..]);
    }
  }

  // ---- there and back ----

  /** A restore after a quarantine that moved a file puts the file system back, up to the quarantine
      directory the quarantine may have had to create. */
  lemma RestoreUndoesQuarantine(fs: Fs, src: Path, dir: Path, name: string)
    requires Tree(fs) && Move(fs, Quarantine(src, dir, name), false).Some?
    ensures var quarantined := Exec(fs, Quarantine(src, dir, name), false);
      var restored := Exec(quarantined.fs, Restore(src, dir, name), false);
      && quarantined.code == 0 && restored.code == 0
      && restored.fs == MakeDirs(fs, dir).0
      && (IsDir(fs, dir) ==> restored.fs == fs)
  {
    var dest := dir + [name];
    var fs1 := MakeDirs(fs, dir).0;
    MakeDirsTree(fs, dir);
    QuarantineMovesOneFile(fs, src, dir, name, false);
    QuarantineMoved(fs, src, dir, name);
    var quarantined := Rename(fs1, src, dest);
    ParentStays(fs, quarantined, src, dest);
    MakeDirsTree(quarantined, Parent(src));
    RestoreMoves(quarantined, src, dir, name);
    RenameBack(fs1, src, dest);
  }

  lemma QuarantineMoved(fs: Fs, src: Path, dir: Path, name: string)
    requires Move(fs, Quarantine(src, dir, name), false).Some?
    ensures var (fs1, ok) := MakeDirs(fs, dir);
      && Move(fs, Quarantine(src, dir, name), false) == Some((src, dir + [name]))
      && name != "." && name != ".." && ok && IsFile(fs, src) && dir + [name] !in fs1
      && Exec(fs, Quarantine(src, dir, name), false) == Outcome(Rename(fs1, src, dir + [name]), 0)
  {
    hide Rename;
  }

  lemma RestoreMoves(fs: Fs, original: Path, dir: Path, name: string)
    requires original != [] && original !in fs && name != "." && name != ".." && IsFile(fs, dir + [name])
    requires MakeDirs(fs, Parent(original)) == (fs, true)
    ensures Exec(fs, Restore(original, dir, name), false) == Outcome(Rename(fs, dir + [name], original), 0)
  {
    hide MakeDirs, Rename;
  }

  lemma ParentStays(fs: Fs, after: Fs, src: Path, dest: Path)
    requires Tree(fs) && Relocates(fs, after, src, dest)
    ensures src != [] && IsDir(after, Parent(src))
  {
    assert Parent(src) != src;
  }

  lemma RenameBack(fs: Fs, src: Path, dest: Path)
    requires src in fs && dest !in fs
    ensures Rename(Rename(fs, src, dest), dest, src) == fs
  {
  }

  // ---- where the command line can reach ----

  function WebPath(c: Command): Path {
    match c case Quarantine(src, _, _) => src case Restore(original, _, _) => original
  }

  lemma SpelledPath(s: string, slashes: string, c: seq<string>)
    requires Spells(s, slashes, c)
    ensures PathOf(s) == c
  {
    SpelledShape(s, slashes, c);
    hide Split, Cleaned;
    CleanedLead(slashes, c, []);
    CleanedNothing();
    assert Lead(slashes) + c + [] == Lead(slashes) + c && c + [] == c;
  }

  // A name of word characters, dots and hyphens; `$` in a regular expression also stands before a final line feed.
  ghost predicate AcceptableName(name: string, word: char -> bool) {
    && name != "" && name != "\n"
    && forall i :: 0 <= i < |name| ==>
         word(name[i]) || name[i] == '.' || name[i] == '-' || (i == |name| - 1 && name[i] == '\n')
  }

  lemma NameAcceptedIff(name: string, word: char -> bool)
    requires Jail.WordClass(word)
    ensures Jail.BasenameOk(name, word) <==> AcceptableName(name, word)
  {
    assert !word('\n');
    if name != "" && name[|name| - 1] == '\n' {
      var n := |name| - 1;
      assert forall i :: 0 <= i < n ==> name[..n][i] == name[i];
      assert name == "\n" <==> n == 0;
    }
  }

  /** The exit code is 2, and nothing is run, exactly when the root, the relative path, the quarantine directory or the
      name is not acceptable for what it is spelled. */
  lemma CheckedIff(restore: bool, a: Args, word: char -> bool)
    requires Jail.WordClass(word)
    ensures var rel := StripSlashes(Strip(a.relPath));
      Checked(restore, a, word).Some?
      <==> Jail.AcceptablePath(Strip(a.root), word)
           && rel != "" && NUL !in rel && ".." !in Split(rel)
           && Jail.AcceptableQuarantine(a.siteId, a.quarantineRoot, word)
           && AcceptableName(a.basename, word)
  {
    hide Strip, StripSlashes, Split, Jail.ValidateRoot, Jail.JailRel, Jail.QuarantineDir, Jail.BasenameOk,
         Jail.AcceptablePath, Jail.AcceptableQuarantine, AcceptableName;
    Jail.RootAcceptedIff(a.root, word);
    Jail.QuarantineDirAcceptedIff(a.siteId, a.quarantineRoot, word);
    NameAcceptedIff(a.basename, word);
    if Jail.ValidateRoot(a.root, word).Ok? {
      Jail.JailStaysInside(a.root, word, a.relPath);
    }
  }

  /** A command that passes the checks names a place below an accepted root (or the root itself), at
      the root's components followed by the cleaned relative path, and a quarantine directory whose
      last component is the site id. */
  lemma CheckedCommand(restore: bool, a: Args, word: char -> bool)
    requires Jail.WordClass(word) && Checked(restore, a, word).Some?
    ensures var c := Checked(restore, a, word).value;
      var root := PathOf(Strip(a.root));
      && (["var", "www"] <= root || ["srv", "www"] <= root || ["home"] <= root)
      && WebPath(c) == root + PathOf(StripSlashes(Strip(a.relPath)))
      && c.dir != [] && c.dir[|c.dir| - 1] == Strip(a.siteId)
      && Jail.BasenameOk(c.name, word)
  {
    hide Jail.ValidateRoot, Jail.JailRel, Jail.QuarantineDir, Jail.BasenameOk, Strip, StripSlashes, Spells;
    var root := Jail.ValidateRoot(a.root, word).path;
    Jail.RootComponentsAllowed(a.root, word);
    Jail.JailStaysInside(a.root, word, a.relPath);
    var file := Jail.JailRel(root, a.relPath).path;
    SpelledPath(file, "/", PathOf(Strip(a.root)) + PathOf(StripSlashes(Strip(a.relPath))));
    Jail.QuarantineDirShape(a.siteId, a.quarantineRoot, word);
    SpelledPath(Jail.QuarantineDir(a.siteId, a.quarantineRoot, word).path, LeadingSlashes(a.quarantineRoot),
                Normalized(Split(a.quarantineRoot), true, []) + [Strip(a.siteId)]);
  }
}
