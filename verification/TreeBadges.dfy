/** The badges of the changed files and of the directories above them: `badgesFor` and
    `markAncestors` of `frontend/src/lib/gitStatus.ts`. */
module TreeBadges {
  import opened Sequences
  import opened Paths
  import opened TreePaths
  import opened GitStatus

  datatype Badge = M | A | D | R | C | U | Q

  datatype DirBadge = Contains | Conflict

  /** The path a record names, as the tree spells it: a whole directory is reported with a slash behind it. */
  function PathOf(f: File): string {
    if IsDirEntry(f) then f.path[..|f.path| - 1] else f.path
  }

  predicate IsDirEntry(f: File) {
    f.path != "" && f.path[|f.path| - 1] == '/'
  }

  function SideBadge(side: Side): Option<Badge> {
    match side
    case Same => None
    case Added => Some(A)
    case Deleted => Some(D)
    case Renamed => Some(R)
    case Copied => Some(C)
    case Modified => Some(M)
    case Untracked => Some(Q)
  }

  function FileBadge(f: File): Badge {
    if f.conflicted then U
    else if SideBadge(f.worktree).Some? then SideBadge(f.worktree).value
    else if SideBadge(f.staged).Some? then SideBadge(f.staged).value
    else M
  }

  /** A badge as it is drawn. */
  function Marker(b: Badge): char {
    match b
    case M => 'M'
    case A => 'A'
    case D => 'D'
    case R => 'R'
    case C => 'C'
    case U => 'U'
    case Q => '?'
  }

  /** A row is marked with the letter git printed for its file: the working tree's, or the index's when
      the working tree is as the index; a conflict has its own. */
  lemma BadgeIsGitsLetter(f: File)
    ensures Marker(FileBadge(f)) ==
            if f.conflicted then 'U'
            else if Code(f.worktree) != '.' then Code(f.worktree)
            else if Code(f.staged) != '.' then Code(f.staged)
            else 'M'
  {
  }

  // ---------------------------------------------------------------- what a directory's badge means

  predicate Above(dir: string, path: string) {
    dir != ROOT && Inside(path, dir)
  }

  /** The record is a change somewhere under the directory: its path is, or where it moved from. */
  predicate Touches(f: File, dir: string) {
    Above(dir, PathOf(f)) || (f.origin != "" && Above(dir, f.origin))
  }

  /** Nothing under it, only unconflicted changes under it, or a conflict somewhere under it. */
  function RollUp(files: seq<File>, dir: string): Option<DirBadge> {
    if exists f | f in files :: f.conflicted && Touches(f, dir) then Some(Conflict)
    else if exists f | f in files :: Touches(f, dir) then Some(Contains)
    else None
  }

  /** The path, as reported, goes on below the directory; or the one it moved from does. */
  predicate Below(f: File, dir: string) {
    || (|f.path| > |dir| + 1 && f.path[..|dir| + 1] == dir + "/")
    || (|f.origin| > |dir| && f.origin[..|dir| + 1] == dir + "/")
  }

  /** A directory is marked for what lies below it alone, a conflict before all else, and the root is not. */
  lemma RollUpIsWhatLiesBelow(files: seq<File>, dir: string)
    ensures RollUp(files, dir) == Some(Conflict) <==> dir != "" && exists f | f in files :: f.conflicted && Below(f, dir)
    ensures RollUp(files, dir) == None <==> dir == "" || forall f | f in files :: !Below(f, dir)
  {
    forall f ensures Touches(f, dir) <==> dir != "" && Below(f, dir) {
      TouchedIsBelow(f, dir);
    }
  }

  lemma TouchedIsBelow(f: File, dir: string)
    ensures Touches(f, dir) <==> dir != "" && Below(f, dir)
  {
    var p, n := PathOf(f), |dir| + 1;
    if |f.path| > n {
      assert p[..n] == f.path[..n];
    }
    assert Covers(dir, f.origin) && f.origin != dir && dir != "" ==> |f.origin| > |dir|;
  }

  /** The records may come in any order. */
  lemma RollUpIgnoresOrder(files: seq<File>, reordered: seq<File>, dir: string)
    requires multiset(reordered) == multiset(files)
    ensures RollUp(reordered, dir) == RollUp(files, dir)
  {
    forall f ensures f in reordered <==> f in files {
      assert f in multiset(reordered) <==> f in multiset(files);
    }
  }

  /** The badge of the last record naming this path. */
  function LastBadge(files: seq<File>, path: string): Option<Badge> {
    if files == [] then None
    else if PathOf(files[|files| - 1]) == path then Some(FileBadge(files[|files| - 1]))
    else LastBadge(files[..|files| - 1], path)
  }

  /** The record is of the path: of the file, or of the whole directory. */
  predicate Names(f: File, path: string) {
    f.path == path + "/" || (f.path == path && (path == "" || path[|path| - 1] != '/'))
  }

  /** A path's badge is that of the last record of it. */
  lemma {:induction false} BadgeIsTheLastRecords(files: seq<File>, k: nat, path: string)
    requires k < |files| && Names(files[k], path) && forall j | k < j < |files| :: !Names(files[j], path)
    ensures LastBadge(files, path) == Some(FileBadge(files[k]))
  {
    var n := |files| - 1;
    NamedByItsPath(files[n], path);
    if k < n { BadgeIsTheLastRecords(files[..n], k, path); }
  }

  /** Without a record of it, it has none. */
  lemma {:induction false} UnreportedHasNoBadge(files: seq<File>, path: string)
    requires forall j | 0 <= j < |files| :: !Names(files[j], path)
    ensures LastBadge(files, path) == None
  {
    if files != [] {
      var n := |files| - 1;
      NamedByItsPath(files[n], path);
      UnreportedHasNoBadge(files[..n], path);
    }
  }

  lemma NamedByItsPath(f: File, path: string)
    ensures Names(f, path) <==> PathOf(f) == path
  {
    if IsDirEntry(f) {
      assert f.path == f.path[..|f.path| - 1] + "/";
      if f.path == path + "/" { assert f.path[..|f.path| - 1] == path; }
    }
  }

  // ---------------------------------------------------------------- marking

  type Dirs = map<string, DirBadge>

  function Get<K, V>(m: map<K, V>, k: K): Option<V> {
    if k in m then Some(m[k]) else None
  }

  /** One change under a directory: a conflict escalates, and is not taken back. */
  function Marked(badge: Option<DirBadge>, conflicted: bool): DirBadge {
    if conflicted || badge == Some(Conflict) then Conflict else Contains
  }

  /** `markAncestors`. */
  method MarkAncestors(dirs: Dirs, path: string, conflicted: bool) returns (marked: Dirs)
    ensures forall d :: Get(marked, d) == if Above(d, path) then Some(Marked(Get(dirs, d), conflicted)) else Get(dirs, d)
  {
    marked := dirs;
    var dir := Parent(path);
    if path != ROOT { forall d ensures Above(d, path) <==> d != ROOT && Covers(d, dir) { InsideByParent(path, d); } }
    while dir != ROOT
      invariant path != ROOT ==> forall d :: Above(d, path) && Covers(d, dir) <==> d != ROOT && Covers(d, dir)
      invariant path == ROOT ==> dir == ROOT
      invariant forall d :: Get(marked, d) ==
                  if Above(d, path) && !Covers(d, dir) then Some(Marked(Get(dirs, d), conflicted)) else Get(dirs, d)
      decreases |dir|
    {
      if conflicted || Get(marked, dir) != Some(Conflict) {
        marked := marked[dir := if conflicted then Conflict else Contains];
      }
      forall d ensures Covers(d, dir) <==> d == dir || Covers(d, Parent(dir)) {
        InsideByParent(dir, d);
      }
      InsideByParent(dir, dir);
      assert !Covers(dir, Parent(dir));
      dir := Parent(dir);
    }
  }

  lemma RollUpSnoc(files: seq<File>, f: File, d: string)
    ensures RollUp(files + [f], d) ==
            if Touches(f, d) then Some(Marked(RollUp(files, d), f.conflicted)) else RollUp(files, d)
  {
    var all := files + [f];
    assert all[|files|] == f;
    assert forall x :: x in all <==> x in files || x == f;
  }

  /** `badgesFor`: every reported path has its record's badge, and every directory the badge of
      what is under it. */
  method BadgesFor(files: seq<File>) returns (badges: map<string, Badge>, dirs: Dirs)
    ensures forall p :: Get(badges, p) == LastBadge(files, p)
    ensures forall d :: Get(dirs, d) == RollUp(files, d)
  {
    badges, dirs := map[], map[];
    for n := 0 to |files|
      invariant forall p :: Get(badges, p) == LastBadge(files[..n], p)
      invariant forall d :: Get(dirs, d) == RollUp(files[..n], d)
    {
      var f := files[n];
      assert files[..n + 1] == files[..n] + [f];
      forall d ensures RollUp(files[..n + 1], d) ==
                       if Touches(f, d) then Some(Marked(RollUp(files[..n], d), f.conflicted)) else RollUp(files[..n], d)
      {
        RollUpSnoc(files[..n], f, d);
      }
      badges := badges[PathOf(f) := FileBadge(f)];
      dirs := MarkAncestors(dirs, PathOf(f), f.conflicted);
      if f.origin != "" { dirs := MarkAncestors(dirs, f.origin, f.conflicted); }
    }
    assert files[..|files|] == files;
  }
}
