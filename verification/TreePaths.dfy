/** Root-relative paths in the file tree, `frontend/src/lib/tree.ts`: parents, names, and which
    paths lie inside which directory. */
module TreePaths {
  import opened Strings
  import opened Paths

  /** `path.lastIndexOf("/")`. */
  function LastSlash(p: string): (i: int)
    ensures -1 <= i < |p|
    ensures i >= 0 ==> p[i] == '/'
    ensures forall k | i < k < |p| :: p[k] != '/'
  {
    if p == "" then -1
    else if p[|p| - 1] == '/' then |p| - 1
    else LastSlash(p[..|p| - 1])
  }

  /** `parentPath`. */
  function Parent(p: string): string {
    if LastSlash(p) < 0 then ROOT else p[..LastSlash(p)]
  }

  /** `baseName`. */
  function Base(p: string): string {
    p[LastSlash(p) + 1..]
  }

  /** Anything below a directory, and not the directory itself. */
  predicate Inside(p: string, dir: string) {
    p != dir && Covers(dir, p)
  }

  /** What is inside a directory is what its parent is at or inside. */
  lemma InsideByParent(p: string, dir: string)
    requires p != ROOT
    ensures Inside(p, dir) <==> Covers(dir, Parent(p))
    ensures |Parent(p)| < |p|
  {
    var i := LastSlash(p);
    if dir != ROOT {
      if Inside(p, dir) {
        assert (dir + "/")[|dir|] == '/';
        assert p[|dir|] == '/';
        assert p[..|dir|] == dir;
        if |dir| < i { assert p[..i][..|dir| + 1] == p[..|dir| + 1] == dir + "/"; }
      }
      if Covers(dir, Parent(p)) && i >= 0 {
        if Parent(p) == dir { assert p[..i + 1] == dir + "/"; }
        else { assert p[..|dir| + 1] == Parent(p)[..|dir| + 1] == dir + "/"; }
      }
    }
  }

  /** Two entries of one directory share nothing below them. */
  lemma SiblingsApart(a: string, b: string, p: string)
    requires a != ROOT && b != ROOT && a != b && Parent(a) == Parent(b)
    ensures !(Covers(a, p) && Covers(b, p))
  {
    if Covers(a, p) && Covers(b, p) {
      if |a| <= |b| {
        CoveringScopesFormAChain(a, b, p);
        InsideByParent(b, a);
        InsideByParent(a, a);
      } else {
        CoveringScopesFormAChain(b, a, p);
        InsideByParent(a, b);
        InsideByParent(b, b);
      }
    }
  }

  /** A path below the root: not empty, and not written from the root of the file system. */
  predicate Named(p: string) {
    p != "" && p[0] != '/'
  }

  /** How deep a row is drawn: the separators in its path. */
  function Depth(p: string): nat {
    Count(p, '/')
  }

  lemma {:induction false} CountPrefix(p: string, i: nat)
    requires i <= |p| && forall k | i <= k < |p| :: p[k] != '/'
    ensures Count(p, '/') == Count(p[..i], '/')
  {
    if i < |p| {
      CountPrefix(p[..|p| - 1], i);
      assert p[..|p| - 1][..i] == p[..i];
    } else {
      assert p[..i] == p;
    }
  }

  lemma DepthByParent(p: string)
    requires Named(p)
    ensures Depth(p) == if Parent(p) == ROOT then 0 else Depth(Parent(p)) + 1
    ensures Parent(p) != ROOT ==> Named(Parent(p))
  {
    var i := LastSlash(p);
    CountPrefix(p, i + 1);
    if i < 0 {
      assert p[..0] == "";
    } else {
      assert p[..i + 1][..i] == p[..i];
    }
  }
}
