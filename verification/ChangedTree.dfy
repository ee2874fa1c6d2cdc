/** The rows of the changed-only tree: `changedRows`, `place` and `flatten` of
    `frontend/src/lib/gitStatus.ts`. The rows are built from the paths git reports, filed under
    their parents, and flattened depth first. */
module ChangedTree {
  import opened Sequences
  import opened Paths
  import opened TreePaths
  import opened Outline
  import opened GitStatus
  import opened TreeBadges

  /** What has been filed so far. */
  datatype Filing = Filing(children: Children, placed: set<string>)

  const NOTHING := Filing(map[], {})

  function DirEntry(path: string): Entry {
    Entry(Base(path), true, path)
  }

  function EntryOf(f: File): Entry {
    Entry(Base(PathOf(f)), IsDirEntry(f), PathOf(f))
  }

  /** `place`. */
  function Place(filing: Filing, e: Entry): Filing {
    if e.path in filing.placed then filing
    else Filing(
      filing.children[Parent(e.path) := Listed(filing.children, Parent(e.path)) + [e]],
      filing.placed + {e.path})
  }

  // ---------------------------------------------------------------- a filing in order

  /** The placed paths are the listed ones, each listed under its parent, once. */
  ghost predicate InFile(filing: Filing) {
    && (forall dir :: WellListed(filing.children, dir))
    && (forall p :: p in filing.placed <==> HasEntry(Listed(filing.children, Parent(p)), p))
    && (forall p | p in filing.placed :: Named(p))
  }

  /** The parent of everything placed is the root, or placed as a directory. */
  ghost predicate Closed(filing: Filing) {
    forall p | p in filing.placed && Parent(p) != ROOT :: Parent(p) in filing.placed && FiledAsDir(filing, Parent(p))
  }

  /** Every entry of this path is a directory's. */
  predicate FiledAsDir(filing: Filing, p: string) {
    var es := Listed(filing.children, Parent(p));
    forall i | 0 <= i < |es| && es[i].path == p :: es[i].isDir
  }

  lemma HasEntrySnoc(es: seq<Entry>, e: Entry, p: string)
    ensures HasEntry(es + [e], p) <==> HasEntry(es, p) || e.path == p
  {
    assert (es + [e])[|es|] == e;
    if HasEntry(es, p) {
      var i :| 0 <= i < |es| && es[i].path == p;
      assert (es + [e])[i].path == p;
    }
  }

  lemma PlaceKeepsFile(filing: Filing, e: Entry)
    requires InFile(filing) && Named(e.path) && e.name == Base(e.path)
    ensures InFile(Place(filing, e))
  {
    if e.path !in filing.placed {
      var next := Place(filing, e);
      var dir := Parent(e.path);
      forall d ensures WellListed(next.children, d) {
        assert WellListed(filing.children, d);
        if d == dir { OneMoreEntry(Listed(filing.children, dir), e); }
      }
      forall p ensures p in next.placed <==> HasEntry(Listed(next.children, Parent(p)), p) {
        if Parent(p) == dir { HasEntrySnoc(Listed(filing.children, dir), e, p); }
      }
    }
  }

  lemma OneMoreEntry(es: seq<Entry>, e: Entry)
    requires ListingOf(es, Parent(e.path)) && e.path != ROOT && e.name == Base(e.path) && !HasEntry(es, e.path)
    ensures ListingOf(es + [e], Parent(e.path))
  {
    var next := es + [e];
    assert forall i | 0 <= i < |next| :: next[i] == if i < |es| then es[i] else e;
    forall i | 0 <= i < |es| ensures es[i].path != e.path { assert !HasEntry(es, e.path); }
  }

  lemma PlaceKeepsDirs(filing: Filing, e: Entry, p: string)
    requires InFile(filing) && FiledAsDir(filing, p) && (e.isDir || e.path != p)
    ensures FiledAsDir(Place(filing, e), p)
  {
  }

  lemma PlaceFilesDir(filing: Filing, e: Entry)
    requires InFile(filing) && e.isDir && e.path !in filing.placed
    ensures FiledAsDir(Place(filing, e), e.path)
  {
    assert !HasEntry(Listed(filing.children, Parent(e.path)), e.path);
  }

  /** Filing a directory adds its path and takes no other directory's standing away. */
  lemma PlacesDir(filing: Filing, dir: string)
    requires InFile(filing) && Named(dir)
    ensures var next := Place(filing, DirEntry(dir));
            && InFile(next) && next.placed == filing.placed + {dir}
            && (forall p | FiledAsDir(filing, p) :: FiledAsDir(next, p))
            && (dir !in filing.placed ==> FiledAsDir(next, dir))
  {
    PlaceKeepsFile(filing, DirEntry(dir));
    forall p | FiledAsDir(filing, p) ensures FiledAsDir(Place(filing, DirEntry(dir)), p) { PlaceKeepsDirs(filing, DirEntry(dir), p); }
    if dir !in filing.placed { PlaceFilesDir(filing, DirEntry(dir)); }
  }

  // ---------------------------------------------------------------- filing a status

  /** The path is a directory above one that git reports. */
  predicate AboveSome(files: seq<File>, p: string) {
    exists f | f in files :: Above(p, PathOf(f))
  }

  predicate Reported(files: seq<File>, p: string) {
    exists f | f in files :: PathOf(f) == p
  }

  predicate AllNamed(files: seq<File>) {
    forall f | f in files :: Named(PathOf(f))
  }

  lemma AncestorsAreNamed(p: string, dir: string)
    requires Named(p) && Above(dir, p)
    ensures Named(dir)
  {
    assert dir[0] == p[0];
  }

  lemma CoversStepUp(dir: string)
    requires dir != ROOT
    ensures forall d :: Covers(d, dir) <==> d == dir || Covers(d, Parent(dir))
    ensures !Covers(dir, Parent(dir)) && |Parent(dir)| < |dir|
  {
    forall d ensures Covers(d, dir) <==> d == dir || Covers(d, Parent(dir)) { InsideByParent(dir, d); }
    InsideByParent(dir, dir);
  }

  /** One path's ancestors, innermost first, each filed unless it already is. */
  method PlaceAncestors(filing: Filing, path: string) returns (next: Filing)
    requires InFile(filing) && Named(path)
    ensures InFile(next)
    ensures forall p :: p in next.placed <==> p in filing.placed || Above(p, path)
    ensures forall p | FiledAsDir(filing, p) :: FiledAsDir(next, p)
    ensures forall p | Above(p, path) && p !in filing.placed :: FiledAsDir(next, p)
  {
    next := filing;
    var dir := Parent(path);
    forall d ensures Above(d, path) <==> d != ROOT && Covers(d, dir) { InsideByParent(path, d); }
    while dir != ROOT
      invariant InFile(next)
      invariant forall d :: d != ROOT && Covers(d, dir) ==> Above(d, path)
      invariant forall p :: p in next.placed <==> p in filing.placed || (Above(p, path) && !Covers(p, dir))
      invariant forall p | FiledAsDir(filing, p) :: FiledAsDir(next, p)
      invariant forall p | Above(p, path) && !Covers(p, dir) && p !in filing.placed :: FiledAsDir(next, p)
      decreases |dir|
    {
      AncestorsAreNamed(path, dir);
      CoversStepUp(dir);
      PlacesDir(next, dir);
      next := Place(next, DirEntry(dir));
      dir := Parent(dir);
    }
  }

  lemma ReportedSnoc(files: seq<File>, f: File, p: string)
    ensures AboveSome(files + [f], p) <==> AboveSome(files, p) || Above(p, PathOf(f))
    ensures Reported(files + [f], p) <==> Reported(files, p) || PathOf(f) == p
  {
    var all := files + [f];
    assert all[|files|] == f;
    assert forall x :: x in all <==> x in files || x == f;
  }

  /** The first loop of `changedRows`: all the ancestors first, so that a path that is also some
      other path's parent is filed as a directory. */
  method FileAncestors(files: seq<File>) returns (filing: Filing)
    requires AllNamed(files)
    ensures InFile(filing)
    ensures forall p :: p in filing.placed <==> AboveSome(files, p)
    ensures forall p | AboveSome(files, p) :: FiledAsDir(filing, p)
  {
    filing := NOTHING;
    for n := 0 to |files|
      invariant InFile(filing)
      invariant forall p :: p in filing.placed <==> AboveSome(files[..n], p)
      invariant forall p | AboveSome(files[..n], p) :: FiledAsDir(filing, p)
    {
      assert files[..n + 1] == files[..n] + [files[n]];
      forall p ensures AboveSome(files[..n + 1], p) <==> AboveSome(files[..n], p) || Above(p, PathOf(files[n])) {
        ReportedSnoc(files[..n], files[n], p);
      }
      filing := PlaceAncestors(filing, PathOf(files[n]));
    }
    assert files[..|files|] == files;
  }

  /** A reported path is filed as git reports it, unless it is filed as a directory already. */
  lemma PlacesReported(files: seq<File>, filing: Filing, e: Entry)
    requires InFile(filing) && Named(e.path) && e.name == Base(e.path)
    requires forall p | AboveSome(files, p) :: p in filing.placed && FiledAsDir(filing, p)
    ensures InFile(Place(filing, e)) && Place(filing, e).placed == filing.placed + {e.path}
    ensures forall p | AboveSome(files, p) :: p in Place(filing, e).placed && FiledAsDir(Place(filing, e), p)
  {
    PlaceKeepsFile(filing, e);
    forall p | AboveSome(files, p) ensures FiledAsDir(Place(filing, e), p) {
      if e.path != p { PlaceKeepsDirs(filing, e, p); }
    }
  }

  /** The second loop, over the reported paths themselves. */
  method FileAll(files: seq<File>) returns (filing: Filing)
    requires AllNamed(files)
    ensures InFile(filing) && Closed(filing)
    ensures forall p :: p in filing.placed <==> AboveSome(files, p) || Reported(files, p)
    ensures forall p | AboveSome(files, p) :: FiledAsDir(filing, p)
  {
    filing := FileAncestors(files);
    for n := 0 to |files|
      invariant InFile(filing)
      invariant forall p :: p in filing.placed <==> AboveSome(files, p) || Reported(files[..n], p)
      invariant forall p | AboveSome(files, p) :: FiledAsDir(filing, p)
    {
      assert files[..n + 1] == files[..n] + [files[n]];
      forall p ensures Reported(files[..n + 1], p) <==> Reported(files[..n], p) || PathOf(files[n]) == p {
        ReportedSnoc(files[..n], files[n], p);
      }
      PlacesReported(files, filing, EntryOf(files[n]));
      filing := Place(filing, EntryOf(files[n]));
    }
    assert files[..|files|] == files;
    ParentsAreFiled(files, filing);
  }

  lemma ParentsAreFiled(files: seq<File>, filing: Filing)
    requires AllNamed(files) && InFile(filing)
    requires forall p :: p in filing.placed <==> AboveSome(files, p) || Reported(files, p)
    requires forall p | AboveSome(files, p) :: FiledAsDir(filing, p)
    ensures Closed(filing)
  {
    forall p | p in filing.placed && Parent(p) != ROOT ensures AboveSome(files, Parent(p)) {
      var f :| f in files && (PathOf(f) == p || Above(p, PathOf(f)));
      InsideByParent(p, Parent(p));
      if PathOf(f) != p { CoversChains(Parent(p), p, PathOf(f)); }
      assert Above(Parent(p), PathOf(f));
    }
  }

  // ---------------------------------------------------------------- sibling order

  predicate Less(a: string, b: string) {
    if a == "" then b != ""
    else if b == "" then false
    else a[0] < b[0] || (a[0] == b[0] && Less(a[1..], b[1..]))
  }

  lemma {:induction false} LessOneWay(a: string, b: string)
    ensures !(Less(a, b) && Less(b, a))
  {
    if a != "" && b != "" { LessOneWay(a[1..], b[1..]); }
  }

  /** `byTreeOrder` puts the first no later than the second: directories before files, then by
      name, letter case aside. */
  predicate NotAfter(a: Entry, b: Entry, lower: string -> string) {
    if a.isDir != b.isDir then a.isDir else !Less(lower(b.name), lower(a.name))
  }

  function Insert(es: seq<Entry>, e: Entry, lower: string -> string): seq<Entry> {
    if es == [] || NotAfter(es[|es| - 1], e, lower) then es + [e]
    else Insert(es[..|es| - 1], e, lower) + [es[|es| - 1]]
  }

  /** The stable sort by `byTreeOrder`. */
  function InOrder(es: seq<Entry>, lower: string -> string): seq<Entry> {
    if es == [] then [] else Insert(InOrder(es[..|es| - 1], lower), es[|es| - 1], lower)
  }

  lemma {:induction false} InsertAdds(es: seq<Entry>, e: Entry, lower: string -> string)
    ensures multiset(Insert(es, e, lower)) == multiset(es) + multiset{e}
  {
    if es != [] {
      assert es == es[..|es| - 1] + [es[|es| - 1]];
      InsertAdds(es[..|es| - 1], e, lower);
    }
  }

  /** Neighbours are in order. */
  predicate Sorted(es: seq<Entry>, lower: string -> string) {
    forall i | 0 < i < |es| :: NotAfter(es[i - 1], es[i], lower)
  }

  lemma {:induction false} InsertSorts(es: seq<Entry>, e: Entry, lower: string -> string)
    requires Sorted(es, lower)
    ensures var r := Insert(es, e, lower); Sorted(r, lower) && r != [] && (r[|r| - 1] == e || (es != [] && r[|r| - 1] == es[|es| - 1]))
  {
    if es != [] && !NotAfter(es[|es| - 1], e, lower) {
      LessOneWay(lower(e.name), lower(es[|es| - 1].name));
      InsertSorts(es[..|es| - 1], e, lower);
      var r := Insert(es[..|es| - 1], e, lower);
      assert NotAfter(r[|r| - 1], es[|es| - 1], lower);
    }
  }

  lemma {:induction false} LessChains(a: string, b: string, c: string)
    requires !Less(b, a) && !Less(c, b)
    ensures !Less(c, a)
  {
    if a != "" && b != "" && c != "" {
      if a[0] == b[0] == c[0] { LessChains(a[1..], b[1..], c[1..]); }
    }
  }

  lemma {:induction false} SortedPair(es: seq<Entry>, i: nat, j: nat, lower: string -> string)
    requires Sorted(es, lower) && i < j < |es|
    ensures NotAfter(es[i], es[j], lower)
  {
    if i < j - 1 {
      SortedPair(es, i, j - 1, lower);
      if es[i].isDir == es[j].isDir { LessChains(lower(es[i].name), lower(es[j - 1].name), lower(es[j].name)); }
    }
  }

  /** Any entry stands ahead of any other that it may. */
  predicate AllSorted(es: seq<Entry>, lower: string -> string) {
    forall i, j | 0 <= i < j < |es| :: NotAfter(es[i], es[j], lower)
  }

  lemma MultisetSnoc<T>(s: seq<T>)
    requires s != []
    ensures multiset(s) == multiset(s[..|s| - 1]) + multiset{s[|s| - 1]}
  {
    assert s == s[..|s| - 1] + [s[|s| - 1]];
  }

  /** The order is the listing rearranged, directories first and then by name. */
  lemma {:induction false} InOrderSorts(es: seq<Entry>, lower: string -> string)
    ensures multiset(InOrder(es, lower)) == multiset(es) && Sorted(InOrder(es, lower), lower)
  {
    if es != [] {
      var front, last := es[..|es| - 1], es[|es| - 1];
      InOrderSorts(front, lower);
      InsertAdds(InOrder(front, lower), last, lower);
      InsertSorts(InOrder(front, lower), last, lower);
      MultisetSnoc(es);
    }
  }

  lemma OrderHasSame(es: seq<Entry>, lower: string -> string)
    ensures forall e :: e in InOrder(es, lower) <==> e in es
    ensures forall p :: HasEntry(InOrder(es, lower), p) <==> HasEntry(es, p)
  {
    InOrderSorts(es, lower);
    var r := InOrder(es, lower);
    forall e ensures e in r <==> e in es {
      assert e in multiset(r) <==> e in multiset(es);
    }
    forall p ensures HasEntry(r, p) <==> HasEntry(es, p) {
      if i :| 0 <= i < |es| && es[i].path == p {
        assert es[i] in r;
        var k :| 0 <= k < |r| && r[k] == es[i];
      }
      if i :| 0 <= i < |r| && r[i].path == p {
        assert r[i] in es;
        var k :| 0 <= k < |es| && es[k] == r[i];
      }
    }
  }

  lemma {:induction false} InsertDistinct(es: seq<Entry>, e: Entry, lower: string -> string)
    requires DistinctEntries(es) && forall i | 0 <= i < |es| :: es[i].path != e.path
    ensures DistinctEntries(Insert(es, e, lower))
  {
    if es != [] && !NotAfter(es[|es| - 1], e, lower) {
      var front, last := es[..|es| - 1], es[|es| - 1];
      InsertDistinct(front, e, lower);
      InsertAdds(front, e, lower);
      var r := Insert(front, e, lower);
      forall i | 0 <= i < |r| ensures r[i].path != last.path {
        assert r[i] in multiset(r);
        assert r[i] == e || r[i] in front;
      }
    }
  }

  lemma {:induction false} OrderedDistinct(es: seq<Entry>, lower: string -> string)
    requires DistinctEntries(es)
    ensures DistinctEntries(InOrder(es, lower))
  {
    if es != [] {
      var front, last := es[..|es| - 1], es[|es| - 1];
      OrderedDistinct(front, lower);
      OrderHasSame(front, lower);
      var r := InOrder(front, lower);
      forall i | 0 <= i < |r| ensures r[i].path != last.path {
        assert r[i] in r;
      }
      InsertDistinct(r, last, lower);
    }
  }

  // ---------------------------------------------------------------- the rows

  /** The filed entries as `flatten` walks them: siblings in order, every directory open. */
  function TreeOf(filing: Filing, lower: string -> string): Tree {
    Tree(map d | d in filing.children :: InOrder(filing.children[d], lower), (e: Entry) => e.isDir)
  }

  lemma TreeIsSound(filing: Filing, lower: string -> string)
    requires InFile(filing)
    ensures Sound(TreeOf(filing, lower))
  {
    var t := TreeOf(filing, lower);
    forall d ensures WellListed(t.children, d) { TreeWellListed(filing, lower, d); }
  }

  lemma TreeWellListed(filing: Filing, lower: string -> string, d: string)
    requires WellListed(filing.children, d)
    ensures WellListed(TreeOf(filing, lower).children, d)
  {
    TreeListing(filing, lower, d);
    OrderedListing(Listed(filing.children, d), d, lower);
  }

  lemma OrderedListing(es: seq<Entry>, d: string, lower: string -> string)
    requires ListingOf(es, d)
    ensures ListingOf(InOrder(es, lower), d)
  {
    var r := InOrder(es, lower);
    OrderHasSame(es, lower);
    OrderedDistinct(es, lower);
    forall i | 0 <= i < |r| ensures r[i] in es { assert r[i] in r; }
  }

  lemma TreeRootsNamed(filing: Filing, lower: string -> string)
    requires InFile(filing)
    ensures RootsNamed(TreeOf(filing, lower))
  {
    TreeListing(filing, lower, ROOT);
    OrderHasSame(Listed(filing.children, ROOT), lower);
    forall e | e in Listed(filing.children, ROOT) ensures Named(e.path) {
      assert WellListed(filing.children, ROOT);
      assert HasEntry(Listed(filing.children, ROOT), e.path);
    }
  }

  /** What is filed is shown: every directory above it is filed as one. */
  lemma {:induction false} FiledIsShown(filing: Filing, lower: string -> string, p: string)
    requires InFile(filing) && Closed(filing) && p in filing.placed
    ensures Shown(TreeOf(filing, lower), ROOT, p)
    decreases |p|
  {
    InsideByParent(p, p);
    OrderHasSame(Listed(filing.children, Parent(p)), lower);
    if Parent(p) != ROOT {
      FiledIsShown(filing, lower, Parent(p));
      FiledIsOpen(filing, lower, Parent(p));
    }
  }

  lemma FiledIsOpen(filing: Filing, lower: string -> string, p: string)
    requires InFile(filing) && p in filing.placed && FiledAsDir(filing, p)
    ensures OpenAt(TreeOf(filing, lower), p)
  {
    var es := Listed(filing.children, Parent(p));
    TreeListing(filing, lower, Parent(p));
    OrderHasSame(es, lower);
    var i :| 0 <= i < |InOrder(es, lower)| && InOrder(es, lower)[i].path == p;
    assert InOrder(es, lower)[i] in es;
  }

  lemma TreeListing(filing: Filing, lower: string -> string, dir: string)
    ensures Listed(TreeOf(filing, lower).children, dir) == InOrder(Listed(filing.children, dir), lower)
  {
  }

  lemma ShownIsFiled(filing: Filing, lower: string -> string, p: string)
    requires InFile(filing) && Shown(TreeOf(filing, lower), ROOT, p)
    ensures p in filing.placed
  {
    OrderHasSame(Listed(filing.children, Parent(p)), lower);
  }

  /** `changedRows`: exactly the reported paths and every directory above one, each once, in
      outline order, each row drawn as deep as its path is long, and among the rows of one
      directory's entries the directories first, then by name. A directory above a reported path is
      a directory's row, even when git reports the directory itself. */
  method ChangedRows(files: seq<File>, lower: string -> string) returns (rows: seq<Row>)
    requires AllNamed(files)
    ensures forall p :: Lists(rows, p) <==> AboveSome(files, p) || Reported(files, p)
    ensures Distinct(rows) && InOutline(rows) && Deep(rows)
    ensures forall d :: AllSorted(EntriesIn(rows, d), lower)
    ensures forall i | 0 <= i < |rows| ::
              rows[i].entry.name == Base(rows[i].entry.path) && (AboveSome(files, rows[i].entry.path) ==> rows[i].entry.isDir)
  {
    var filing := FileAll(files);
    var t := TreeOf(filing, lower);
    TreeIsSound(filing, lower);
    TreeRootsNamed(filing, lower);
    rows := WalkRows(t, ROOT, 0);
    RowsAreWhatIsShown(t);
    WalkIsDeep(t, ROOT);
    forall d ensures AllSorted(EntriesIn(rows, d), lower) { SiblingsAreSorted(filing, lower, d); }
    forall p ensures Lists(rows, p) <==> AboveSome(files, p) || Reported(files, p) {
      if p in filing.placed { FiledIsShown(filing, lower, p); }
      if Shown(t, ROOT, p) { ShownIsFiled(filing, lower, p); }
    }
    forall i | 0 <= i < |rows|
      ensures rows[i].entry.name == Base(rows[i].entry.path)
      ensures AboveSome(files, rows[i].entry.path) ==> rows[i].entry.isDir
    {
      RowIsFiled(filing, lower, rows[i].entry);
    }
  }

  lemma SiblingsAreSorted(filing: Filing, lower: string -> string, d: string)
    requires InFile(filing) && Sound(TreeOf(filing, lower))
    ensures AllSorted(EntriesIn(Walk(TreeOf(filing, lower), ROOT, 0), d), lower)
  {
    var es := InOrder(Listed(filing.children, d), lower);
    SiblingsAsListed(TreeOf(filing, lower), d);
    TreeListing(filing, lower, d);
    InOrderSorts(Listed(filing.children, d), lower);
    forall i, j | 0 <= i < j < |es| ensures NotAfter(es[i], es[j], lower) { SortedPair(es, i, j, lower); }
  }

  lemma RowIsFiled(filing: Filing, lower: string -> string, e: Entry)
    requires InFile(filing) && e in Listed(TreeOf(filing, lower).children, Parent(e.path))
    ensures e.name == Base(e.path) && (FiledAsDir(filing, e.path) ==> e.isDir)
  {
    var dir := Parent(e.path);
    OrderHasSame(Listed(filing.children, dir), lower);
    assert WellListed(filing.children, dir);
  }
}
