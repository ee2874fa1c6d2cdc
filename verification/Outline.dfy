/** A tree of listings flattened into rows, as `frontend/src/lib/tree.ts` and
    `frontend/src/lib/gitStatus.ts` both do it: every entry of a directory, and behind an open
    one the rows inside it. */
module Outline {
  import opened Paths
  import opened TreePaths

  datatype Entry = Entry(name: string, isDir: bool, path: string)

  datatype Row = Row(entry: Entry, depth: nat)

  type Children = map<string, seq<Entry>>

  /** What each directory lists, and which entries are walked into. */
  datatype Tree = Tree(children: Children, open: Entry -> bool)

  function Listed(children: Children, dir: string): seq<Entry> {
    if dir in children then children[dir] else []
  }

  /** Every entry is listed under its parent, under its own name, and once. */
  predicate WellListed(children: Children, dir: string) {
    ListingOf(Listed(children, dir), dir)
  }

  predicate ListingOf(es: seq<Entry>, dir: string) {
    && (forall i | 0 <= i < |es| :: es[i].path != ROOT && Parent(es[i].path) == dir && es[i].name == Base(es[i].path))
    && DistinctEntries(es)
  }

  predicate DistinctEntries(es: seq<Entry>) {
    forall i, j | 0 <= i < j < |es| :: es[i].path != es[j].path
  }

  ghost predicate Sound(t: Tree) {
    forall dir :: WellListed(t.children, dir)
  }

  // ---------------------------------------------------------------- the walk

  function AllPaths(children: Children): set<string> {
    set d, e | d in children && e in children[d] :: e.path
  }

  /** What is left to walk inside a directory: the measure by which the walk ends. */
  function Below(t: Tree, dir: string): set<string> {
    set p | p in AllPaths(t.children) && Inside(p, dir)
  }

  lemma BelowShrinks(t: Tree, dir: string, e: Entry)
    requires Sound(t) && e in Listed(t.children, dir)
    ensures Below(t, e.path) < Below(t, dir)
    ensures Inside(e.path, dir) && e.path != ROOT && Parent(e.path) == dir
  {
    assert WellListed(t.children, dir);
    InsideByParent(e.path, dir);
    forall p | p in Below(t, e.path) ensures p in Below(t, dir) {
      CoversChains(dir, e.path, p);
    }
    assert e.path in Below(t, dir) && e.path !in Below(t, e.path);
  }

  /** One directory's entries and everything under the open ones, depth first. */
  function Walk(t: Tree, dir: string, depth: nat): seq<Row>
    requires Sound(t)
    decreases Below(t, dir), 1, 0
  {
    WalkEach(t, Listed(t.children, dir), dir, depth)
  }

  function WalkEach(t: Tree, es: seq<Entry>, dir: string, depth: nat): seq<Row>
    requires Sound(t) && forall e | e in es :: e in Listed(t.children, dir)
    decreases Below(t, dir), 0, |es|
  {
    if es == [] then [] else
    WalkEach(t, es[..|es| - 1], dir, depth) + Block(t, es[|es| - 1], dir, depth)
  }

  /** An entry's row, and the rows under it. */
  function Block(t: Tree, e: Entry, dir: string, depth: nat): seq<Row>
    requires Sound(t) && e in Listed(t.children, dir)
    decreases Below(t, dir), 0, 0
  {
    BelowShrinks(t, dir, e);
    [Row(e, depth)] + if t.open(e) then Walk(t, e.path, depth + 1) else []
  }

  /** The recursive walk of both sources, as it pushes rows. */
  method WalkRows(t: Tree, dir: string, depth: nat) returns (rows: seq<Row>)
    requires Sound(t)
    ensures rows == Walk(t, dir, depth)
    decreases Below(t, dir)
  {
    rows := [];
    var es := Listed(t.children, dir);
    for n := 0 to |es|
      invariant rows == WalkEach(t, es[..n], dir, depth)
    {
      var e := es[n];
      assert es[..n + 1][..n] == es[..n];
      BelowShrinks(t, dir, e);
      var block := [Row(e, depth)];
      if t.open(e) {
        var inner := WalkRows(t, e.path, depth + 1);
        block := block + inner;
      }
      rows := rows + block;
    }
    assert es[..|es|] == es;
  }

  // ---------------------------------------------------------------- outlines

  predicate Lists(rows: seq<Row>, p: string) {
    exists i :: 0 <= i < |rows| && rows[i].entry.path == p
  }

  predicate Distinct(rows: seq<Row>) {
    forall i, j | 0 <= i < j < |rows| :: rows[i].entry.path != rows[j].entry.path
  }

  /** Everything from row i to row j is inside row i. */
  predicate Under(rows: seq<Row>, i: nat, j: nat)
    requires i < |rows| && j < |rows|
  {
    i < j && forall k | i < k <= j :: Inside(rows[k].entry.path, rows[i].entry.path)
  }

  /** A directory stands before what is inside it, with nothing else in between. */
  predicate InOutline(rows: seq<Row>) {
    forall i, j | 0 <= i < |rows| && 0 <= j < |rows| && Inside(rows[j].entry.path, rows[i].entry.path) :: Under(rows, i, j)
  }

  /** No row of one list is inside, or the same as, a row of the other. */
  predicate Apart(a: seq<Row>, b: seq<Row>) {
    forall i, j | 0 <= i < |a| && 0 <= j < |b| ::
      && a[i].entry.path != b[j].entry.path
      && !Inside(a[i].entry.path, b[j].entry.path) && !Inside(b[j].entry.path, a[i].entry.path)
  }

  lemma OutlineConcat(a: seq<Row>, b: seq<Row>)
    requires InOutline(a) && InOutline(b) && Distinct(a) && Distinct(b) && Apart(a, b)
    ensures InOutline(a + b) && Distinct(a + b)
  {
    var c := a + b;
    forall i, j | 0 <= i < |c| && 0 <= j < |c| && Inside(c[j].entry.path, c[i].entry.path) ensures Under(c, i, j) {
      if i < |a| && j < |a| {
        assert Under(a, i, j);
        assert forall k | i < k <= j :: c[k] == a[k];
      } else if i >= |a| && j >= |a| {
        assert Under(b, i - |a|, j - |a|);
        forall k | i < k <= j ensures Inside(c[k].entry.path, c[i].entry.path) { assert c[k] == b[k - |a|]; }
      }
    }
  }

  lemma NotBothInside(p: string, q: string)
    ensures !(Inside(p, q) && Inside(q, p))
  {
  }

  lemma OutlineBehind(top: Row, rows: seq<Row>, i: nat, j: nat)
    requires InOutline(rows) && 0 < i < |rows| + 1 && 0 < j < |rows| + 1
    requires Inside(([top] + rows)[j].entry.path, ([top] + rows)[i].entry.path)
    ensures Under([top] + rows, i, j)
  {
    assert Under(rows, i - 1, j - 1);
    var c := [top] + rows;
    assert forall k | 0 < k < |c| :: c[k] == rows[k - 1];
  }

  /** A directory's own row over the rows inside it. */
  lemma OutlineUnder(top: Row, rows: seq<Row>)
    requires InOutline(rows) && Distinct(rows)
    requires forall i | 0 <= i < |rows| :: Inside(rows[i].entry.path, top.entry.path)
    ensures InOutline([top] + rows) && Distinct([top] + rows)
  {
    var c := [top] + rows;
    assert forall k | 0 < k < |c| :: c[k] == rows[k - 1];
    forall i, j | 0 <= i < |c| && 0 <= j < |c| && Inside(c[j].entry.path, c[i].entry.path) ensures Under(c, i, j) {
      if i > 0 && j > 0 {
        OutlineBehind(top, rows, i, j);
      } else {
        NotBothInside(c[i].entry.path, c[j].entry.path);
      }
    }
  }

  // ---------------------------------------------------------------- which rows there are

  predicate HasEntry(es: seq<Entry>, path: string) {
    exists i :: 0 <= i < |es| && es[i].path == path
  }

  /** Some entry of this path is walked into. */
  predicate OpenAt(t: Tree, p: string) {
    var es := Listed(t.children, Parent(p));
    exists i :: 0 <= i < |es| && es[i].path == p && t.open(es[i])
  }

  /** Listed inside the directory, with every directory between the two listed and open. */
  predicate Shown(t: Tree, dir: string, p: string)
    decreases |p|
  {
    && p != ROOT && Inside(p, dir) && HasEntry(Listed(t.children, Parent(p)), p)
    && (Parent(p) == dir || (OpenAt(t, Parent(p)) && (InsideByParent(p, p); Shown(t, dir, Parent(p)))))
  }

  lemma {:induction false} ShownChains(t: Tree, dir: string, mid: string, p: string)
    requires Shown(t, dir, mid) && OpenAt(t, mid) && Shown(t, mid, p)
    ensures Shown(t, dir, p)
    decreases |p|
  {
    CoversChains(dir, mid, p);
    InsideByParent(p, p);
    if Parent(p) != mid { ShownChains(t, dir, mid, Parent(p)); }
  }

  /** The entry of this directory on the way to what it shows. */
  lemma {:induction false} ShownVia(t: Tree, dir: string, p: string) returns (e: Entry)
    requires Sound(t) && Shown(t, dir, p)
    ensures e in Listed(t.children, dir)
    ensures p == e.path || (t.open(e) && Shown(t, e.path, p))
    decreases |p|
  {
    var es := Listed(t.children, Parent(p));
    var i :| 0 <= i < |es| && es[i].path == p;
    e := es[i];
    if Parent(p) != dir {
      InsideByParent(p, p);
      e := ShownVia(t, dir, Parent(p));
      if Parent(p) == e.path {
        BelowShrinks(t, dir, e);
        var k :| 0 <= k < |Listed(t.children, dir)| && Listed(t.children, dir)[k].path == Parent(p) && t.open(Listed(t.children, dir)[k]);
        e := Listed(t.children, dir)[k];
      }
      InsideByParent(p, e.path);
    }
  }

  // ---------------------------------------------------------------- what the walk yields

  /** Rows of what the directory shows, each as its parent lists it. */
  predicate AllShown(t: Tree, rows: seq<Row>, dir: string) {
    forall i | 0 <= i < |rows| ::
      Shown(t, dir, rows[i].entry.path) && rows[i].entry in Listed(t.children, Parent(rows[i].entry.path))
  }

  /** Every row is at or inside one of these entries. */
  predicate Within(rows: seq<Row>, es: seq<Entry>) {
    forall i | 0 <= i < |rows| :: AtOrInside(es, rows[i].entry.path)
  }

  predicate AtOrInside(es: seq<Entry>, p: string) {
    exists k :: 0 <= k < |es| && Covers(es[k].path, p)
  }

  lemma {:induction false} WalkIsOutline(t: Tree, dir: string, depth: nat)
    requires Sound(t)
    ensures var rows := Walk(t, dir, depth); AllShown(t, rows, dir) && InOutline(rows) && Distinct(rows)
    decreases Below(t, dir), 1, 0
  {
    assert WellListed(t.children, dir);
    EachIsOutline(t, Listed(t.children, dir), dir, depth);
  }

  lemma {:induction false} EachIsOutline(t: Tree, es: seq<Entry>, dir: string, depth: nat)
    requires Sound(t) && DistinctEntries(es) && forall e | e in es :: e in Listed(t.children, dir)
    ensures var rows := WalkEach(t, es, dir, depth);
            AllShown(t, rows, dir) && InOutline(rows) && Distinct(rows) && Within(rows, es)
    decreases Below(t, dir), 0, |es|
  {
    if es != [] {
      var front, last := es[..|es| - 1], es[|es| - 1];
      EachIsOutline(t, front, dir, depth);
      BlockIsOutline(t, last, dir, depth);
      var a, b := WalkEach(t, front, dir, depth), Block(t, last, dir, depth);
      EntriesApart(t, front, last, dir, a, b);
      OutlineConcat(a, b);
      WithinConcat(a, b, front, last);
      assert es == front + [last];
    }
  }

  lemma WithinConcat(a: seq<Row>, b: seq<Row>, front: seq<Entry>, last: Entry)
    requires Within(a, front) && Within(b, [last])
    ensures Within(a + b, front + [last])
  {
    var es := front + [last];
    forall i | 0 <= i < |a + b| ensures AtOrInside(es, (a + b)[i].entry.path) {
      var p := (a + b)[i].entry.path;
      if i < |a| {
        assert AtOrInside(front, a[i].entry.path);
        var k :| 0 <= k < |front| && Covers(front[k].path, p);
        assert es[k] == front[k];
      } else {
        assert AtOrInside([last], b[i - |a|].entry.path);
        assert es[|front|] == last;
      }
    }
  }

  lemma EntriesApart(t: Tree, front: seq<Entry>, last: Entry, dir: string, a: seq<Row>, b: seq<Row>)
    requires Sound(t) && last in Listed(t.children, dir)
    requires forall e | e in front :: e in Listed(t.children, dir) && e.path != last.path
    requires Within(a, front) && Within(b, [last])
    ensures Apart(a, b)
  {
    forall i, j | 0 <= i < |a| && 0 <= j < |b|
      ensures a[i].entry.path != b[j].entry.path
      ensures !Inside(a[i].entry.path, b[j].entry.path) && !Inside(b[j].entry.path, a[i].entry.path)
    {
      var x, y := a[i].entry.path, b[j].entry.path;
      assert AtOrInside(front, x) && AtOrInside([last], y);
      var k :| 0 <= k < |front| && Covers(front[k].path, x);
      BelowShrinks(t, dir, front[k]);
      BelowShrinks(t, dir, last);
      SiblingsApart(front[k].path, last.path, x);
      SiblingsApart(front[k].path, last.path, y);
      if Covers(y, x) { CoversChains(last.path, y, x); }
      if Covers(x, y) { CoversChains(front[k].path, x, y); }
    }
  }

  lemma {:induction false} BlockIsOutline(t: Tree, e: Entry, dir: string, depth: nat)
    requires Sound(t) && e in Listed(t.children, dir)
    ensures var rows := Block(t, e, dir, depth);
            AllShown(t, rows, dir) && InOutline(rows) && Distinct(rows) && Within(rows, [e])
    decreases Below(t, dir), 0, 0
  {
    BelowShrinks(t, dir, e);
    var rows := [];
    if t.open(e) {
      rows := Walk(t, e.path, depth + 1);
      WalkIsOutline(t, e.path, depth + 1);
    }
    OutlineUnder(Row(e, depth), rows);
    ShownUnder(t, Row(e, depth), rows, dir);
  }

  lemma ShownUnder(t: Tree, top: Row, rows: seq<Row>, dir: string)
    requires Sound(t) && top.entry in Listed(t.children, dir)
    requires AllShown(t, rows, top.entry.path) && (rows != [] ==> t.open(top.entry))
    ensures AllShown(t, [top] + rows, dir) && Within([top] + rows, [top.entry])
  {
    var c := [top] + rows;
    BelowShrinks(t, dir, top.entry);
    assert Shown(t, dir, top.entry.path);
    forall i | 0 <= i < |c|
      ensures c[i] == if i == 0 then top else rows[i - 1]
      ensures Shown(t, dir, c[i].entry.path) && AtOrInside([top.entry], c[i].entry.path)
    {
      assert Covers([top.entry][0].path, c[i].entry.path);
      if i > 0 {
        assert OpenAt(t, top.entry.path);
        ShownChains(t, dir, top.entry.path, rows[i - 1].entry.path);
      }
    }
  }

  // ---------------------------------------------------------------- nothing is missing

  lemma {:induction false} EachListsBlock(t: Tree, es: seq<Entry>, dir: string, depth: nat, e: Entry, p: string)
    requires Sound(t) && (forall x | x in es :: x in Listed(t.children, dir)) && e in es
    requires Lists(Block(t, e, dir, depth), p)
    ensures Lists(WalkEach(t, es, dir, depth), p)
  {
    var front, last := es[..|es| - 1], es[|es| - 1];
    assert es == front + [last];
    var a, b := WalkEach(t, front, dir, depth), Block(t, last, dir, depth);
    if e == last {
      var i :| 0 <= i < |b| && b[i].entry.path == p;
      assert (a + b)[|a| + i].entry.path == p;
    } else {
      EachListsBlock(t, front, dir, depth, e, p);
      var i :| 0 <= i < |a| && a[i].entry.path == p;
      assert (a + b)[i].entry.path == p;
    }
  }

  lemma BlockLists(t: Tree, e: Entry, dir: string, depth: nat, p: string)
    requires Sound(t) && e in Listed(t.children, dir)
    requires p == e.path || (t.open(e) && Lists(Walk(t, e.path, depth + 1), p))
    ensures Lists(Block(t, e, dir, depth), p)
  {
    var block := Block(t, e, dir, depth);
    assert block[0].entry == e;
    if p != e.path {
      var rows := Walk(t, e.path, depth + 1);
      var k :| 0 <= k < |rows| && rows[k].entry.path == p;
      assert block == [Row(e, depth)] + rows;
      assert block[k + 1] == rows[k];
    }
  }

  lemma {:induction false} ShownIsListed(t: Tree, dir: string, depth: nat, p: string)
    requires Sound(t) && Shown(t, dir, p)
    ensures Lists(Walk(t, dir, depth), p)
    decreases Below(t, dir)
  {
    var e := ShownVia(t, dir, p);
    BelowShrinks(t, dir, e);
    if e.path != p { ShownIsListed(t, e.path, depth + 1, p); }
    BlockLists(t, e, dir, depth, p);
    EachListsBlock(t, Listed(t.children, dir), dir, depth, e, p);
  }

  /** A tree's rows are an outline of exactly what it shows, each path once. */
  lemma RowsAreWhatIsShown(t: Tree)
    requires Sound(t)
    ensures var rows := Walk(t, ROOT, 0);
            InOutline(rows) && Distinct(rows) && AllShown(t, rows, ROOT) && forall p :: Lists(rows, p) <==> Shown(t, ROOT, p)
  {
    WalkIsOutline(t, ROOT, 0);
    forall p | Shown(t, ROOT, p) ensures Lists(Walk(t, ROOT, 0), p) { ShownIsListed(t, ROOT, 0, p); }
  }

  // ---------------------------------------------------------------- depths

  /** The depth of a directory's own entries. */
  function DepthIn(dir: string): nat {
    if dir == ROOT then 0 else Depth(dir) + 1
  }

  /** Rows drawn as deep as their paths are long. */
  predicate Deep(rows: seq<Row>) {
    forall i | 0 <= i < |rows| :: rows[i].depth == Depth(rows[i].entry.path)
  }

  predicate RootsNamed(t: Tree) {
    forall e | e in Listed(t.children, ROOT) :: Named(e.path)
  }

  /** Under a named directory, or listed in a root whose entries are named. */
  lemma EntryNamed(t: Tree, dir: string, e: Entry)
    requires Sound(t) && RootsNamed(t) && (dir == ROOT || Named(dir)) && e in Listed(t.children, dir)
    ensures Named(e.path)
  {
    BelowShrinks(t, dir, e);
    if dir != ROOT { assert e.path[0] == dir[0]; }
  }

  lemma {:induction false} WalkIsDeep(t: Tree, dir: string)
    requires Sound(t) && RootsNamed(t) && (dir == ROOT || Named(dir))
    ensures Deep(Walk(t, dir, DepthIn(dir)))
    decreases Below(t, dir), 1
  {
    EachIsDeep(t, Listed(t.children, dir), dir);
  }

  lemma {:induction false} EachIsDeep(t: Tree, es: seq<Entry>, dir: string)
    requires Sound(t) && RootsNamed(t) && (dir == ROOT || Named(dir))
    requires forall e | e in es :: e in Listed(t.children, dir)
    ensures Deep(WalkEach(t, es, dir, DepthIn(dir)))
    decreases Below(t, dir), 0, |es|
  {
    if es != [] {
      var e := es[|es| - 1];
      EachIsDeep(t, es[..|es| - 1], dir);
      BelowShrinks(t, dir, e);
      EntryNamed(t, dir, e);
      DepthByParent(e.path);
      if t.open(e) { WalkIsDeep(t, e.path); }
      assert Deep(Block(t, e, dir, DepthIn(dir)));
    }
  }

  // ---------------------------------------------------------------- the order of siblings

  /** The entries that have a row and lie directly in a directory, top to bottom. */
  function EntriesIn(rows: seq<Row>, d: string): seq<Entry> {
    if rows == [] then [] else
    var e := rows[|rows| - 1].entry;
    EntriesIn(rows[..|rows| - 1], d) + if Parent(e.path) == d then [e] else []
  }

  lemma {:induction false} EntriesInConcat(a: seq<Row>, b: seq<Row>, d: string)
    ensures EntriesIn(a + b, d) == EntriesIn(a, d) + EntriesIn(b, d)
  {
    if b == [] {
      assert a + b == a;
    } else {
      assert (a + b)[..|a + b| - 1] == a + b[..|b| - 1];
      EntriesInConcat(a, b[..|b| - 1], d);
    }
  }

  lemma {:induction false} EntriesInHas(rows: seq<Row>, d: string, i: nat)
    requires i < |rows| && Parent(rows[i].entry.path) == d
    ensures EntriesIn(rows, d) != []
  {
    if i < |rows| - 1 { EntriesInHas(rows[..|rows| - 1], d, i); }
  }

  lemma {:induction false} EntriesInFrom(rows: seq<Row>, d: string) returns (i: nat)
    requires EntriesIn(rows, d) != []
    ensures i < |rows| && Parent(rows[i].entry.path) == d
  {
    i := |rows| - 1;
    if Parent(rows[i].entry.path) != d { i := EntriesInFrom(rows[..i], d); }
  }

  /** Nothing of the directory, or all it lists, as it lists it. */
  predicate AllOrNone(t: Tree, rows: seq<Row>, d: string) {
    EntriesIn(rows, d) == [] || EntriesIn(rows, d) == Listed(t.children, d)
  }

  lemma {:induction false} WalkEntries(t: Tree, dir: string, depth: nat, d: string)
    requires Sound(t)
    ensures var rows := Walk(t, dir, depth);
            && AllOrNone(t, rows, d) && (!Covers(dir, d) ==> EntriesIn(rows, d) == [])
            && (d == dir ==> EntriesIn(rows, d) == Listed(t.children, d))
    decreases Below(t, dir), 1, 0
  {
    var es := Listed(t.children, dir);
    assert WellListed(t.children, dir);
    EachEntries(t, es, dir, depth, d);
    forall i | 0 <= i < |es| && !Covers(dir, d) ensures !Covers(es[i].path, d) {
      BelowShrinks(t, dir, es[i]);
      if Covers(es[i].path, d) { CoversChains(dir, es[i].path, d); }
    }
  }

  lemma {:induction false} EachEntries(t: Tree, es: seq<Entry>, dir: string, depth: nat, d: string)
    requires Sound(t) && DistinctEntries(es) && forall e | e in es :: e in Listed(t.children, dir)
    ensures var rows := WalkEach(t, es, dir, depth);
            if d == dir then EntriesIn(rows, d) == es else AllOrNone(t, rows, d) && (!AtOrInside(es, d) ==> EntriesIn(rows, d) == [])
    decreases Below(t, dir), 0, |es|
  {
    if es != [] {
      var front, last := es[..|es| - 1], es[|es| - 1];
      var a, b := WalkEach(t, front, dir, depth), Block(t, last, dir, depth);
      assert WalkEach(t, es, dir, depth) == a + b;
      assert es == front + [last];
      EachEntries(t, front, dir, depth, d);
      BlockEntries(t, last, dir, depth, d);
      EntriesOnward(t, front, last, dir, d, a, b);
    }
  }

  /** One more entry, and the rows it adds. */
  lemma EntriesOnward(t: Tree, front: seq<Entry>, last: Entry, dir: string, d: string, a: seq<Row>, b: seq<Row>)
    requires Sound(t) && last in Listed(t.children, dir)
    requires forall e | e in front :: e in Listed(t.children, dir) && e.path != last.path
    requires if d == dir then EntriesIn(a, d) == front && EntriesIn(b, d) == [last]
             else && AllOrNone(t, a, d) && (!AtOrInside(front, d) ==> EntriesIn(a, d) == [])
                  && AllOrNone(t, b, d) && (!Covers(last.path, d) ==> EntriesIn(b, d) == [])
    ensures if d == dir then EntriesIn(a + b, d) == front + [last]
            else AllOrNone(t, a + b, d) && (!AtOrInside(front + [last], d) ==> EntriesIn(a + b, d) == [])
  {
    if d == dir {
      EntriesInConcat(a, b, d);
    } else {
      OneHolds(t, front, last, dir, d);
      EntriesJoin(t, a, b, d);
    }
  }

  lemma EntriesJoin(t: Tree, a: seq<Row>, b: seq<Row>, d: string)
    requires AllOrNone(t, a, d) && AllOrNone(t, b, d) && (EntriesIn(a, d) == [] || EntriesIn(b, d) == [])
    ensures AllOrNone(t, a + b, d) && (EntriesIn(a, d) == [] == EntriesIn(b, d) ==> EntriesIn(a + b, d) == [])
  {
    EntriesInConcat(a, b, d);
    assert EntriesIn(a + b, d) == if EntriesIn(a, d) == [] then EntriesIn(b, d) else EntriesIn(a, d);
  }

  /** A path lies at or inside at most one of a directory's entries. */
  lemma OneHolds(t: Tree, front: seq<Entry>, last: Entry, dir: string, d: string)
    requires Sound(t) && last in Listed(t.children, dir)
    requires forall e | e in front :: e in Listed(t.children, dir) && e.path != last.path
    ensures !(AtOrInside(front, d) && Covers(last.path, d))
    ensures AtOrInside(front + [last], d) <==> AtOrInside(front, d) || Covers(last.path, d)
  {
    assert (front + [last])[|front|] == last;
    BelowShrinks(t, dir, last);
    if k :| 0 <= k < |front| && Covers(front[k].path, d) {
      assert (front + [last])[k] == front[k];
      BelowShrinks(t, dir, front[k]);
      SiblingsApart(front[k].path, last.path, d);
    }
  }

  lemma {:induction false} BlockEntries(t: Tree, e: Entry, dir: string, depth: nat, d: string)
    requires Sound(t) && e in Listed(t.children, dir)
    ensures var rows := Block(t, e, dir, depth);
            && (d == dir ==> EntriesIn(rows, d) == [e])
            && (d != dir ==> AllOrNone(t, rows, d) && (!Covers(e.path, d) ==> EntriesIn(rows, d) == []))
    decreases Below(t, dir), 0, 0
  {
    BelowShrinks(t, dir, e);
    NotBothInside(e.path, dir);
    var rows := [];
    if t.open(e) {
      rows := Walk(t, e.path, depth + 1);
      WalkEntries(t, e.path, depth + 1, d);
    }
    EntriesInConcat([Row(e, depth)], rows, d);
    assert [Row(e, depth)][..0] == [];
  }

  /** The directory's own entries are drawn: it is the root, or has a row and is open. */
  predicate Unfolded(t: Tree, d: string) {
    d == ROOT || (Shown(t, ROOT, d) && OpenAt(t, d))
  }

  /** The rows of each directory's entries are exactly what it lists, in the order it lists them. */
  lemma SiblingsAsListed(t: Tree, d: string)
    requires Sound(t)
    ensures EntriesIn(Walk(t, ROOT, 0), d) == if Unfolded(t, d) then Listed(t.children, d) else []
  {
    var rows, es := Walk(t, ROOT, 0), Listed(t.children, d);
    WalkEntries(t, ROOT, 0, d);
    RowsAreWhatIsShown(t);
    if d != ROOT {
      if Unfolded(t, d) && es != [] {
        UnfoldedShows(t, d);
        assert Lists(rows, es[0].path);
        var i :| 0 <= i < |rows| && rows[i].entry.path == es[0].path;
        EntriesInHas(rows, d, i);
      }
      if EntriesIn(rows, d) != [] { RowUnfolds(t, d); }
    }
  }

  lemma RowUnfolds(t: Tree, d: string)
    requires Sound(t) && EntriesIn(Walk(t, ROOT, 0), d) != []
    ensures Unfolded(t, d)
  {
    RowsAreWhatIsShown(t);
    var i := EntriesInFrom(Walk(t, ROOT, 0), d);
    assert Shown(t, ROOT, Walk(t, ROOT, 0)[i].entry.path);
  }

  lemma UnfoldedShows(t: Tree, d: string)
    requires Sound(t) && Unfolded(t, d) && Listed(t.children, d) != []
    ensures Shown(t, ROOT, Listed(t.children, d)[0].path) && Parent(Listed(t.children, d)[0].path) == d
  {
    var es := Listed(t.children, d);
    assert WellListed(t.children, d);
    assert HasEntry(es, es[0].path);
    InsideByParent(es[0].path, es[0].path);
  }
}
