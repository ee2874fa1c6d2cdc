/** The lazily loaded file tree, `frontend/src/lib/tree.ts`: listings that come and go, which
    directories are expanded, and the promise of `reveal` and `locate` that what they are asked
    for is then on screen. */
module FileTree {
  import opened Sequences
  import opened Strings
  import opened Paths
  import opened TreePaths
  import opened Outline

  datatype DirStatus = Loading | Loaded | Failed(error: string)

  datatype DirState = DirState(status: DirStatus, children: seq<Entry>)

  datatype State = State(
    dirs: Dirs, expanded: set<string>, selected: Option<string>,
    showHidden: bool, changedOnly: bool, locateRequest: nat)

  /** What the backend lists: names, without a separator and never empty. */
  datatype Item = Item(name: string, isDir: bool)

  function Initial(): State {
    State(map[], {ROOT}, None, false, false, 0)
  }

  function JoinPath(dir: string, name: string): string {
    if dir == ROOT then name else dir + "/" + name
  }

  lemma JoinedPath(dir: string, name: string)
    requires name != "" && '/' !in name
    ensures Parent(JoinPath(dir, name)) == dir && Base(JoinPath(dir, name)) == name && JoinPath(dir, name) != ROOT
  {
    var p := JoinPath(dir, name);
    if dir != ROOT {
      assert p[|dir|] == '/';
      assert forall k | |dir| < k < |p| :: p[k] == name[k - |dir| - 1];
      assert LastSlash(p) == |dir|;
    } else {
      assert LastSlash(p) == -1;
    }
  }

  // ---------------------------------------------------------------- transitions

  type Dirs = map<string, DirState>

  function Children(dirs: Dirs, dir: string): seq<Entry> {
    if dir in dirs then dirs[dir].children else []
  }

  function WithLoading(s: State, dir: string): State {
    s.(dirs := s.dirs[dir := DirState(Loading, Children(s.dirs, dir))])
  }

  function Entries(dir: string, listing: seq<Item>): (es: seq<Entry>)
    ensures |es| == |listing|
    ensures forall i | 0 <= i < |es| :: es[i] == Entry(listing[i].name, listing[i].isDir, JoinPath(dir, listing[i].name))
  {
    if listing == [] then [] else
    var e := listing[|listing| - 1];
    Entries(dir, listing[..|listing| - 1]) + [Entry(e.name, e.isDir, JoinPath(dir, e.name))]
  }

  function WithListing(s: State, dir: string, listing: seq<Item>): State {
    s.(dirs := s.dirs[dir := DirState(Loaded, Entries(dir, listing))])
  }

  function WithError(s: State, dir: string, message: string): State {
    s.(dirs := s.dirs[dir := DirState(Failed(message), Children(s.dirs, dir))])
  }

  function Expand(s: State, dir: string): State {
    s.(expanded := s.expanded + {dir})
  }

  function Collapse(s: State, dir: string): State {
    s.(expanded := s.expanded - {dir})
  }

  predicate IsHidden(name: string) {
    name != "" && name[0] == '.'
  }

  /** The loop of `ancestry` over a path's segments: empty ones are dropped. */
  function Chain(segments: seq<string>): seq<string> {
    if segments == [] then [] else
    var chain, s := Chain(segments[..|segments| - 1]), segments[|segments| - 1];
    if s == "" then chain
    else if chain == [] then [s]
    else chain + [chain[|chain| - 1] + "/" + s]
  }

  function Ancestry(path: string): seq<string> {
    Chain(Split(path, '/'))
  }

  /** `ancestry`, as it pushes prefixes. */
  method AncestryOf(path: string) returns (chain: seq<string>)
    ensures chain == Ancestry(path)
  {
    chain := [];
    var segments := Split(path, '/');
    for n := 0 to |segments|
      invariant chain == Chain(segments[..n])
    {
      assert segments[..n + 1][..n] == segments[..n];
      if segments[n] != "" {
        chain := chain + [if chain == [] then segments[n] else chain[|chain| - 1] + "/" + segments[n]];
      }
    }
    assert segments[..|segments|] == segments;
  }

  function Members(chain: seq<string>): set<string> {
    set p | p in chain
  }

  predicate AnyHidden(chain: seq<string>) {
    exists p | p in chain :: IsHidden(Base(p))
  }

  function Reveal(s: State, dir: string): State {
    var chain := Ancestry(dir);
    s.(expanded := s.expanded + Members(chain), selected := Some(dir),
       showHidden := s.showHidden || AnyHidden(chain), changedOnly := false)
  }

  function Locate(s: State, path: string): State {
    var revealed := Reveal(s, Parent(path));
    revealed.(selected := Some(path), locateRequest := s.locateRequest + 1,
              showHidden := revealed.showHidden || AnyHidden(Ancestry(path)))
  }

  datatype Action =
    | Load(dir: string) | List(dir: string, listing: seq<Item>) | Fail(dir: string, message: string)
    | ExpandDir(dir: string) | CollapseDir(dir: string) | RevealDir(dir: string) | LocatePath(path: string)
    | Select(chosen: Option<string>) | ToggleHidden | ToggleChangedOnly
    | Restore(saved: set<string>, chosen: Option<string>, showHidden: bool, changedOnly: bool)

  function Next(s: State, a: Action): State {
    match a
    case Load(dir) => WithLoading(s, dir)
    case List(dir, listing) => WithListing(s, dir, listing)
    case Fail(dir, message) => WithError(s, dir, message)
    case ExpandDir(dir) => Expand(s, dir)
    case CollapseDir(dir) => Collapse(s, dir)
    case RevealDir(dir) => Reveal(s, dir)
    case LocatePath(path) => Locate(s, path)
    case Select(chosen) => s.(selected := chosen)
    case ToggleHidden => s.(showHidden := !s.showHidden)
    case ToggleChangedOnly => s.(changedOnly := !s.changedOnly)
    case Restore(saved, chosen, showHidden, changedOnly) =>
      s.(expanded := {ROOT} + saved, selected := chosen, showHidden := showHidden, changedOnly := changedOnly)
  }

  function Run(actions: seq<Action>): State {
    if actions == [] then Initial() else Next(Run(actions[..|actions| - 1]), actions[|actions| - 1])
  }

  /** A directory lists each name once, and names have no separator. */
  predicate IsListing(listing: seq<Item>) {
    && (forall i | 0 <= i < |listing| :: listing[i].name != "" && '/' !in listing[i].name)
    && (forall i, j | 0 <= i < j < |listing| :: listing[i].name != listing[j].name)
  }

  predicate Listings(actions: seq<Action>) {
    forall a | a in actions && a.List? :: IsListing(a.listing)
  }

  // ---------------------------------------------------------------- what is on screen

  function VisibleOf(es: seq<Entry>, showHidden: bool): (r: seq<Entry>)
    ensures forall e :: e in r <==> e in es && (showHidden || !IsHidden(e.name))
  {
    if es == [] then [] else
    var front, e := VisibleOf(es[..|es| - 1], showHidden), es[|es| - 1];
    assert es == es[..|es| - 1] + [e];
    if showHidden || !IsHidden(e.name) then front + [e] else front
  }

  /** The listings as `visibleRows` walks them. */
  function Visible(s: State): Tree {
    Tree(map d | d in s.dirs :: VisibleOf(s.dirs[d].children, s.showHidden),
         (e: Entry) => e.isDir && e.path in s.expanded)
  }

  /** Every listing is of its own directory. */
  ghost predicate InFile(dirs: Dirs) {
    forall dir :: ListingOf(Children(dirs, dir), dir)
  }

  ghost predicate Inv(s: State) {
    InFile(s.dirs)
  }

  lemma ListingIsFiled(dir: string, listing: seq<Item>)
    requires IsListing(listing)
    ensures ListingOf(Entries(dir, listing), dir)
  {
    forall i | 0 <= i < |listing|
      ensures Parent(JoinPath(dir, listing[i].name)) == dir && Base(JoinPath(dir, listing[i].name)) == listing[i].name
      ensures JoinPath(dir, listing[i].name) != ROOT
    {
      JoinedPath(dir, listing[i].name);
    }
  }

  lemma {:induction false} InvAlways(actions: seq<Action>)
    requires Listings(actions)
    ensures Inv(Run(actions))
  {
    if actions != [] {
      var front, a := actions[..|actions| - 1], actions[|actions| - 1];
      assert actions == front + [a];
      InvAlways(front);
      InvKept(Run(front), a);
    }
  }

  lemma InvKept(s: State, a: Action)
    requires Inv(s) && (a.List? ==> IsListing(a.listing))
    ensures Inv(Next(s, a))
  {
    if a.List? { ListingIsFiled(a.dir, a.listing); }
    forall dir ensures ListingOf(Children(Next(s, a).dirs, dir), dir) {
      assert ListingOf(Children(s.dirs, dir), dir);
    }
  }

  /** What the root lists is written without a separator ahead. */
  predicate RootNamed(dirs: Dirs) {
    forall e | e in Children(dirs, ROOT) :: Named(e.path)
  }

  lemma RootNamedKept(s: State, a: Action)
    requires RootNamed(s.dirs) && (a.List? ==> IsListing(a.listing))
    ensures RootNamed(Next(s, a).dirs)
  {
  }

  lemma {:induction false} RootNamedAlways(actions: seq<Action>)
    requires Listings(actions)
    ensures RootNamed(Run(actions).dirs)
  {
    if actions != [] {
      var front, a := actions[..|actions| - 1], actions[|actions| - 1];
      assert actions == front + [a];
      RootNamedAlways(front);
      RootNamedKept(Run(front), a);
    }
  }

  lemma {:induction false} VisibleDistinct(es: seq<Entry>, showHidden: bool)
    requires DistinctEntries(es)
    ensures DistinctEntries(VisibleOf(es, showHidden))
  {
    if es != [] {
      var front, e := es[..|es| - 1], es[|es| - 1];
      VisibleDistinct(front, showHidden);
      var r := VisibleOf(front, showHidden);
      forall i | 0 <= i < |r| ensures r[i].path != e.path {
        assert r[i] in front;
      }
    }
  }

  lemma VisibleListing(s: State, dir: string)
    ensures Listed(Visible(s).children, dir) == VisibleOf(Children(s.dirs, dir), s.showHidden)
  {
  }

  lemma VisibleIsSound(s: State)
    requires Inv(s)
    ensures Sound(Visible(s))
  {
    var t := Visible(s);
    forall d ensures WellListed(t.children, d) {
      var es := Children(s.dirs, d);
      assert ListingOf(es, d);
      VisibleDistinct(es, s.showHidden);
      VisibleListing(s, d);
      var r := VisibleOf(es, s.showHidden);
      forall i | 0 <= i < |r| ensures r[i] in es { assert r[i] in r; }
    }
  }

  lemma VisibleRoots(s: State)
    requires RootNamed(s.dirs)
    ensures RootsNamed(Visible(s))
  {
    VisibleListing(s, ROOT);
  }

  /** The walk ends, and yields an outline of what is shown, each path once. */
  method DrawnRows(s: State) returns (rows: seq<Row>)
    requires Inv(s)
    ensures Sound(Visible(s)) && rows == Walk(Visible(s), ROOT, 0)
    ensures Distinct(rows) && InOutline(rows)
    ensures forall p :: Lists(rows, p) <==> Shown(Visible(s), ROOT, p)
    ensures forall i | 0 <= i < |rows| :: rows[i].entry.path != ROOT
    ensures forall i | 0 <= i < |rows| :: rows[i].entry in Children(s.dirs, Parent(rows[i].entry.path))
  {
    VisibleIsSound(s);
    rows := WalkRows(Visible(s), ROOT, 0);
    RowsAreWhatIsShown(Visible(s));
    forall i | 0 <= i < |rows| ensures rows[i].entry in Children(s.dirs, Parent(rows[i].entry.path)) {
      VisibleListing(s, Parent(rows[i].entry.path));
      assert rows[i].entry in Listed(Visible(s).children, Parent(rows[i].entry.path));
    }
  }

  /** What a directory's entries have for rows: its listing without what is filtered out, once it is unfolded. */
  function Drawn(s: State, d: string): seq<Entry> {
    if Unfolded(Visible(s), d) then VisibleOf(Children(s.dirs, d), s.showHidden) else []
  }

  /** `visibleRows`: an outline of what is shown, each path once and drawn as deep as it is long, and
      the entries of each directory in the order it was listed. */
  method VisibleRows(s: State) returns (rows: seq<Row>)
    requires Inv(s) && RootNamed(s.dirs)
    ensures Distinct(rows) && InOutline(rows) && Deep(rows)
    ensures forall p :: Lists(rows, p) <==> Shown(Visible(s), ROOT, p)
    ensures forall d :: EntriesIn(rows, d) == Drawn(s, d)
    ensures forall i | 0 <= i < |rows| :: rows[i].entry in Children(s.dirs, Parent(rows[i].entry.path))
  {
    rows := DrawnRows(s);
    VisibleIsSound(s);
    VisibleRoots(s);
    WalkIsDeep(Visible(s), ROOT);
    forall d ensures EntriesIn(rows, d) == Drawn(s, d) {
      SiblingsAsListed(Visible(s), d);
      VisibleListing(s, d);
    }
  }

  /** `openDirs`: the root, and exactly the expanded directories that have a row. */
  method OpenDirs(s: State) returns (open: seq<string>)
    requires Inv(s)
    ensures open != [] && open[0] == ROOT
    ensures forall d :: d in open[1..] <==> Shown(Visible(s), ROOT, d) && OpenAt(Visible(s), d)
    ensures forall i, j | 0 <= i < j < |open| :: open[i] != open[j]
  {
    var rows := DrawnRows(s);
    open := [ROOT];
    for n := 0 to |rows|
      invariant Gathered(s, rows, n, open)
    {
      GatherRow(s, rows, n, open);
      if IsOpen(s, rows[n].entry) { open := open + [rows[n].entry.path]; }
    }
    OpenRows(s, rows);
  }

  /** The root, and the open directories among the first rows, each once. */
  ghost predicate Gathered(s: State, rows: seq<Row>, n: nat, open: seq<string>)
    requires n <= |rows|
  {
    && open != [] && open[0] == ROOT
    && (forall d :: d in open[1..] <==> OpenAmong(s, rows, n, d))
    && (forall i, j | 0 <= i < j < |open| :: open[i] != open[j])
  }

  lemma GatherRow(s: State, rows: seq<Row>, n: nat, open: seq<string>)
    requires n < |rows| && Distinct(rows) && rows[n].entry.path != ROOT && Gathered(s, rows, n, open)
    ensures Gathered(s, rows, n + 1, if IsOpen(s, rows[n].entry) then open + [rows[n].entry.path] else open)
  {
    forall d ensures OpenAmong(s, rows, n + 1, d) <==> OpenAmong(s, rows, n, d) || (d == rows[n].entry.path && IsOpen(s, rows[n].entry)) {
      OpenAmongNext(s, rows, n, d);
    }
    if IsOpen(s, rows[n].entry) { NewlyOpen(s, rows, n, open); }
  }

  lemma OpenRows(s: State, rows: seq<Row>)
    requires Inv(s) && (forall p :: Lists(rows, p) <==> Shown(Visible(s), ROOT, p))
    requires forall i | 0 <= i < |rows| :: rows[i].entry in Children(s.dirs, Parent(rows[i].entry.path))
    ensures forall d :: OpenAmong(s, rows, |rows|, d) <==> Shown(Visible(s), ROOT, d) && OpenAt(Visible(s), d)
  {
    forall d ensures OpenAmong(s, rows, |rows|, d) <==> Shown(Visible(s), ROOT, d) && OpenAt(Visible(s), d) {
      OpenRow(s, rows, d);
    }
  }

  predicate OpenAmong(s: State, rows: seq<Row>, n: nat, d: string)
    requires n <= |rows|
  {
    exists i | 0 <= i < n :: rows[i].entry.path == d && IsOpen(s, rows[i].entry)
  }

  lemma OpenAmongNext(s: State, rows: seq<Row>, n: nat, d: string)
    requires n < |rows|
    ensures OpenAmong(s, rows, n + 1, d) <==> OpenAmong(s, rows, n, d) || (d == rows[n].entry.path && IsOpen(s, rows[n].entry))
  {
  }

  lemma NewlyOpen(s: State, rows: seq<Row>, n: nat, open: seq<string>)
    requires n < |rows| && Distinct(rows) && rows[n].entry.path != ROOT && Gathered(s, rows, n, open)
    ensures forall i | 0 <= i < |open| :: open[i] != rows[n].entry.path
    ensures (open + [rows[n].entry.path])[1..] == open[1..] + [rows[n].entry.path]
  {
    forall i | 0 < i < |open| ensures open[i] != rows[n].entry.path {
      assert open[i] == open[1..][i - 1];
      assert OpenAmong(s, rows, n, open[i]);
    }
  }

  predicate IsOpen(s: State, e: Entry) {
    e.isDir && e.path in s.expanded
  }

  /** A visible entry is one that was listed. */
  lemma VisibleWasListed(s: State, d: string, k: nat)
    requires k < |Listed(Visible(s).children, d)|
    ensures Listed(Visible(s).children, d)[k] in Children(s.dirs, d)
  {
    VisibleListing(s, d);
    assert VisibleOf(Children(s.dirs, d), s.showHidden)[k] in VisibleOf(Children(s.dirs, d), s.showHidden);
  }

  /** The row of a path that is there to see is of the entry that is seen. */
  lemma RowIsTheEntry(s: State, rows: seq<Row>, i: nat, d: string, k: nat)
    requires Inv(s) && i < |rows| && rows[i].entry.path == d && rows[i].entry in Children(s.dirs, Parent(d))
    requires k < |Listed(Visible(s).children, Parent(d))| && Listed(Visible(s).children, Parent(d))[k].path == d
    ensures Listed(Visible(s).children, Parent(d))[k] == rows[i].entry
  {
    assert ListingOf(Children(s.dirs, Parent(d)), Parent(d));
    VisibleWasListed(s, Parent(d), k);
    OneOfThePath(Children(s.dirs, Parent(d)), Listed(Visible(s).children, Parent(d))[k], rows[i].entry);
  }

  lemma OpenRow(s: State, rows: seq<Row>, d: string)
    requires Inv(s) && (forall p :: Lists(rows, p) <==> Shown(Visible(s), ROOT, p))
    requires forall i | 0 <= i < |rows| :: rows[i].entry in Children(s.dirs, Parent(rows[i].entry.path))
    ensures OpenAmong(s, rows, |rows|, d) <==> Shown(Visible(s), ROOT, d) && OpenAt(Visible(s), d)
  {
    if OpenAmong(s, rows, |rows|, d) {
      var i :| 0 <= i < |rows| && rows[i].entry.path == d && IsOpen(s, rows[i].entry);
      assert Lists(rows, d);
      OpenRowIsOpen(s, rows, i, d);
    }
    if Shown(Visible(s), ROOT, d) && OpenAt(Visible(s), d) {
      assert Lists(rows, d);
      var i :| 0 <= i < |rows| && rows[i].entry.path == d;
      OpenHasOpenRow(s, rows, i, d);
    }
  }

  lemma OpenRowIsOpen(s: State, rows: seq<Row>, i: nat, d: string)
    requires Inv(s) && i < |rows| && rows[i].entry.path == d && rows[i].entry in Children(s.dirs, Parent(d))
    requires Shown(Visible(s), ROOT, d) && IsOpen(s, rows[i].entry)
    ensures OpenAt(Visible(s), d)
  {
    var es := Listed(Visible(s).children, Parent(d));
    var k :| 0 <= k < |es| && es[k].path == d;
    RowIsTheEntry(s, rows, i, d, k);
  }

  lemma OpenHasOpenRow(s: State, rows: seq<Row>, i: nat, d: string)
    requires Inv(s) && i < |rows| && rows[i].entry.path == d && rows[i].entry in Children(s.dirs, Parent(d))
    requires OpenAt(Visible(s), d)
    ensures IsOpen(s, rows[i].entry)
  {
    var t := Visible(s);
    var es := Listed(t.children, Parent(d));
    var k :| 0 <= k < |es| && es[k].path == d && t.open(es[k]);
    RowIsTheEntry(s, rows, i, d, k);
  }

  lemma OneOfThePath(es: seq<Entry>, a: Entry, b: Entry)
    requires DistinctEntries(es) && a in es && b in es && a.path == b.path
    ensures a == b
  {
  }

  // ---------------------------------------------------------------- reveal

  predicate Leads(es: seq<Entry>, p: string, last: bool) {
    exists e | e in es :: e.path == p && (last || e.isDir)
  }

  /** Every step of a chain is listed where the step before it leads, as a directory except
      perhaps the last. */
  predicate Loads(dirs: Dirs, chain: seq<string>) {
    forall i | 0 <= i < |chain| :: LoadedAt(dirs, chain, i)
  }

  predicate LoadedAt(dirs: Dirs, chain: seq<string>, i: nat)
    requires i < |chain|
  {
    Leads(Children(dirs, Parent(chain[i])), chain[i], i == |chain| - 1)
  }

  /** Each step of a chain lies directly in the one before, the first in the root. */
  predicate Steps(chain: seq<string>) {
    forall i | 0 <= i < |chain| :: StepAt(chain, i)
  }

  predicate StepAt(chain: seq<string>, i: nat)
    requires i < |chain|
  {
    chain[i] != ROOT && Parent(chain[i]) == if i == 0 then ROOT else chain[i - 1]
  }

  lemma StepsSnoc(chain: seq<string>, p: string)
    requires Steps(chain) && p != ROOT && Parent(p) == if chain == [] then ROOT else chain[|chain| - 1]
    ensures Steps(chain + [p])
  {
    var next := chain + [p];
    forall i | 0 <= i < |next| ensures StepAt(next, i) {
      if i < |chain| { assert StepAt(chain, i); }
    }
  }

  lemma {:induction false} ChainSteps(segments: seq<string>)
    requires forall i | 0 <= i < |segments| :: '/' !in segments[i]
    ensures Steps(Chain(segments))
  {
    if segments != [] {
      var chain, s := Chain(segments[..|segments| - 1]), segments[|segments| - 1];
      ChainSteps(segments[..|segments| - 1]);
      if s != "" {
        if chain != [] { assert StepAt(chain, |chain| - 1); }
        JoinedPath(if chain == [] then ROOT else chain[|chain| - 1], s);
        StepsSnoc(chain, if chain == [] then s else chain[|chain| - 1] + "/" + s);
      }
    }
  }

  /** Nothing on the way is filtered out, and every directory on it is expanded. */
  predicate Clear(s: State, chain: seq<string>) {
    forall i | 0 <= i < |chain| :: ClearAt(s, chain, i)
  }

  predicate ClearAt(s: State, chain: seq<string>, i: nat)
    requires i < |chain|
  {
    (s.showHidden || !IsHidden(Base(chain[i]))) && (i < |chain| - 1 ==> chain[i] in s.expanded)
  }

  lemma StepIsSeen(s: State, p: string, last: bool)
    requires Inv(s) && Leads(Children(s.dirs, Parent(p)), p, last) && (s.showHidden || !IsHidden(Base(p)))
    ensures HasEntry(Listed(Visible(s).children, Parent(p)), p)
    ensures !last && p in s.expanded ==> OpenAt(Visible(s), p)
  {
    var e :| e in Children(s.dirs, Parent(p)) && e.path == p && (last || e.isDir);
    assert ListingOf(Children(s.dirs, Parent(p)), Parent(p));
    EntryIsSeen(s, e);
  }

  /** A listed entry that is not filtered out is there to see, and open if it is expanded. */
  lemma EntryIsSeen(s: State, e: Entry)
    requires e in Children(s.dirs, Parent(e.path)) && (s.showHidden || !IsHidden(e.name))
    ensures HasEntry(Listed(Visible(s).children, Parent(e.path)), e.path)
    ensures IsOpen(s, e) ==> OpenAt(Visible(s), e.path)
  {
    VisibleListing(s, Parent(e.path));
    var r := VisibleOf(Children(s.dirs, Parent(e.path)), s.showHidden);
    assert e in r;
    var k :| 0 <= k < |r| && r[k] == e;
    assert Visible(s).open(e) == IsOpen(s, e);
  }

  /** Every step there to see, and every step but the last open. */
  predicate Way(t: Tree, chain: seq<string>) {
    forall i | 0 <= i < |chain| :: WayAt(t, chain, i)
  }

  predicate WayAt(t: Tree, chain: seq<string>, i: nat)
    requires i < |chain|
  {
    HasEntry(Listed(t.children, Parent(chain[i])), chain[i]) && (i < |chain| - 1 ==> OpenAt(t, chain[i]))
  }

  lemma WayIsClear(s: State, chain: seq<string>)
    requires Inv(s) && Loads(s.dirs, chain) && Clear(s, chain)
    ensures Way(Visible(s), chain)
  {
    forall i | 0 <= i < |chain| ensures WayAt(Visible(s), chain, i) {
      assert LoadedAt(s.dirs, chain, i) && ClearAt(s, chain, i);
      StepIsSeen(s, chain[i], i == |chain| - 1);
    }
  }

  lemma ShownFromParent(t: Tree, p: string)
    requires p != ROOT && HasEntry(Listed(t.children, Parent(p)), p)
    requires Parent(p) != ROOT ==> OpenAt(t, Parent(p)) && Shown(t, ROOT, Parent(p))
    ensures Shown(t, ROOT, p)
  {
    InsideByParent(p, p);
  }

  /** A way through the tree is shown to its end. */
  lemma {:induction false} WayIsShown(t: Tree, chain: seq<string>, n: nat)
    requires Steps(chain) && Way(t, chain) && n < |chain|
    ensures Shown(t, ROOT, chain[n])
  {
    assert StepAt(chain, n) && WayAt(t, chain, n);
    if n > 0 {
      assert WayAt(t, chain, n - 1);
      WayIsShown(t, chain, n - 1);
    }
    ShownFromParent(t, chain[n]);
  }

  /** The paths that have a row. */
  ghost function OnScreen(s: State): iset<string> {
    iset p | Shown(Visible(s), ROOT, p)
  }

  /** Where a chain leads. */
  function End(chain: seq<string>): string {
    if chain == [] then ROOT else chain[|chain| - 1]
  }

  /** A chain that is loaded, expanded up to its last step, and not hidden is shown to its end. */
  lemma ChainIsShown(s: State, chain: seq<string>)
    requires Inv(s) && Steps(chain) && Loads(s.dirs, chain) && Clear(s, chain) && chain != []
    ensures End(chain) in OnScreen(s)
  {
    WayIsClear(s, chain);
    WayIsShown(Visible(s), chain, |chain| - 1);
  }

  /** After `reveal`, the target has exactly one row, hidden or not, whenever every directory on
      the way has been listed and lists the next. */
  lemma {:induction false} RevealShowsTarget(s: State, dir: string)
    requires Inv(s) && Ancestry(dir) != [] && Loads(s.dirs, Ancestry(dir))
    ensures End(Ancestry(dir)) in OnScreen(Reveal(s, dir)) && !Reveal(s, dir).changedOnly
  {
    ChainSteps(Split(dir, '/'));
    RevealClears(s, dir);
    ChainIsShown(Reveal(s, dir), Ancestry(dir));
  }

  lemma RevealClears(s: State, dir: string)
    ensures Clear(Reveal(s, dir), Ancestry(dir))
  {
    var chain := Ancestry(dir);
    forall i | 0 <= i < |chain| ensures ClearAt(Reveal(s, dir), chain, i) {
      assert chain[i] in chain;
    }
  }

  lemma {:induction false} ChainSnoc(segments: seq<string>, s: string)
    ensures Chain(segments + [s]) ==
            var chain := Chain(segments);
            if s == "" then chain else if chain == [] then [s] else chain + [chain[|chain| - 1] + "/" + s]
  {
    assert (segments + [s])[..|segments|] == segments;
  }

  /** What `locate` expands covers every step above the file. */
  lemma StepsAbove(path: string)
    requires Ancestry(path) != []
    ensures var chain := Ancestry(path); forall i | 0 <= i < |chain| - 1 :: chain[i] in Ancestry(Parent(path))
  {
    var i := LastSlash(path);
    if i < 0 {
      SplitUnbroken(path, '/');
      ChainSnoc([], path);
      assert [] + [path] == [path];
    } else {
      AncestryBelow(path[..i], path[i + 1..]);
      assert path == path[..i] + ['/'] + path[i + 1..];
      assert Parent(path) == path[..i];
    }
  }

  lemma AncestryBelow(dir: string, name: string)
    requires '/' !in name
    ensures Ancestry(dir + ['/'] + name) ==
            var chain := Ancestry(dir);
            if name == "" then chain else if chain == [] then [name] else chain + [chain[|chain| - 1] + "/" + name]
  {
    SplitAround(dir, name, '/');
    SplitUnbroken(name, '/');
    ChainSnoc(Split(dir, '/'), name);
  }

  /** After `locate`, so has the file. */
  lemma LocateShowsTarget(s: State, path: string)
    requires Inv(s) && Ancestry(path) != [] && Loads(s.dirs, Ancestry(path))
    ensures End(Ancestry(path)) in OnScreen(Locate(s, path)) && !Locate(s, path).changedOnly
  {
    ChainSteps(Split(path, '/'));
    LocateClears(s, path);
    ChainIsShown(Locate(s, path), Ancestry(path));
  }

  lemma LocateClears(s: State, path: string)
    requires Ancestry(path) != []
    ensures Clear(Locate(s, path), Ancestry(path))
  {
    var chain := Ancestry(path);
    StepsAbove(path);
    forall i | 0 <= i < |chain| ensures ClearAt(Locate(s, path), chain, i) {
      assert chain[i] in chain;
    }
  }

  /** A path without empty segments is the end of its own chain. */
  lemma {:induction false} ChainEndsAtPath(segments: seq<string>)
    requires segments != [] && forall i | 0 <= i < |segments| :: segments[i] != ""
    ensures Chain(segments) != [] && End(Chain(segments)) == Join(segments, '/')
  {
    var front, s := segments[..|segments| - 1], segments[|segments| - 1];
    assert segments == front + [s];
    JoinSnoc(front, s, '/');
    if front != [] { ChainEndsAtPath(front); }
  }

  /** The promise in the user's terms: after any run of the tree, revealing a well-formed path
      whose way is loaded puts exactly one row of that path on screen. */
  lemma RevealedRowOnScreen(actions: seq<Action>, dir: string)
    requires Listings(actions) && (forall i | 0 <= i < |Split(dir, '/')| :: Split(dir, '/')[i] != "")
    requires Loads(Run(actions).dirs, Ancestry(dir))
    ensures var t := Visible(Reveal(Run(actions), dir)); Sound(t) && Lists(Walk(t, ROOT, 0), dir) && Distinct(Walk(t, ROOT, 0))
  {
    InvAlways(actions);
    InvKept(Run(actions), RevealDir(dir));
    ChainEndsAtPath(Split(dir, '/'));
    JoinSplit(dir, '/');
    RevealShowsTarget(Run(actions), dir);
    VisibleIsSound(Reveal(Run(actions), dir));
    RowsAreWhatIsShown(Visible(Reveal(Run(actions), dir)));
  }

  /** And so does locating it. */
  lemma LocatedRowOnScreen(actions: seq<Action>, path: string)
    requires Listings(actions) && (forall i | 0 <= i < |Split(path, '/')| :: Split(path, '/')[i] != "")
    requires Loads(Run(actions).dirs, Ancestry(path))
    ensures var t := Visible(Locate(Run(actions), path)); Sound(t) && Lists(Walk(t, ROOT, 0), path) && Distinct(Walk(t, ROOT, 0))
  {
    InvAlways(actions);
    InvKept(Run(actions), LocatePath(path));
    ChainEndsAtPath(Split(path, '/'));
    JoinSplit(path, '/');
    LocateShowsTarget(Run(actions), path);
    VisibleIsSound(Locate(Run(actions), path));
    RowsAreWhatIsShown(Visible(Locate(Run(actions), path)));
  }
}
