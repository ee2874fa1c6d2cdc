/** What the file tree holds after any run, told from the actions alone: each listing, each status,
    each expanded directory, the selection and the filters are what the last action to speak of them
    left, `frontend/src/lib/tree.ts`. */
module FileHistory {
  import opened Sequences
  import opened Strings
  import opened Paths
  import opened TreePaths
  import Outline
  import opened FileTree

  // ---------------------------------------------------------------- listings

  predicate Relists(a: Action, dir: string) {
    a.List? && a.dir == dir
  }

  /** The entries of a listing, in their order. */
  predicate ListedAs(children: seq<Outline.Entry>, listing: seq<Item>, dir: string) {
    && |children| == |listing|
    && forall i | 0 <= i < |listing| ::
         && children[i].name == listing[i].name && children[i].isDir == listing[i].isDir
         && children[i].path == if dir == "" then listing[i].name else dir + "/" + listing[i].name
  }

  /** A directory's children are the entries it was last listed with: a reload and a failure keep them. */
  lemma {:induction false} ChildrenAreTheLastListing(actions: seq<Action>, k: nat, dir: string)
    requires k < |actions| && Relists(actions[k], dir) && forall j | k < j < |actions| :: !Relists(actions[j], dir)
    ensures ListedAs(Children(Run(actions).dirs, dir), actions[k].listing, dir)
  {
    var front := actions[..|actions| - 1];
    if k < |front| {
      ChildrenAreTheLastListing(front, k, dir);
      KeepsListed(Run(front), actions[|front|], dir, actions[k].listing);
    } else {
      RelistSets(Run(front), actions[k]);
    }
    RunSnoc(actions);
  }

  lemma {:induction false} NothingUnlisted(actions: seq<Action>, dir: string)
    requires forall j | 0 <= j < |actions| :: !Relists(actions[j], dir)
    ensures Children(Run(actions).dirs, dir) == []
  {
    if actions != [] {
      var front := actions[..|actions| - 1];
      RunSnoc(actions);
      NothingUnlisted(front, dir);
      KeepsChildren(Run(front), actions[|front|], dir);
    }
  }

  lemma RunSnoc(actions: seq<Action>)
    requires actions != []
    ensures Run(actions) == Next(Run(actions[..|actions| - 1]), actions[|actions| - 1])
  {
  }

  lemma KeepsListed(s: State, a: Action, dir: string, listing: seq<Item>)
    requires !Relists(a, dir) && ListedAs(Children(s.dirs, dir), listing, dir)
    ensures ListedAs(Children(Next(s, a).dirs, dir), listing, dir)
  {
    KeepsChildren(s, a, dir);
  }

  lemma RelistSets(s: State, a: Action)
    requires a.List?
    ensures ListedAs(Children(Next(s, a).dirs, a.dir), a.listing, a.dir)
  {
  }

  lemma KeepsChildren(s: State, a: Action, dir: string)
    requires !Relists(a, dir)
    ensures Children(Next(s, a).dirs, dir) == Children(s.dirs, dir)
  {
  }

  /** The action says how the directory's listing stands. */
  predicate Fetches(a: Action, dir: string) {
    (a.Load? || a.List? || a.Fail?) && a.dir == dir
  }

  function Says(a: Action): DirStatus
    requires a.Load? || a.List? || a.Fail?
  {
    match a
    case Load(_) => Loading
    case List(_, _) => Loaded
    case Fail(_, message) => Failed(message)
  }

  /** A directory's status is what its last fetch came to. */
  lemma {:induction false} StatusIsTheLastFetch(actions: seq<Action>, k: nat, dir: string)
    requires k < |actions| && Fetches(actions[k], dir) && forall j | k < j < |actions| :: !Fetches(actions[j], dir)
    ensures dir in Run(actions).dirs && Run(actions).dirs[dir].status == Says(actions[k])
  {
    var front := actions[..|actions| - 1];
    RunSnoc(actions);
    FetchSets(Run(front), actions[|front|], dir);
    if k < |front| { StatusIsTheLastFetch(front, k, dir); }
  }

  /** One that was never fetched has none. */
  lemma {:induction false} NeverFetchedIsUnknown(actions: seq<Action>, dir: string)
    requires forall j | 0 <= j < |actions| :: !Fetches(actions[j], dir)
    ensures dir !in Run(actions).dirs
  {
    if actions != [] {
      var front := actions[..|actions| - 1];
      RunSnoc(actions);
      FetchSets(Run(front), actions[|front|], dir);
      NeverFetchedIsUnknown(front, dir);
    }
  }

  lemma FetchSets(s: State, a: Action, dir: string)
    ensures Fetches(a, dir) ==> dir in Next(s, a).dirs && Next(s, a).dirs[dir].status == Says(a)
    ensures !Fetches(a, dir) ==>
              (dir in Next(s, a).dirs <==> dir in s.dirs) && (dir in s.dirs ==> Next(s, a).dirs[dir] == s.dirs[dir])
  {
  }

  // ---------------------------------------------------------------- what is expanded

  /** A path without an empty segment. */
  predicate Plain(path: string) {
    forall i | 0 <= i < |Split(path, '/')| :: Split(path, '/')[i] != ""
  }

  /** The chain of a path is the path and every directory it lies in. */
  lemma AncestryIsAbove(path: string, dir: string)
    requires Plain(path)
    ensures dir in Ancestry(path) <==> dir != ROOT && Covers(dir, path)
  {
    ChainIsAbove(Split(path, '/'), dir);
    JoinSplit(path, '/');
  }

  lemma {:induction false} ChainIsAbove(segments: seq<string>, dir: string)
    requires segments != [] && forall i | 0 <= i < |segments| :: segments[i] != "" && '/' !in segments[i]
    ensures dir in Chain(segments) <==> dir != ROOT && Covers(dir, Join(segments, '/'))
  {
    var front, s := segments[..|segments| - 1], segments[|segments| - 1];
    assert segments == front + [s];
    ChainSnoc(front, s);
    JoinSnoc(front, s, '/');
    if front == [] {
      JoinedPath(ROOT, s);
      InsideByParent(s, dir);
      assert front + [s] == [s];
    } else {
      ChainIsAbove(front, dir);
      ChainEndsAtPath(front);
      JoinIsNamed(front);
      OneMoreStep(Join(front, '/'), s, dir);
    }
  }

  lemma OneMoreStep(above: string, s: string, dir: string)
    requires above != ROOT && s != "" && '/' !in s
    ensures above + ['/'] + s == above + "/" + s
    ensures Covers(dir, above + "/" + s) <==> dir == above + "/" + s || Covers(dir, above)
  {
    JoinedPath(above, s);
    InsideByParent(above + "/" + s, dir);
  }

  lemma JoinIsNamed(segments: seq<string>)
    requires segments != [] && forall i | 0 <= i < |segments| :: segments[i] != "" && '/' !in segments[i]
    ensures Join(segments, '/') != ROOT
  {
    var front, s := segments[..|segments| - 1], segments[|segments| - 1];
    assert segments == front + [s];
    JoinSnoc(front, s, '/');
  }

  /** The action unfolds the directory: it asks for it, for what is inside it, or restores it. */
  predicate Unfolds(a: Action, dir: string) {
    match a
    case ExpandDir(d) => d == dir
    case RevealDir(d) => dir in Ancestry(d)
    case LocatePath(p) => dir in Ancestry(Parent(p))
    case Restore(saved, _, _, _) => dir == ROOT || dir in saved
    case _ => false
  }

  predicate Folds(a: Action, dir: string) {
    || (a.CollapseDir? && a.dir == dir)
    || (a.Restore? && dir != ROOT && dir !in a.saved)
  }

  /** A directory is expanded exactly when it was unfolded, or is the root, and not folded since. */
  lemma {:induction false} ExpandedByTheLastWord(actions: seq<Action>, dir: string)
    ensures dir in Run(actions).expanded <==> UnfoldedIn(actions, dir)
  {
    if actions != [] {
      var front, n := actions[..|actions| - 1], |actions| - 1;
      ExpandedByTheLastWord(front, dir);
      FoldSteps(Run(front), actions[n], dir);
      UnfoldedSteps(front, actions[n], dir);
      assert actions == front + [actions[n]];
    }
  }

  ghost predicate UnfoldedIn(actions: seq<Action>, dir: string) {
    || (dir == ROOT && forall j | 0 <= j < |actions| :: !Folds(actions[j], dir))
    || (exists k :: UnfoldedSince(actions, k, dir))
  }

  predicate UnfoldedSince(actions: seq<Action>, k: nat, dir: string) {
    k < |actions| && Unfolds(actions[k], dir) && forall j | k < j < |actions| :: !Folds(actions[j], dir)
  }

  lemma FoldSteps(s: State, a: Action, dir: string)
    ensures dir in Next(s, a).expanded <==> Unfolds(a, dir) || (dir in s.expanded && !Folds(a, dir))
  {
  }

  lemma UnfoldedSteps(front: seq<Action>, a: Action, dir: string)
    ensures UnfoldedIn(front + [a], dir) <==> Unfolds(a, dir) || (UnfoldedIn(front, dir) && !Folds(a, dir))
  {
    var actions, n := front + [a], |front|;
    if Unfolds(a, dir) {
      assert UnfoldedSince(actions, n, dir);
    } else if UnfoldedIn(front, dir) && !Folds(a, dir) {
      if k :| UnfoldedSince(front, k, dir) { assert UnfoldedSince(actions, k, dir); }
    }
    if UnfoldedIn(actions, dir) && !Unfolds(a, dir) {
      assert actions[n] == a;
      assert forall j | 0 <= j < n :: actions[j] == front[j];
      if k :| UnfoldedSince(actions, k, dir) { assert UnfoldedSince(front, k, dir); }
    }
  }

  // ---------------------------------------------------------------- selection and filters

  /** The action moves the selection. */
  predicate Chooses(a: Action) {
    a.Select? || a.RevealDir? || a.LocatePath? || a.Restore?
  }

  function Choice(a: Action): Option<string>
    requires Chooses(a)
  {
    match a
    case RevealDir(dir) => Some(dir)
    case LocatePath(path) => Some(path)
    case Select(chosen) => chosen
    case Restore(_, chosen, _, _) => chosen
  }

  /** What is selected is what was last chosen, and nothing before. */
  lemma {:induction false} SelectedIsTheLastChoice(actions: seq<Action>, k: nat)
    requires k < |actions| && Chooses(actions[k]) && forall j | k < j < |actions| :: !Chooses(actions[j])
    ensures Run(actions).selected == Choice(actions[k])
  {
    var front := actions[..|actions| - 1];
    RunSnoc(actions);
    ChoiceSteps(Run(front), actions[|front|]);
    if k < |front| { SelectedIsTheLastChoice(front, k); }
  }

  lemma {:induction false} NothingChosenYet(actions: seq<Action>)
    requires forall j | 0 <= j < |actions| :: !Chooses(actions[j])
    ensures Run(actions).selected == None
  {
    if actions != [] {
      var front := actions[..|actions| - 1];
      RunSnoc(actions);
      ChoiceSteps(Run(front), actions[|front|]);
      NothingChosenYet(front);
    }
  }

  lemma ChoiceSteps(s: State, a: Action)
    ensures Next(s, a).selected == if Chooses(a) then Choice(a) else s.selected
  {
  }

  function HiddenToggles(actions: seq<Action>): nat {
    if actions == [] then 0 else
    HiddenToggles(actions[..|actions| - 1]) + if actions[|actions| - 1].ToggleHidden? then 1 else 0
  }

  function ChangedToggles(actions: seq<Action>): nat {
    if actions == [] then 0 else
    ChangedToggles(actions[..|actions| - 1]) + if actions[|actions| - 1].ToggleChangedOnly? then 1 else 0
  }

  function Located(actions: seq<Action>): nat {
    if actions == [] then 0 else
    Located(actions[..|actions| - 1]) + if actions[|actions| - 1].LocatePath? then 1 else 0
  }

  /** Each `locate` asks for one more scroll, and nothing else does. */
  lemma {:induction false} LocatesAreCounted(actions: seq<Action>)
    ensures Run(actions).locateRequest == Located(actions)
  {
    if actions != [] {
      LocatesAreCounted(actions[..|actions| - 1]);
      RunSnoc(actions);
    }
  }

  predicate Sweeps(a: Action) {
    a.RevealDir? || a.LocatePath? || a.Restore?
  }

  /** Behind the last reveal, locate or restore only the toggles move the filters, each its own. */
  lemma {:induction false} HiddenFollowsToggles(actions: seq<Action>, rest: seq<Action>)
    requires forall i | 0 <= i < |rest| :: !Sweeps(rest[i])
    ensures Run(actions + rest).showHidden == (Run(actions).showHidden != Odd(HiddenToggles(rest)))
  {
    if rest == [] {
      assert actions + rest == actions;
    } else {
      var front, a := rest[..|rest| - 1], rest[|rest| - 1];
      HiddenFollowsToggles(actions, front);
      ToggleSteps(Run(actions + front), a);
      RunOnward(actions, rest);
    }
  }

  lemma {:induction false} ChangedFollowsToggles(actions: seq<Action>, rest: seq<Action>)
    requires forall i | 0 <= i < |rest| :: !Sweeps(rest[i])
    ensures Run(actions + rest).changedOnly == (Run(actions).changedOnly != Odd(ChangedToggles(rest)))
  {
    if rest == [] {
      assert actions + rest == actions;
    } else {
      var front, a := rest[..|rest| - 1], rest[|rest| - 1];
      ChangedFollowsToggles(actions, front);
      ToggleSteps(Run(actions + front), a);
      RunOnward(actions, rest);
    }
  }

  predicate Odd(n: nat) {
    n % 2 == 1
  }

  lemma RunOnward(actions: seq<Action>, rest: seq<Action>)
    requires rest != []
    ensures Run(actions + rest) == Next(Run(actions + rest[..|rest| - 1]), rest[|rest| - 1])
  {
    assert (actions + rest)[..|actions + rest| - 1] == actions + rest[..|rest| - 1];
  }

  lemma ToggleSteps(s: State, a: Action)
    requires !Sweeps(a)
    ensures Next(s, a).showHidden == (s.showHidden != a.ToggleHidden?)
    ensures Next(s, a).changedOnly == (s.changedOnly != a.ToggleChangedOnly?)
  {
  }

  /** A restore sets both filters, and a reveal or a locate clears the one and opens the other when
      something on the way is hidden: never closes it. */
  lemma SweepSetsFilters(s: State, a: Action)
    requires Sweeps(a)
    ensures var next := Next(s, a);
            match a
            case Restore(_, _, showHidden, changedOnly) => next.showHidden == showHidden && next.changedOnly == changedOnly
            case RevealDir(dir) => !next.changedOnly && (next.showHidden <==> s.showHidden || HiddenOn(dir))
            case LocatePath(path) => !next.changedOnly && (next.showHidden <==> s.showHidden || HiddenOn(path) || HiddenOn(Parent(path)))
            case _ => true
  {
    forall p ensures HiddenOn(p) <==> AnyHidden(Ancestry(p)) {
      if q :| q in Ancestry(p) && IsHidden(Base(q)) { assert HiddenStep(p, q); }
      if q :| HiddenStep(p, q) { assert q in Ancestry(p) && IsHidden(Base(q)); }
    }
  }

  predicate HiddenStep(path: string, step: string) {
    step in Ancestry(path) && Base(step) != "" && Base(step)[0] == '.'
  }

  /** A step on the way is a dotfile. */
  ghost predicate HiddenOn(path: string) {
    exists step :: HiddenStep(path, step)
  }
}
