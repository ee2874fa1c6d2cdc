/** What a user of folder bindings can rely on (`internal/project/binding.go`): an override acts
    at and under its folder only, taking it away undoes it, and protection cannot be argued away. */
module BindingLaws {
  import opened Sequences
  import opened Strings
  import opened Paths
  import opened Binding
  import opened ScopeRegistry

  // ---------------------------------------------------------------- validation settles

  lemma Unrooted(w: string)
    ensures w != "" && w[0] == '/' ==> HasPrefix(w, "/")
  {
    if w != "" && w[0] == '/' { assert w[..1] == "/"; }
  }

  /** A place below the root is still one when it is read back. */
  lemma StaysPlaced(path: string)
    requires !Refused(path) && Bare(CleanScope(path))
    ensures !Refused(CleanScope(path)) && CleanScope(CleanScope(path)) == CleanScope(path)
  {
    var c := CleanScope(path);
    CleanScopeIsKept(path);
    CleanFixed(c);
    CleanScopeIsKept(c);
    JoinShape(Kept(path));
    Unrooted(Written(path));
    EscapesWhenDotDotFirst(path);
    EscapesWhenDotDotFirst(c);
  }

  lemma NormalSettles(s: Scope)
    ensures Normal(Normal(s)) == Normal(s) <==> Bare(CleanScope(s.path))
  {
    CleanScopeSettles(s.path);
    TrimmedLessUnlessBare(s.context);
    TrimmedLessUnlessBare(Trim(s.context));
    TrimmedLessUnlessBare(s.namespace);
    TrimmedLessUnlessBare(Trim(s.namespace));
  }

  /** Such a space: an override written `./ a` is stored under ` a` and read back as `a`. */
  lemma {:induction false} EdgeSpaceMovesTheOverride()
    ensures CleanScope("./ a") == " a" && CleanScope(" a") == "a"
  {
    DotIsDropped();
    SpaceIsTrimmed();
  }

  lemma DotVanishes(name: string)
    requires '/' !in name && name != "" && name != "." && name != ".."
    ensures Reduce(false, Split("." + "/" + name, '/')) == [name]
  {
    SplitAround(".", name, '/');
    SplitUnbroken(".", '/');
    SplitUnbroken(name, '/');
    DotReduces(["."], name);
  }

  lemma DotReduces(dots: seq<string>, name: string)
    requires |dots| == 1 && dots[0] == "." && name != "" && name != "." && name != ".."
    ensures Reduce(false, dots + [name]) == [name]
  {
    assert (dots + [name])[..1] == dots;
    assert Reduce(false, dots[..0]) == [];
  }

  lemma DotIsDropped()
    ensures CleanScope("./ a") == " a"
  {
    var p := "./ a";
    SlashedFixed(p);
    TrimmedLessUnlessBare(p);
    assert "." + "/" + " a" == p;
    DotVanishes(" a");
    assert Kept(p) == [" a"];
    CleanScopeIsKept(p);
  }

  lemma SpaceIsTrimmed()
    ensures CleanScope(" a") == "a"
  {
    SlashedFixed(" a");
    assert " a"[1..] == "a";
    assert TrimLeft("a") == "a";
    assert Written(" a") == "a";
    SplitUnbroken("a", '/');
    CleanFixed("a");
  }

  predicate AllBare(scopes: seq<Scope>) {
    scopes != [] ==> AllBare(scopes[..|scopes| - 1]) && Bare(CleanScope(scopes[|scopes| - 1].path))
  }

  lemma {:induction false} BareAt(scopes: seq<Scope>, i: nat)
    requires AllBare(scopes) && i < |scopes|
    ensures Bare(CleanScope(scopes[i].path))
  {
    if i < |scopes| - 1 { BareAt(scopes[..|scopes| - 1], i); }
  }

  lemma SettledIsAcceptableAndNormal(scopes: seq<Scope>)
    ensures Settled(scopes) <==> Acceptable(scopes) && AllNormal(scopes)
  {
    NormalizedFixed(scopes);
  }

  lemma {:induction false} NormalizedNormal(scopes: seq<Scope>)
    ensures AllNormal(Normalized(scopes)) <==> AllBare(scopes)
  {
    if scopes != [] {
      var front, last := scopes[..|scopes| - 1], scopes[|scopes| - 1];
      NormalizedNormal(front);
      NormalSettles(last);
      assert Normalized(scopes)[..|front|] == Normalized(front);
    }
  }

  /** A validated list reads back as it was written exactly when no path it holds begins or
      ends with a space. */
  lemma {:induction false} ValidationSettles(scopes: seq<Scope>)
    requires Acceptable(scopes)
    ensures Settled(Normalized(scopes)) <==> AllBare(scopes)
  {
    NormalizedNormal(scopes);
    SettledIsAcceptableAndNormal(Normalized(scopes));
    if AllBare(scopes) {
      forall i | 0 <= i < |scopes|
        ensures !Refused(Normalized(scopes)[i].path)
        ensures CleanScope(Normalized(scopes)[i].path) == CleanScope(scopes[i].path)
      {
        NormalizedAt(scopes, i);
        BareAt(scopes, i);
        StaysPlaced(scopes[i].path);
      }
    }
  }

  // ---------------------------------------------------------------- what a scope can reach

  lemma {:induction false} NobodyAt(scopes: seq<Scope>, path: string, f: Field)
    requires forall s | s in scopes :: CleanScope(s.path) != path
    ensures At(scopes, path, f) == None
  {
    if scopes != [] {
      assert scopes == scopes[..|scopes| - 1] + [scopes[|scopes| - 1]];
      NobodyAt(scopes[..|scopes| - 1], path, f);
    }
  }

  /** Lists that agree at every ancestor of a path answer it alike. */
  lemma AncestorsDecide(a: seq<Scope>, b: seq<Scope>, rel: string, f: Field)
    requires forall path | Covers(path, CleanScope(rel)) :: At(a, path, f) == At(b, path, f)
    ensures Deepest(a, Segments(CleanScope(rel)), f) == Deepest(b, Segments(CleanScope(rel)), f)
  {
    var target := CleanScope(rel);
    CleanScopeIsKept(rel);
    forall n: nat | n <= |Segments(target)|
      ensures At(a, Join(Segments(target)[..n], '/'), f) == At(b, Join(Segments(target)[..n], '/'), f)
    {
      JoinedPrefixCovers(Segments(target)[..n], target);
    }
    DeepestAgrees(a, b, Segments(target), f);
  }

  /** The path leaves the repository. */
  predicate Climbs(path: string) {
    Kept(path) != [] && Kept(path)[0] == ".."
  }

  lemma EscapingIsRefused(path: string)
    requires Climbs(path)
    ensures Refused(path)
  {
    if Written(path)[0] != '/' { EscapesWhenDotDotFirst(path); }
  }

  /** What is answered where no scope has a say. */
  function Defaults(k: Kube): Answer {
    Answer(k.context, k.namespace, k.protected, ROOT)
  }

  /** Of the scopes that cover a path, none is below the root. */
  predicate OnlyTheRoot(scopes: seq<Scope>, target: string) {
    forall s | s in scopes && Covers(CleanScope(s.path), target) :: CleanScope(s.path) == ROOT
  }

  /** Overrides written for the root itself, if there are any, come to what the project says anyway. */
  predicate RootAddsNothing(k: Kube) {
    var context, namespace := At(k.scopes, ROOT, TheContext), At(k.scopes, ROOT, TheNamespace);
    && (context.Some? ==> context.value.context == k.context)
    && (namespace.Some? ==> namespace.value.namespace == k.namespace)
    && (k.protected || forall s | s in k.scopes && CleanScope(s.path) == ROOT :: !s.protected)
  }

  lemma {:induction false} AtIsThere(scopes: seq<Scope>, path: string, f: Field)
    requires At(scopes, path, f).Some?
    ensures At(scopes, path, f).value in scopes && CleanScope(At(scopes, path, f).value.path) == path
  {
    var front, last := scopes[..|scopes| - 1], scopes[|scopes| - 1];
    assert scopes == front + [last];
    if !(CleanScope(last.path) == path && Sets(last, f)) { AtIsThere(front, path, f); }
  }

  lemma {:induction false} EveryScopeRules(scopes: seq<Scope>, s: Scope)
    requires s in scopes
    ensures At(scopes, CleanScope(s.path), TheRule).Some?
  {
    var front, last := scopes[..|scopes| - 1], scopes[|scopes| - 1];
    assert scopes == front + [last];
    if s != last { EveryScopeRules(front, s); }
  }

  /** Where no scope lies below the root, the root's own decide. */
  lemma {:induction false} RootDecides(scopes: seq<Scope>, segments: seq<string>, f: Field)
    requires forall n | 0 < n <= |segments| :: At(scopes, Join(segments[..n], '/'), f).None?
    ensures Deepest(scopes, segments, f) == At(scopes, ROOT, f)
  {
    if segments != [] {
      var front := segments[..|segments| - 1];
      assert segments[..|segments|] == segments;
      forall n | 0 < n <= |front| ensures At(scopes, Join(front[..n], '/'), f).None? { assert front[..n] == segments[..n]; }
      RootDecides(scopes, front, f);
    }
  }

  /** Where one does, a rule below the root is named. */
  lemma {:induction false} RuleBelowRoot(scopes: seq<Scope>, segments: seq<string>, n: nat)
    requires Reduced(segments) && 0 < n <= |segments| && At(scopes, Join(segments[..n], '/'), TheRule).Some?
    ensures var rule := Deepest(scopes, segments, TheRule); rule.Some? && CleanScope(rule.value.path) != ROOT
  {
    var here := At(scopes, Join(segments, '/'), TheRule);
    if here.Some? {
      JoinShape(segments);
      AtIsThere(scopes, Join(segments, '/'), TheRule);
    } else {
      var front := segments[..|segments| - 1];
      assert segments[..|segments|] == segments;
      assert front[..n] == segments[..n];
      RuleBelowRoot(scopes, front, n);
    }
  }

  lemma DecidedAtRoot(k: Kube, rel: string, f: Field)
    requires OnlyTheRoot(k.scopes, CleanScope(rel))
    ensures Deepest(k.scopes, Segments(CleanScope(rel)), f) == At(k.scopes, ROOT, f)
  {
    var segments := Segments(CleanScope(rel));
    CleanScopeIsKept(rel);
    forall n | 0 < n <= |segments| ensures At(k.scopes, Join(segments[..n], '/'), f).None? {
      JoinedPrefixCovers(segments[..n], CleanScope(rel));
      JoinShape(segments[..n]);
      NobodyAt(k.scopes, Join(segments[..n], '/'), f);
    }
    RootDecides(k.scopes, segments, f);
  }

  lemma CoveredNamesARule(k: Kube, rel: string, s: Scope)
    requires s in k.scopes && Covers(CleanScope(s.path), CleanScope(rel)) && CleanScope(s.path) != ROOT
    ensures Resolved(k, rel).scope != ROOT
  {
    var path, segments := CleanScope(s.path), Segments(CleanScope(rel));
    CleanScopeIsKept(rel);
    CoversIsSegmentPrefix(path, CleanScope(rel));
    EveryScopeRules(k.scopes, s);
    JoinSplit(path, '/');
    assert segments[..|Segments(path)|] == Segments(path);
    RuleBelowRoot(k.scopes, segments, |Segments(path)|);
  }

  /** Any path at all, under any list at all, gets the project's defaults exactly when no scope below
      the root covers it and those written for the root itself add nothing. */
  lemma DefaultsExactly(k: Kube, rel: string)
    ensures Resolved(k, rel) == Defaults(k) <==> OnlyTheRoot(k.scopes, CleanScope(rel)) && RootAddsNothing(k)
  {
    var target := CleanScope(rel);
    if OnlyTheRoot(k.scopes, target) {
      DecidedAtRoot(k, rel, TheContext);
      DecidedAtRoot(k, rel, TheNamespace);
      DecidedAtRoot(k, rel, TheRule);
      if At(k.scopes, ROOT, TheRule).Some? { AtIsThere(k.scopes, ROOT, TheRule); }
    } else {
      var s :| s in k.scopes && Covers(CleanScope(s.path), target) && CleanScope(s.path) != ROOT;
      CoveredNamesARule(k, rel, s);
    }
  }

  /** A path that climbs out of the repository gets the project's defaults, exactly unless the list
      holds a scope that climbs out too and is a beginning of it, or one for the root that says
      something else: a file edited by hand can hold both. */
  lemma OutsideGetsDefaults(k: Kube, rel: string)
    requires Climbs(rel)
    ensures Resolved(k, rel) == Defaults(k) <==>
            (forall s | s in k.scopes && Climbs(s.path) :: !(Kept(s.path) <= Kept(rel))) && RootAddsNothing(k)
  {
    DefaultsExactly(k, rel);
    CleanScopeIsKept(rel);
    forall s | s in k.scopes
      ensures Covers(CleanScope(s.path), CleanScope(rel)) && CleanScope(s.path) != ROOT <==>
              Climbs(s.path) && Kept(s.path) <= Kept(rel)
    {
      CoversIsSegmentPrefix(CleanScope(s.path), CleanScope(rel));
      CleanScopeIsKept(s.path);
      JoinShape(Kept(s.path));
    }
  }

  lemma ParentClimbs()
    ensures Kept("..") == [".."]
  {
    SlashedFixed("..");
    TrimmedLessUnlessBare("..");
    SplitUnbroken("..", '/');
    UpReduces([".."]);
  }

  lemma UpReduces(segments: seq<string>)
    requires |segments| == 1 && segments[0] == ".."
    ensures Reduce(false, segments) == [".."]
  {
    assert Reduce(false, segments[..0]) == [];
  }

  /** Such a list: one scope, for the directory above the repository. */
  lemma ScopeAboveDecides(k: Kube, s: Scope)
    requires k.scopes == [s] && s.path == ".."
    ensures Resolved(k, "..") != Defaults(k)
  {
    ParentClimbs();
    OutsideGetsDefaults(k, "..");
    assert s in k.scopes;
  }

  lemma AcceptedIsInside(path: string)
    requires !Refused(path)
    ensures !Climbs(path) && CleanScope(path) != ROOT
  {
    if Climbs(path) { EscapingIsRefused(path); }
  }

  /** Under a list that was validated, it always does: such scopes are refused. */
  lemma ValidatedOutsideGetsDefaults(k: Kube, rel: string)
    requires Acceptable(k.scopes) && Climbs(rel)
    ensures Resolved(k, rel) == Defaults(k)
  {
    OutsideGetsDefaults(k, rel);
    forall s | s in k.scopes ensures !Climbs(s.path) && CleanScope(s.path) != ROOT {
      var i :| 0 <= i < |k.scopes| && k.scopes[i] == s;
      AcceptedIsInside(s.path);
    }
    NobodyAt(k.scopes, ROOT, TheContext);
    NobodyAt(k.scopes, ROOT, TheNamespace);
  }

  // ---------------------------------------------------------------- one folder's override

  lemma BoundAt(k: Kube, s: Scope, path: string, f: Field)
    requires Settled(k.scopes) && Bound(k, s).Some?
    requires path != CleanScope(s.path) && path != CleanScope(CleanScope(s.path))
    ensures At(Bound(k, s).value.scopes, path, f) == At(k.scopes, path, f)
  {
    BoundIs(k, s);
    AtWithout(k.scopes, CleanScope(s.path), path, f);
    AtSnoc(Without(k.scopes, CleanScope(s.path)), Normal(s), path, f);
  }

  lemma BoundGuards(k: Kube, s: Scope, target: string)
    requires Settled(k.scopes) && Bound(k, s).Some?
    requires !Covers(CleanScope(s.path), target) && !Covers(CleanScope(CleanScope(s.path)), target)
    ensures Guarded(Bound(k, s).value.scopes, target) <==> Guarded(k.scopes, target)
  {
    BoundIs(k, s);
    WithoutShape(k.scopes, CleanScope(s.path));
  }

  /** Binding a folder changes the answer nowhere but at and under it, and at and under the path
      its stored form reads back as, which is the same folder unless a space at an end is lost. */
  lemma {:induction false} BindReachesOnlyBelow(k: Kube, s: Scope, rel: string)
    requires Settled(k.scopes) && Bound(k, s).Some?
    requires !Covers(CleanScope(s.path), CleanScope(rel)) && !Covers(CleanScope(CleanScope(s.path)), CleanScope(rel))
    ensures Resolved(Bound(k, s).value, rel) == Resolved(k, rel)
  {
    BoundIs(k, s);
    var after := Bound(k, s).value;
    forall f ensures Deepest(after.scopes, Segments(CleanScope(rel)), f) == Deepest(k.scopes, Segments(CleanScope(rel)), f) {
      forall path | Covers(path, CleanScope(rel)) ensures At(after.scopes, path, f) == At(k.scopes, path, f) {
        BoundAt(k, s, path, f);
      }
      AncestorsDecide(after.scopes, k.scopes, rel, f);
    }
    BoundGuards(k, s, CleanScope(rel));
  }

  /** At the folder itself the override decides what it sets and is the rule that is named. */
  lemma {:induction false} BindTakesEffect(k: Kube, s: Scope)
    requires Settled(k.scopes) && Bound(k, s).Some? && !OverridesNothing(s) && Bare(CleanScope(s.path))
    ensures var r := Resolved(Bound(k, s).value, s.path);
            && r.scope == CleanScope(s.path)
            && (Trim(s.context) != "" ==> r.context == Trim(s.context))
            && (Trim(s.namespace) != "" ==> r.namespace == Trim(s.namespace))
            && (s.protected ==> r.protected)
  {
    BoundIs(k, s);
    CleanScopeSettles(s.path);
    CleanScopeIsKept(s.path);
    JoinSplit(CleanScope(s.path), '/');
    var others := Without(k.scopes, CleanScope(s.path));
    AtSnoc(others, Normal(s), CleanScope(s.path), TheContext);
    AtSnoc(others, Normal(s), CleanScope(s.path), TheNamespace);
    AtSnoc(others, Normal(s), CleanScope(s.path), TheRule);
    assert Normal(s) in others + [Normal(s)];
  }

  lemma WithoutTwice(scopes: seq<Scope>, s: Scope, folder: string)
    ensures Without(Without(scopes, folder) + [s], folder) ==
            if CleanScope(s.path) != folder then Without(scopes, folder) + [s] else Without(scopes, folder)
  {
    var others := Without(scopes, folder);
    WithoutShape(scopes, folder);
    WithoutShape(others, folder);
    assert (others + [s])[..|others|] == others;
  }

  /** Taking an override away leaves what taking it away before would have left, exactly when
      the folder's path keeps no space at an end. */
  lemma {:induction false} UnbindForgetsBind(k: Kube, s: Scope)
    requires Settled(k.scopes) && Bound(k, s).Some? && !OverridesNothing(s)
    ensures Unbound(Bound(k, s).value, s.path) == Unbound(k, s.path) <==> Bare(CleanScope(s.path))
  {
    var folder := CleanScope(s.path);
    BoundIs(k, s);
    CleanScopeSettles(s.path);
    WithoutTwice(k.scopes, Normal(s), folder);
    WithoutAcceptable(k.scopes, folder);
    OneMoreDiffers(k, Without(k.scopes, folder), Normal(s));
  }

  /** A list with one more override on it is not stored as the list without it. */
  lemma OneMoreDiffers(k: Kube, others: seq<Scope>, s: Scope)
    requires Acceptable(others)
    ensures Rewritten(k, others) != Rewritten(k.(scopes := others + [s]), others + [s])
    ensures Rewritten(k, others) == Rewritten(k.(scopes := others + [s]), others)
  {
    assert |Normalized(others)| == |others|;
  }

  lemma {:induction false} WithoutAcceptable(scopes: seq<Scope>, folder: string)
    requires Acceptable(scopes)
    ensures Acceptable(Without(scopes, folder))
  {
    if scopes != [] {
      var front, last := scopes[..|scopes| - 1], scopes[|scopes| - 1];
      AcceptableSplit(scopes);
      WithoutAcceptable(front, folder);
      WithoutPlaces(front, folder);
      if CleanScope(last.path) != folder { AcceptableSnoc(Without(front, folder), last); }
    }
  }

  lemma {:induction false} WithoutPlaces(scopes: seq<Scope>, folder: string)
    ensures Places(Without(scopes, folder)) <= Places(scopes)
  {
    if scopes != [] {
      var front, last := scopes[..|scopes| - 1], scopes[|scopes| - 1];
      WithoutPlaces(front, folder);
      assert (Without(front, folder) + [last])[..|Without(front, folder)|] == Without(front, folder);
    }
  }

  /** So binding a folder that had no override, and unbinding it, restores the whole project. */
  lemma {:induction false} UnbindUndoesBind(k: Kube, s: Scope)
    requires Settled(k.scopes) && Bound(k, s).Some? && !OverridesNothing(s) && Bare(CleanScope(s.path))
    requires forall x | x in k.scopes :: CleanScope(x.path) != CleanScope(s.path)
    ensures Unbound(Bound(k, s).value, s.path) == Some(k)
  {
    UnbindForgetsBind(k, s);
    WithoutShape(k.scopes, CleanScope(s.path));
  }

  /** The stored list keeps its paths distinct, and reads back as written, exactly when the new
      path keeps no space at an end. */
  lemma BindStaysSettled(k: Kube, s: Scope)
    requires Settled(k.scopes) && Bound(k, s).Some?
    ensures Settled(Bound(k, s).value.scopes) <==> OverridesNothing(s) || Bare(CleanScope(s.path))
  {
    var others := Without(k.scopes, CleanScope(s.path));
    BoundIs(k, s);
    RestSettles(k.scopes, CleanScope(s.path));
    if !OverridesNothing(s) { AddedSettles(others, s); }
  }

  lemma RestSettles(scopes: seq<Scope>, folder: string)
    requires Settled(scopes)
    ensures Settled(Without(scopes, folder))
  {
    SettledIsAcceptableAndNormal(scopes);
    WithoutAcceptable(scopes, folder);
    WithoutNormal(scopes, folder);
    SettledIsAcceptableAndNormal(Without(scopes, folder));
  }

  lemma AddedSettles(others: seq<Scope>, s: Scope)
    requires Settled(others) && Acceptable(others + [s])
    ensures Settled(others + [Normal(s)]) <==> Bare(CleanScope(s.path))
  {
    var all := others + [Normal(s)];
    SettledIsAcceptableAndNormal(others);
    SettledIsAcceptableAndNormal(all);
    NormalSettles(s);
    assert all[..|others|] == others;
    if Bare(CleanScope(s.path)) {
      AcceptableSnoc(others, s);
      StaysPlaced(s.path);
      AcceptableSnoc(others, Normal(s));
    }
  }

  // ---------------------------------------------------------------- protection

  /** Under a protected path everything is protected. */
  lemma ProtectionFlowsDown(k: Kube, above: string, below: string)
    requires Resolved(k, above).protected && Covers(CleanScope(above), CleanScope(below))
    ensures Resolved(k, below).protected
  {
    if !k.protected {
      var s :| s in k.scopes && s.protected && Covers(CleanScope(s.path), CleanScope(above));
      CoversChains(CleanScope(s.path), CleanScope(above), CleanScope(below));
    }
  }

  /** No scope added anywhere in the list clears a protection. */
  lemma AddingNeverUnprotects(k: Kube, before: seq<Scope>, s: Scope, behind: seq<Scope>, rel: string)
    requires k.scopes == before + behind && Resolved(k, rel).protected
    ensures Resolved(k.(scopes := before + [s] + behind), rel).protected
  {
    if !k.protected {
      var x :| x in k.scopes && x.protected && Covers(CleanScope(x.path), CleanScope(rel));
      assert x in before || x in behind;
      assert Guarded(before + [s] + behind, CleanScope(rel));
    }
  }

  /** BindScope takes a path's protection away only by replacing the folder's own protected override. */
  lemma {:induction false} BindNeverUnprotects(k: Kube, s: Scope, rel: string)
    requires Settled(k.scopes) && Bound(k, s).Some? && Resolved(k, rel).protected
    requires forall x | x in k.scopes && CleanScope(x.path) == CleanScope(s.path) :: !x.protected
    ensures Resolved(Bound(k, s).value, rel).protected
  {
    BoundIs(k, s);
    WithoutShape(k.scopes, CleanScope(s.path));
    if !k.protected {
      var x :| x in k.scopes && x.protected && Covers(CleanScope(x.path), CleanScope(rel));
      assert x in Bound(k, s).value.scopes;
    }
  }
}
