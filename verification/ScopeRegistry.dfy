/** Binding and unbinding folders: `validateScopes`, `BindScope`, `UnbindScope` and
    `rewriteScopes` of `internal/project/binding.go`, and what they do to the answer of
    `Resolve` everywhere else. */
module ScopeRegistry {
  import opened Sequences
  import opened Strings
  import opened Paths
  import opened Binding

  // ---------------------------------------------------------------- validation

  predicate Refused(path: string) {
    HasPrefix(Written(path), "/") || Escapes(Written(path)) || CleanScope(path) == ROOT
  }

  /** Every path names a place below the root, and no two the same. */
  predicate Acceptable(scopes: seq<Scope>) {
    AllPlaced(scopes) && Distinct(scopes)
  }

  predicate AllPlaced(scopes: seq<Scope>) {
    forall i | 0 <= i < |scopes| :: !Refused(scopes[i].path)
  }

  predicate Distinct(scopes: seq<Scope>) {
    forall i, j | 0 <= i < j < |scopes| :: CleanScope(scopes[i].path) != CleanScope(scopes[j].path)
  }

  function Normal(s: Scope): Scope {
    Scope(CleanScope(s.path), Trim(s.context), Trim(s.namespace), s.protected)
  }

  function Normalized(scopes: seq<Scope>): (r: seq<Scope>)
    ensures |r| == |scopes|
  {
    if scopes == [] then [] else Normalized(scopes[..|scopes| - 1]) + [Normal(scopes[|scopes| - 1])]
  }

  lemma {:induction false} NormalizedAt(scopes: seq<Scope>, i: nat)
    requires i < |scopes|
    ensures Normalized(scopes)[i] == Normal(scopes[i])
  {
    if i < |scopes| - 1 { NormalizedAt(scopes[..|scopes| - 1], i); }
  }

  lemma NormalizedSnoc(scopes: seq<Scope>, s: Scope)
    ensures Normalized(scopes + [s]) == Normalized(scopes) + [Normal(s)]
  {
    assert (scopes + [s])[..|scopes|] == scopes;
  }

  lemma WrittenSettles(p: string)
    ensures Written(Written(p)) == Written(p) && CleanScope(Written(p)) == CleanScope(p)
  {
    TrimmedIsInside(Slashed(p));
    SlashedFixed(Written(p));
    TrimmedLessUnlessBare(Slashed(p));
    TrimmedLessUnlessBare(Written(p));
  }

  function Validated(scopes: seq<Scope>): Option<seq<Scope>> {
    if Acceptable(scopes) then Some(Normalized(scopes)) else None
  }

  function Places(scopes: seq<Scope>): set<string> {
    if scopes == [] then {} else Places(scopes[..|scopes| - 1]) + {CleanScope(scopes[|scopes| - 1].path)}
  }

  lemma {:induction false} PlaceTaken(scopes: seq<Scope>, path: string)
    ensures path in Places(scopes) <==> exists i | 0 <= i < |scopes| :: CleanScope(scopes[i].path) == path
  {
    if scopes != [] {
      PlaceTaken(scopes[..|scopes| - 1], path);
      assert forall i | 0 <= i < |scopes| - 1 :: scopes[..|scopes| - 1][i] == scopes[i];
    }
  }

  /** Whether a list stays acceptable is settled by its newest scope. */
  lemma AcceptableSnoc(scopes: seq<Scope>, s: Scope)
    requires Acceptable(scopes)
    ensures Acceptable(scopes + [s]) <==> !Refused(s.path) && CleanScope(s.path) !in Places(scopes)
  {
    DistinctSnoc(scopes, s);
    PlacedSnoc(scopes, s);
  }

  lemma DistinctSnoc(scopes: seq<Scope>, s: Scope)
    requires Distinct(scopes)
    ensures Distinct(scopes + [s]) <==> CleanScope(s.path) !in Places(scopes)
  {
    PlaceTaken(scopes, CleanScope(s.path));
    var all := scopes + [s];
    if i :| 0 <= i < |scopes| && CleanScope(scopes[i].path) == CleanScope(s.path) {
      assert all[i] == scopes[i] && all[|scopes|] == s;
    }
  }

  lemma PlacedSnoc(scopes: seq<Scope>, s: Scope)
    ensures AllPlaced(scopes + [s]) <==> AllPlaced(scopes) && !Refused(s.path)
  {
    var all := scopes + [s];
    assert all[|scopes|] == s;
    assert forall i | 0 <= i < |scopes| :: all[i] == scopes[i];
  }

  lemma AcceptablePrefix(scopes: seq<Scope>, n: nat)
    requires n <= |scopes| && Acceptable(scopes)
    ensures Acceptable(scopes[..n])
  {
  }

  lemma AcceptableSplit(scopes: seq<Scope>)
    requires scopes != [] && Acceptable(scopes)
    ensures var front, last := scopes[..|scopes| - 1], scopes[|scopes| - 1];
            Acceptable(front) && !Refused(last.path) && CleanScope(last.path) !in Places(front)
  {
    var front := scopes[..|scopes| - 1];
    AcceptablePrefix(scopes, |front|);
    PlaceTaken(front, CleanScope(scopes[|scopes| - 1].path));
    assert forall i | 0 <= i < |front| :: front[i] == scopes[i];
  }

  lemma OneMore(scopes: seq<Scope>, i: nat)
    requires i < |scopes|
    ensures scopes[..i + 1] == scopes[..i] + [scopes[i]]
    ensures Normalized(scopes[..i + 1]) == Normalized(scopes[..i]) + [Normal(scopes[i])]
    ensures Places(scopes[..i + 1]) == Places(scopes[..i]) + {CleanScope(scopes[i].path)}
  {
    assert scopes[..i + 1][..i] == scopes[..i];
  }

  /** The verdict on one path, and its clean form. */
  method CheckScope(path: string) returns (cleaned: string, refused: bool)
    ensures cleaned == CleanScope(path) && refused == Refused(path)
  {
    var trimmed := Written(path);
    WrittenSettles(path);
    cleaned := CleanScope(trimmed);
    refused := HasPrefix(trimmed, "/") || Escapes(trimmed) || cleaned == ROOT;
  }

  /** `validateScopes`: the normalized list, unless a path leaves the repository, names its root,
      or is set twice. */
  method ValidateScopes(scopes: seq<Scope>) returns (r: Option<seq<Scope>>)
    ensures r == Validated(scopes)
  {
    var seen: set<string> := {};
    var kept: seq<Scope> := [];
    for i := 0 to |scopes|
      invariant Acceptable(scopes[..i]) && kept == Normalized(scopes[..i]) && seen == Places(scopes[..i])
    {
      var s := scopes[i];
      var cleaned, refused := CheckScope(s.path);
      OneMore(scopes, i);
      AcceptableSnoc(scopes[..i], s);
      if refused || cleaned in seen {
        if Acceptable(scopes) { AcceptablePrefix(scopes, i + 1); }
        return None;
      }
      seen := seen + {cleaned};
      kept := kept + [Scope(cleaned, Trim(s.context), Trim(s.namespace), s.protected)];
    }
    assert scopes[..|scopes|] == scopes;
    return Some(kept);
  }

  /** A list validation would write back as it is. */
  predicate Settled(scopes: seq<Scope>) {
    Validated(scopes) == Some(scopes)
  }

  // ---------------------------------------------------------------- the registry

  datatype Project = Project(name: string, kube: Kube)

  datatype Outcome = Stored(project: Project) | Unknown | Invalid

  predicate OverridesNothing(s: Scope) {
    Trim(s.context) == "" && Trim(s.namespace) == "" && !s.protected
  }

  /** The list without the override at this folder. */
  function Without(scopes: seq<Scope>, folder: string): seq<Scope> {
    if scopes == [] then [] else
    var front, last := Without(scopes[..|scopes| - 1], folder), scopes[|scopes| - 1];
    if CleanScope(last.path) != folder then front + [last] else front
  }

  function Rebound(scopes: seq<Scope>, s: Scope): seq<Scope> {
    var others := Without(scopes, CleanScope(s.path));
    if OverridesNothing(s) then others else others + [s]
  }

  /** A project's binding after its scopes are replaced, if the new list is acceptable. */
  function Rewritten(k: Kube, scopes: seq<Scope>): Option<Kube> {
    var valid := Validated(scopes);
    if valid.Some? then Some(k.(scopes := valid.value)) else None
  }

  function Bound(k: Kube, s: Scope): Option<Kube> {
    Rewritten(k, Rebound(k.scopes, s))
  }

  function Unbound(k: Kube, folder: string): Option<Kube> {
    Rewritten(k, Without(k.scopes, CleanScope(folder)))
  }

  /** The first project of this name, or the number of projects. */
  function Named(projects: seq<Project>, name: string): (i: nat)
    ensures i <= |projects|
    ensures forall j | 0 <= j < i :: projects[j].name != name
    ensures i < |projects| ==> projects[i].name == name
  {
    if projects == [] then 0 else
    var i := Named(projects[..|projects| - 1], name);
    if i < |projects| - 1 || projects[i].name == name then i else |projects|
  }

  /** The stored projects after one of them is given this binding, or none. */
  function Store(projects: seq<Project>, name: string, next: Option<Kube>): (seq<Project>, Outcome) {
    var i := Named(projects, name);
    if i == |projects| then (projects, Unknown)
    else if next.None? then (projects, Invalid)
    else (projects[i := Project(name, next.value)], Stored(Project(name, next.value)))
  }

  function KubeOf(projects: seq<Project>, name: string): Kube {
    var i := Named(projects, name);
    if i < |projects| then projects[i].kube else Kube("", "", false, [])
  }

  /** What storing comes to: without a project of the name nothing changes; without a valid binding
      nothing changes; otherwise the first project of the name gets it, and no other changes. */
  lemma StoresOnTheFirst(projects: seq<Project>, name: string, next: Option<Kube>)
    ensures var (stored, r) := Store(projects, name, next);
            && ((forall i | 0 <= i < |projects| :: projects[i].name != name) ==> stored == projects && r == Unknown)
            && (forall i | 0 <= i < |projects| && projects[i].name == name && (forall j | 0 <= j < i :: projects[j].name != name) ::
                  && KubeOf(projects, name) == projects[i].kube
                  && if next.None? then stored == projects && r == Invalid
                     else r == Stored(Project(name, next.value)) && stored == projects[i := Project(name, next.value)])
  {
  }

  class Registry {
    var projects: seq<Project>     // the stored file, which a save replaces whole

    constructor (projects: seq<Project>)
      ensures this.projects == projects
    {
      this.projects := projects;
    }

    /** `rewriteScopes`: nothing is stored unless the whole new list is valid. */
    method RewriteScopes(name: string, change: seq<Scope> -> seq<Scope>) returns (r: Outcome)
      modifies this
      ensures var k := KubeOf(old(projects), name);
              (projects, r) == Store(old(projects), name, Rewritten(k, change(k.scopes)))
    {
      var i := 0;
      while i < |projects|
        invariant i <= |projects| && projects == old(projects)
        invariant forall j | 0 <= j < i :: projects[j].name != name
      {
        if projects[i].name == name {
          assert i == Named(projects, name);
          var kube := projects[i].kube;
          var validated := ValidateScopes(change(kube.scopes));
          if validated.None? { return Invalid; }
          projects := projects[i := Project(name, kube.(scopes := validated.value))];
          return Stored(projects[i]);
        }
        i := i + 1;
      }
      return Unknown;
    }

    /** `BindScope`. An override that overrides nothing takes the folder's override away. */
    method BindScope(name: string, s: Scope) returns (r: Outcome)
      modifies this
      ensures (projects, r) == Store(old(projects), name, Bound(KubeOf(old(projects), name), s))
    {
      if OverridesNothing(s) {
        r := UnbindScope(name, s.path);
      } else {
        r := RewriteScopes(name, scopes => Without(scopes, CleanScope(s.path)) + [s]);
      }
    }

    /** `UnbindScope`. */
    method UnbindScope(name: string, folder: string) returns (r: Outcome)
      modifies this
      ensures (projects, r) == Store(old(projects), name, Unbound(KubeOf(old(projects), name), folder))
    {
      r := RewriteScopes(name, scopes => Without(scopes, CleanScope(folder)));
    }
  }

  // ---------------------------------------------------------------- lists without duplicates

  /** Without duplicates, the scope at a path is the one there is. */
  lemma {:induction false} AtIsTheOnly(scopes: seq<Scope>, path: string, f: Field)
    requires Distinct(scopes)
    ensures forall s :: At(scopes, path, f) == Some(s) <==> s in scopes && CleanScope(s.path) == path && Sets(s, f)
    ensures At(scopes, path, f) == None <==> forall s | s in scopes && CleanScope(s.path) == path :: !Sets(s, f)
  {
    if scopes != [] {
      var front, last := scopes[..|scopes| - 1], scopes[|scopes| - 1];
      assert scopes == front + [last];
      AtIsTheOnly(front, path, f);
    }
  }

  lemma {:induction false} DeepestAgrees(a: seq<Scope>, b: seq<Scope>, segments: seq<string>, f: Field)
    requires forall n: nat | n <= |segments| :: At(a, Join(segments[..n], '/'), f) == At(b, Join(segments[..n], '/'), f)
    ensures Deepest(a, segments, f) == Deepest(b, segments, f)
  {
    assert segments[..|segments|] == segments;
    if segments != [] {
      var front := segments[..|segments| - 1];
      forall n: nat | n <= |front| ensures front[..n] == segments[..n] {}
      DeepestAgrees(a, b, front, f);
    }
  }

  /** A hand-edited file may list its scopes in any order: without duplicates the answer is the same. */
  lemma {:induction false} OrderDoesNotMatter(k: Kube, reordered: seq<Scope>, rel: string)
    requires Distinct(k.scopes) && Distinct(reordered) && multiset(reordered) == multiset(k.scopes)
    ensures Resolved(k.(scopes := reordered), rel) == Resolved(k, rel)
  {
    forall s ensures s in reordered <==> s in k.scopes {
      assert s in multiset(reordered) <==> s in multiset(k.scopes);
    }
    forall path, f ensures At(reordered, path, f) == At(k.scopes, path, f) {
      AtIsTheOnly(reordered, path, f);
      AtIsTheOnly(k.scopes, path, f);
      if At(k.scopes, path, f).Some? { assert At(reordered, path, f) == Some(At(k.scopes, path, f).value); }
    }
    forall f ensures Deepest(reordered, Segments(CleanScope(rel)), f) == Deepest(k.scopes, Segments(CleanScope(rel)), f) {
      DeepestAgrees(reordered, k.scopes, Segments(CleanScope(rel)), f);
    }
  }

  // ---------------------------------------------------------------- binding one folder

  lemma {:induction false} WithoutShape(scopes: seq<Scope>, folder: string)
    ensures forall s :: s in Without(scopes, folder) <==> s in scopes && CleanScope(s.path) != folder
    ensures (forall s | s in scopes :: CleanScope(s.path) != folder) ==> Without(scopes, folder) == scopes
  {
    if scopes != [] {
      var front, last := scopes[..|scopes| - 1], scopes[|scopes| - 1];
      assert scopes == front + [last];
      WithoutShape(front, folder);
    }
  }

  lemma {:induction false} AtWithout(scopes: seq<Scope>, folder: string, path: string, f: Field)
    ensures At(Without(scopes, folder), path, f) == if path == folder then None else At(scopes, path, f)
  {
    if scopes != [] {
      var front, last := scopes[..|scopes| - 1], scopes[|scopes| - 1];
      AtWithout(front, folder, path, f);
      if CleanScope(last.path) != folder { AtSnoc(Without(front, folder), last, path, f); }
    }
  }

  lemma AtSnoc(scopes: seq<Scope>, s: Scope, path: string, f: Field)
    ensures At(scopes + [s], path, f) == if CleanScope(s.path) == path && Sets(s, f) then Some(s) else At(scopes, path, f)
  {
    assert (scopes + [s])[..|scopes|] == scopes;
  }

  /** Every scope is as validation would write it. */
  predicate AllNormal(scopes: seq<Scope>) {
    scopes != [] ==> AllNormal(scopes[..|scopes| - 1]) && Normal(scopes[|scopes| - 1]) == scopes[|scopes| - 1]
  }

  lemma {:induction false} NormalizedFixed(scopes: seq<Scope>)
    ensures Normalized(scopes) == scopes <==> AllNormal(scopes)
  {
    if scopes != [] {
      var n := |scopes| - 1;
      NormalizedFixed(scopes[..n]);
      NormalizedEndsWith(scopes);
      assert scopes == scopes[..n] + [scopes[n]];
      SnocEqual(Normalized(scopes[..n]), Normal(scopes[n]), scopes[..n], scopes[n]);
    }
  }

  lemma NormalizedEndsWith(scopes: seq<Scope>)
    requires scopes != []
    ensures Normalized(scopes) == Normalized(scopes[..|scopes| - 1]) + [Normal(scopes[|scopes| - 1])]
  {
  }

  lemma {:induction false} WithoutNormal(scopes: seq<Scope>, folder: string)
    requires AllNormal(scopes)
    ensures AllNormal(Without(scopes, folder))
  {
    if scopes != [] {
      var front, last := scopes[..|scopes| - 1], scopes[|scopes| - 1];
      WithoutNormal(front, folder);
      assert (Without(front, folder) + [last])[..|Without(front, folder)|] == Without(front, folder);
    }
  }

  /** The list BindScope stores: the others untouched, and the new override, normalized, behind them. */
  lemma {:induction false} BoundIs(k: Kube, s: Scope)
    requires Settled(k.scopes) && Bound(k, s).Some?
    ensures Bound(k, s).value ==
            k.(scopes := if Trim(s.context) == "" && Trim(s.namespace) == "" && !s.protected
                         then Without(k.scopes, CleanScope(s.path))
                         else Without(k.scopes, CleanScope(s.path)) + [Normal(s)])
  {
    var others := Without(k.scopes, CleanScope(s.path));
    NormalizedFixed(k.scopes);
    WithoutNormal(k.scopes, CleanScope(s.path));
    NormalizedFixed(others);
    NormalizedSnoc(others, s);
  }
}
