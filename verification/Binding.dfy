/** Which cluster a folder is bound to, `internal/project/binding.go`: the filter, stable sort
    and fold of `Resolve` against the rule it implements, and what binding and unbinding a
    folder do to every other path. */
module Binding {
  import opened Sequences
  import opened Strings
  import opened Paths

  datatype Scope = Scope(path: string, context: string, namespace: string, protected: bool)

  datatype Kube = Kube(context: string, namespace: string, protected: bool, scopes: seq<Scope>)

  datatype Answer = Answer(context: string, namespace: string, protected: bool, scope: string)

  /** What a scope may decide. Every scope that applies decides which rule is named. */
  datatype Field = TheContext | TheNamespace | TheRule

  predicate Sets(s: Scope, f: Field) {
    match f
    case TheContext => s.context != ""
    case TheNamespace => s.namespace != ""
    case TheRule => true
  }

  // ---------------------------------------------------------------- the rule

  /** The scope at exactly this path that decides the field: of duplicates, the last in the file. */
  function At(scopes: seq<Scope>, path: string, f: Field): Option<Scope> {
    if scopes == [] then None else
    var last := scopes[|scopes| - 1];
    if CleanScope(last.path) == path && Sets(last, f) then Some(last)
    else At(scopes[..|scopes| - 1], path, f)
  }

  /** Looking from a path upwards, segment by segment, the first scope that decides the field. */
  function Deepest(scopes: seq<Scope>, segments: seq<string>, f: Field): Option<Scope> {
    var here := At(scopes, Join(segments, '/'), f);
    if here.Some? || segments == [] then here
    else Deepest(scopes, segments[..|segments| - 1], f)
  }

  /** Some scope at or above the path is protected. */
  predicate Guarded(scopes: seq<Scope>, target: string) {
    exists s | s in scopes :: s.protected && Covers(CleanScope(s.path), target)
  }

  /** Each field from the deepest scope that decides it, and the project's default otherwise. */
  function Resolved(k: Kube, rel: string): Answer {
    var target := CleanScope(rel);
    var context := Deepest(k.scopes, Segments(target), TheContext);
    var namespace := Deepest(k.scopes, Segments(target), TheNamespace);
    var rule := Deepest(k.scopes, Segments(target), TheRule);
    Answer(
      if context.Some? then context.value.context else k.context,
      if namespace.Some? then namespace.value.namespace else k.namespace,
      k.protected || Guarded(k.scopes, target),
      if rule.Some? then CleanScope(rule.value.path) else ROOT)
  }

  // ---------------------------------------------------------------- filter, sort, fold

  datatype Match = Match(path: string, scope: Scope)

  function Applicable(scopes: seq<Scope>, target: string): (ms: seq<Match>)
    ensures forall i | 0 <= i < |ms| :: ms[i].path == CleanScope(ms[i].scope.path) && Covers(ms[i].path, target)
    ensures forall i | 0 <= i < |ms| :: ms[i].scope in scopes
  {
    if scopes == [] then [] else
    var front, last := Applicable(scopes[..|scopes| - 1], target), scopes[|scopes| - 1];
    if Covers(CleanScope(last.path), target) then front + [Match(CleanScope(last.path), last)] else front
  }

  lemma {:induction false} ApplicableHas(scopes: seq<Scope>, target: string, s: Scope)
    requires s in scopes && Covers(CleanScope(s.path), target)
    ensures Match(CleanScope(s.path), s) in Applicable(scopes, target)
  {
    if s != scopes[|scopes| - 1] { ApplicableHas(scopes[..|scopes| - 1], target, s); }
  }

  predicate ByLength(ms: seq<Match>) {
    forall i, j | 0 <= i < j < |ms| :: |ms[i].path| <= |ms[j].path|
  }

  /** Before the longer matches and after the others. */
  function Insert(ms: seq<Match>, m: Match): seq<Match> {
    if ms == [] || |ms[|ms| - 1].path| <= |m.path| then ms + [m]
    else Insert(ms[..|ms| - 1], m) + [ms[|ms| - 1]]
  }

  /** `slices.SortStableFunc` by path length. */
  function SortStable(ms: seq<Match>): seq<Match> {
    if ms == [] then [] else Insert(SortStable(ms[..|ms| - 1]), ms[|ms| - 1])
  }

  lemma {:induction false} InsertsElement(ms: seq<Match>, m: Match)
    ensures multiset(Insert(ms, m)) == multiset(ms) + multiset{m}
  {
    if ms != [] && |ms[|ms| - 1].path| > |m.path| {
      assert ms == ms[..|ms| - 1] + [ms[|ms| - 1]];
      InsertsElement(ms[..|ms| - 1], m);
    }
  }

  lemma ByLengthSnoc(ms: seq<Match>, m: Match)
    requires ByLength(ms) && (ms == [] || |ms[|ms| - 1].path| <= |m.path|)
    ensures ByLength(ms + [m])
  {
  }

  lemma {:induction false} InsertKeepsOrder(ms: seq<Match>, m: Match)
    requires ByLength(ms)
    ensures ByLength(Insert(ms, m)) && Insert(ms, m) != []
    ensures Insert(ms, m)[|Insert(ms, m)| - 1] in (if ms == [] then {m} else {m, ms[|ms| - 1]})
  {
    if ms == [] || |ms[|ms| - 1].path| <= |m.path| {
      ByLengthSnoc(ms, m);
    } else {
      InsertKeepsOrder(ms[..|ms| - 1], m);
      ByLengthSnoc(Insert(ms[..|ms| - 1], m), ms[|ms| - 1]);
    }
  }

  lemma {:induction false} SortSorts(ms: seq<Match>)
    ensures ByLength(SortStable(ms)) && multiset(SortStable(ms)) == multiset(ms)
  {
    if ms != [] {
      var front, last := ms[..|ms| - 1], ms[|ms| - 1];
      SortSorts(front);
      assert ms == front + [last];
      InsertKeepsOrder(SortStable(front), last);
      InsertsElement(SortStable(front), last);
    }
  }

  lemma SortKeepsElements(ms: seq<Match>, m: Match)
    ensures m in SortStable(ms) <==> m in ms
  {
    SortSorts(ms);
    assert m in multiset(SortStable(ms)) <==> m in multiset(ms);
  }

  /** The last match of this length that decides the field. */
  function LastAt(ms: seq<Match>, n: nat, f: Field): Option<Scope> {
    if ms == [] then None else
    var m := ms[|ms| - 1];
    if |m.path| == n && Sets(m.scope, f) then Some(m.scope) else LastAt(ms[..|ms| - 1], n, f)
  }

  lemma LastAtSnoc(ms: seq<Match>, m: Match, n: nat, f: Field)
    ensures LastAt(ms + [m], n, f) == if |m.path| == n && Sets(m.scope, f) then Some(m.scope) else LastAt(ms, n, f)
  {
    assert (ms + [m])[..|ms|] == ms;
  }

  lemma {:induction false} InsertsLast(ms: seq<Match>, m: Match, n: nat, f: Field)
    ensures LastAt(Insert(ms, m), n, f) == if |m.path| == n && Sets(m.scope, f) then Some(m.scope) else LastAt(ms, n, f)
  {
    if ms == [] || |ms[|ms| - 1].path| <= |m.path| {
      LastAtSnoc(ms, m, n, f);
    } else {
      var front, last := ms[..|ms| - 1], ms[|ms| - 1];
      InsertsLast(front, m, n, f);
      LastAtSnoc(Insert(front, m), last, n, f);
    }
  }

  /** Of the matches of one length, sorting leaves the last one last. */
  lemma {:induction false} SortIsStable(ms: seq<Match>, n: nat, f: Field)
    ensures LastAt(SortStable(ms), n, f) == LastAt(ms, n, f)
  {
    if ms != [] {
      var front, last := ms[..|ms| - 1], ms[|ms| - 1];
      SortIsStable(front, n, f);
      InsertsLast(SortStable(front), last, n, f);
    }
  }

  function LastSetting(ms: seq<Match>, f: Field): Option<Scope> {
    if ms == [] then None
    else if Sets(ms[|ms| - 1].scope, f) then Some(ms[|ms| - 1].scope)
    else LastSetting(ms[..|ms| - 1], f)
  }

  /** The longest matches first, and of equal ones the last. */
  function Longest(ms: seq<Match>, n: nat, f: Field): Option<Scope> {
    var here := LastAt(ms, n, f);
    if here.Some? || n == 0 then here else Longest(ms, n - 1, f)
  }

  lemma {:induction false} LongestOfSorted(ms: seq<Match>, n: nat, f: Field)
    ensures Longest(SortStable(ms), n, f) == Longest(ms, n, f)
  {
    SortIsStable(ms, n, f);
    if n > 0 { LongestOfSorted(ms, n - 1, f); }
  }

  lemma {:induction false} NothingLonger(ms: seq<Match>, n: nat, f: Field)
    requires forall m | m in ms :: |m.path| < n
    ensures LastAt(ms, n, f) == None
  {
    if ms != [] { NothingLonger(ms[..|ms| - 1], n, f); }
  }

  lemma {:induction false} LongestSnoc(ms: seq<Match>, m: Match, n: nat, f: Field)
    requires forall x | x in ms :: |x.path| <= |m.path|
    ensures Longest(ms + [m], n, f) == if Sets(m.scope, f) && |m.path| <= n then Some(m.scope) else Longest(ms, n, f)
  {
    LastAtSnoc(ms, m, n, f);
    if n > |m.path| { NothingLonger(ms, n, f); }
    if n > 0 { LongestSnoc(ms, m, n - 1, f); }
  }

  lemma {:induction false} NoMatchNoLongest(n: nat, f: Field)
    ensures Longest([], n, f) == None
  {
    if n > 0 { NoMatchNoLongest(n - 1, f); }
  }

  /** In a list sorted by length, the last setter is the longest. */
  lemma {:induction false} LastIsLongest(ms: seq<Match>, n: nat, f: Field)
    requires ByLength(ms) && forall m | m in ms :: |m.path| <= n
    ensures LastSetting(ms, f) == Longest(ms, n, f)
  {
    if ms == [] {
      NoMatchNoLongest(n, f);
    } else {
      var front, last := ms[..|ms| - 1], ms[|ms| - 1];
      assert front + [last] == ms;
      LastIsLongest(front, n, f);
      LongestSnoc(front, last, n, f);
    }
  }

  // ---------------------------------------------------------------- lengths are depths

  /** The applicable scopes of one length are the scopes at one ancestor, if there is one of that length. */
  lemma {:induction false} LevelIsAncestor(scopes: seq<Scope>, target: string, n: nat, f: Field)
    requires n <= |target|
    ensures LastAt(Applicable(scopes, target), n, f) ==
            if Covers(target[..n], target) then At(scopes, target[..n], f) else None
  {
    if scopes != [] {
      var front, last := scopes[..|scopes| - 1], scopes[|scopes| - 1];
      LevelIsAncestor(front, target, n, f);
      var path := CleanScope(last.path);
      if Covers(path, target) {
        LastAtSnoc(Applicable(front, target), Match(path, last), n, f);
        assert path == target[..|path|];
      }
    }
  }

  /** Matches whose lengths stand for the ancestors of a path. */
  ghost predicate ByAncestor(ms: seq<Match>, scopes: seq<Scope>, target: string, f: Field) {
    forall n: nat | n <= |target| ::
      LastAt(ms, n, f) == if Covers(target[..n], target) then At(scopes, target[..n], f) else None
  }

  lemma NoAncestorInside(target: string, whole: string, s: string, n: nat)
    requires '/' !in s && Covers(whole, target) && whole != ROOT
    requires |s| <= |whole| && whole[|whole| - |s|..] == s && |whole| - |s| <= n < |whole| && 0 < n
    ensures n <= |target| && !Covers(target[..n], target)
  {
    assert whole == target[..|whole|];
    assert target[n] == whole[n] == s[n - (|whole| - |s|)];
    assert (target[..n] + "/")[n] == '/';
  }

  /** Going one segment up skips only lengths at which there is no ancestor. */
  lemma {:induction false} SkipToParent(ms: seq<Match>, scopes: seq<Scope>, target: string, parent: nat, whole: string, s: string, n: nat, f: Field)
    requires ByAncestor(ms, scopes, target, f)
    requires '/' !in s && Covers(whole, target) && whole != ROOT
    requires |s| <= |whole| && whole[|whole| - |s|..] == s
    requires parent <= n < |whole| && (parent + 1 == |whole| - |s| || parent == |whole| - |s| == 0)
    ensures Longest(ms, n, f) == Longest(ms, parent, f)
  {
    if parent < n {
      NoAncestorInside(target, whole, s, n);
      SkipToParent(ms, scopes, target, parent, whole, s, n - 1, f);
    }
  }

  lemma LastSegment(segments: seq<string>)
    requires segments != [] && Reduced(segments)
    ensures var parent, whole, s := |Join(segments[..|segments| - 1], '/')|, Join(segments, '/'), segments[|segments| - 1];
            && '/' !in s && s != ""
            && |s| <= |whole| && whole[|whole| - |s|..] == s
            && (parent + 1 == |whole| - |s| || parent == |whole| - |s| == 0)
  {
    var front, last := segments[..|segments| - 1], segments[|segments| - 1];
    assert Proper(last);
    assert front + [last] == segments;
    JoinSnoc(front, last, '/');
    if front == [] { assert Join(front, '/') == ""; }
  }

  lemma StepToParent(ms: seq<Match>, scopes: seq<Scope>, target: string, segments: seq<string>, f: Field)
    requires ByAncestor(ms, scopes, target, f)
    requires segments != [] && Reduced(segments) && Covers(Join(segments, '/'), target)
    ensures var front := Join(segments[..|segments| - 1], '/');
            |Join(segments, '/')| > |front| && Longest(ms, |Join(segments, '/')| - 1, f) == Longest(ms, |front|, f)
  {
    LastSegment(segments);
    OneUp(ms, scopes, target, |Join(segments[..|segments| - 1], '/')|, Join(segments, '/'), segments[|segments| - 1], f);
  }

  lemma OneUp(ms: seq<Match>, scopes: seq<Scope>, target: string, parent: nat, whole: string, s: string, f: Field)
    requires ByAncestor(ms, scopes, target, f)
    requires '/' !in s && s != "" && Covers(whole, target)
    requires |s| <= |whole| && whole[|whole| - |s|..] == s && (parent + 1 == |whole| - |s| || parent == |whole| - |s| == 0)
    ensures |whole| > parent && Longest(ms, |whole| - 1, f) == Longest(ms, parent, f)
  {
    SkipToParent(ms, scopes, target, parent, whole, s, |whole| - 1, f);
  }

  lemma HereIsAt(ms: seq<Match>, scopes: seq<Scope>, target: string, path: string, f: Field)
    requires ByAncestor(ms, scopes, target, f) && Covers(path, target)
    ensures LastAt(ms, |path|, f) == At(scopes, path, f)
  {
    assert target[..|path|] == path;
  }

  /** From here upwards, the longest applicable scope is the deepest one. */
  lemma {:induction false} LongestIsDeepest(ms: seq<Match>, scopes: seq<Scope>, target: string, segments: seq<string>, f: Field)
    requires ByAncestor(ms, scopes, target, f)
    requires segments <= Segments(target) && Reduced(Segments(target))
    ensures Longest(ms, |Join(segments, '/')|, f) == Deepest(scopes, segments, f)
  {
    JoinedPrefixCovers(segments, target);
    HereIsAt(ms, scopes, target, Join(segments, '/'), f);
    if segments != [] {
      LongestIsDeepest(ms, scopes, target, segments[..|segments| - 1], f);
      StepToParent(ms, scopes, target, segments, f);
    }
  }

  lemma JoinedPrefixCovers(segments: seq<string>, target: string)
    requires segments <= Segments(target) && Reduced(Segments(target))
    ensures Covers(Join(segments, '/'), target) && Reduced(segments)
  {
    JoinShape(segments);
    if segments != [] { SplitJoin(segments, '/'); }
    CoversIsSegmentPrefix(Join(segments, '/'), target);
  }

  /** The last setter of the sorted matches is the deepest scope that sets the field. */
  lemma SortedIsDeepest(scopes: seq<Scope>, rel: string, f: Field)
    ensures var target := CleanScope(rel);
            LastSetting(SortStable(Applicable(scopes, target)), f) == Deepest(scopes, Segments(target), f)
  {
    var target := CleanScope(rel);
    var ms := Applicable(scopes, target);
    forall m | m in SortStable(ms) ensures |m.path| <= |target| {
      SortKeepsElements(ms, m);
    }
    SortSorts(ms);
    LastIsLongest(SortStable(ms), |target|, f);
    LongestOfSorted(ms, |target|, f);
    CleanScopeIsKept(rel);
    forall n: nat | n <= |target|
      ensures LastAt(ms, n, f) == if Covers(target[..n], target) then At(scopes, target[..n], f) else None
    {
      LevelIsAncestor(scopes, target, n, f);
    }
    LongestIsDeepest(ms, scopes, target, Segments(target), f);
  }

  predicate AnyProtected(ms: seq<Match>) {
    ms != [] && (AnyProtected(ms[..|ms| - 1]) || ms[|ms| - 1].scope.protected)
  }

  lemma {:induction false} ProtectedByOne(ms: seq<Match>)
    ensures AnyProtected(ms) <==> exists m | m in ms :: m.scope.protected
  {
    if ms != [] {
      ProtectedByOne(ms[..|ms| - 1]);
      assert ms == ms[..|ms| - 1] + [ms[|ms| - 1]];
    }
  }

  lemma SortedIsGuarded(scopes: seq<Scope>, target: string)
    ensures AnyProtected(SortStable(Applicable(scopes, target))) <==> Guarded(scopes, target)
  {
    var ms := Applicable(scopes, target);
    var sorted := SortStable(ms);
    ProtectedByOne(sorted);
    if m :| m in sorted && m.scope.protected {
      SortKeepsElements(ms, m);
      assert m.scope in scopes;
    }
    if s :| s in scopes && s.protected && Covers(CleanScope(s.path), target) {
      ApplicableHas(scopes, target, s);
      var m := Match(CleanScope(s.path), s);
      SortKeepsElements(ms, m);
    }
  }

  /** What the fold holds after some of the matches. */
  function Folded(k: Kube, ms: seq<Match>): Answer {
    var context, namespace, rule := LastSetting(ms, TheContext), LastSetting(ms, TheNamespace), LastSetting(ms, TheRule);
    Answer(
      if context.Some? then context.value.context else k.context,
      if namespace.Some? then namespace.value.namespace else k.namespace,
      k.protected || AnyProtected(ms),
      if rule.Some? then CleanScope(rule.value.path) else ROOT)
  }

  lemma FoldOne(k: Kube, ms: seq<Match>, m: Match)
    requires m.path == CleanScope(m.scope.path)
    ensures Folded(k, ms + [m]) == Answer(
              if m.scope.context != "" then m.scope.context else Folded(k, ms).context,
              if m.scope.namespace != "" then m.scope.namespace else Folded(k, ms).namespace,
              Folded(k, ms).protected || m.scope.protected, m.path)
  {
    assert (ms + [m])[..|ms|] == ms;
  }

  lemma FoldedIsResolved(k: Kube, rel: string)
    ensures Folded(k, SortStable(Applicable(k.scopes, CleanScope(rel)))) == Resolved(k, rel)
  {
    SortedIsDeepest(k.scopes, rel, TheContext);
    SortedIsDeepest(k.scopes, rel, TheNamespace);
    SortedIsDeepest(k.scopes, rel, TheRule);
    SortedIsGuarded(k.scopes, CleanScope(rel));
  }

  /** The fold over the sorted matches, each one replacing the fields it sets. */
  method Fold(k: Kube, sorted: seq<Match>) returns (resolved: Answer)
    requires forall i | 0 <= i < |sorted| :: sorted[i].path == CleanScope(sorted[i].scope.path)
    ensures resolved == Folded(k, sorted)
  {
    resolved := Answer(k.context, k.namespace, k.protected, ROOT);
    for i := 0 to |sorted|
      invariant resolved == Folded(k, sorted[..i])
    {
      var applies := sorted[i];
      FoldOne(k, sorted[..i], applies);
      assert sorted[..i + 1] == sorted[..i] + [applies];
      if applies.scope.context != "" { resolved := resolved.(context := applies.scope.context); }
      if applies.scope.namespace != "" { resolved := resolved.(namespace := applies.scope.namespace); }
      resolved := resolved.(protected := resolved.protected || applies.scope.protected, scope := applies.path);
    }
    assert sorted[..|sorted|] == sorted;
  }

  /** `Resolve` answers every path by the rule. */
  method Resolve(k: Kube, rel: string) returns (resolved: Answer)
    ensures resolved == Resolved(k, rel)
  {
    var target := CleanScope(rel);
    var applicable: seq<Match> := [];
    for i := 0 to |k.scopes|
      invariant applicable == Applicable(k.scopes[..i], target)
    {
      assert k.scopes[..i + 1][..i] == k.scopes[..i];
      var cleaned := CleanScope(k.scopes[i].path);
      if Covers(cleaned, target) { applicable := applicable + [Match(cleaned, k.scopes[i])]; }
    }
    assert k.scopes[..|k.scopes|] == k.scopes;
    var sorted := SortStable(applicable);
    forall i | 0 <= i < |sorted| ensures sorted[i].path == CleanScope(sorted[i].scope.path) {
      SortKeepsElements(applicable, sorted[i]);
    }
    resolved := Fold(k, sorted);
    FoldedIsResolved(k, rel);
  }
}
