/** Repository-relative paths as `internal/project/binding.go` compares them: what `cleanScope`
    makes of one, and `covers` as the prefix order on segments. Strings are sequences of
    characters; the path cleaning is that of Go's `path.Clean`. */
module Paths {
  import opened Strings

  const ROOT := ""

  // ---------------------------------------------------------------- segments

  /** The segments a path is made of; the root has none. */
  function Segments(path: string): seq<string> {
    if path == ROOT then [] else Split(path, '/')
  }

  // ---------------------------------------------------------------- covers

  predicate HasPrefix(s: string, prefix: string) {
    prefix <= s
  }

  predicate Covers(scope: string, target: string) {
    scope == ROOT || target == scope || HasPrefix(target, scope + "/")
  }

  /** The string comparison is exactly the prefix order on whole segments, so `prod` covers
      `prod/api` and never `production`. */
  lemma CoversIsSegmentPrefix(scope: string, target: string)
    ensures Covers(scope, target) <==> Segments(scope) <= Segments(target)
  {
    if scope != ROOT && target != ROOT {
      if Covers(scope, target) { CoveredExtends(scope, target); }
      if Split(scope, '/') <= Split(target, '/') { ExtensionCovered(scope, target); }
    }
  }

  lemma CoveredExtends(scope: string, target: string)
    requires scope != ROOT && Covers(scope, target)
    ensures Split(scope, '/') <= Split(target, '/')
  {
    if target != scope {
      var rest := target[|scope| + 1..];
      assert target == scope + "/" + rest;
      SplitAround(scope, rest, '/');
    }
  }

  lemma ExtensionCovered(scope: string, target: string)
    requires Split(scope, '/') <= Split(target, '/')
    ensures Covers(scope, target)
  {
    JoinSplit(scope, '/');
    JoinSplit(target, '/');
    JoinsCovered(Split(scope, '/'), Split(target, '/'));
  }

  lemma JoinsCovered(a: seq<string>, b: seq<string>)
    requires a != [] && a <= b
    ensures Covers(Join(a, '/'), Join(b, '/'))
  {
    var rest := b[|a|..];
    assert b == a + rest;
    if rest == [] {
      assert b == a;
    } else {
      JoinConcat(a, rest, '/');
      assert Join(b, '/') == (Join(a, '/') + "/") + Join(rest, '/');
    }
  }

  lemma CoversChains(a: string, b: string, target: string)
    requires Covers(a, b) && Covers(b, target)
    ensures Covers(a, target)
  {
    CoversIsSegmentPrefix(a, b);
    CoversIsSegmentPrefix(b, target);
    CoversIsSegmentPrefix(a, target);
  }

  /** Scopes covering one path form a chain, and a longer one lies below a shorter one. */
  lemma CoveringScopesFormAChain(a: string, b: string, target: string)
    requires Covers(a, target) && Covers(b, target) && |a| <= |b|
    ensures Covers(a, b)
    ensures |a| == |b| ==> a == b
  {
    assert a == target[..|a|] && b == target[..|b|];
    if a != ROOT && |a| < |b| {
      assert (a + "/")[|a|] == '/';
      assert b[..|a| + 1] == target[..|a| + 1] == a + "/";
    }
  }

  // ---------------------------------------------------------------- cleaning

  /** `strings.ReplaceAll` of a backslash by a separator. */
  function Slashed(s: string): (r: string)
    ensures |r| == |s| && '\\' !in r
  {
    if s == "" then ""
    else Slashed(s[..|s| - 1]) + [if s[|s| - 1] == '\\' then '/' else s[|s| - 1]]
  }

  /** The heart of `path.Clean`: empty and `.` segments vanish, and `..` takes the segment
      before it away, or stays when there is none and the path is relative. */
  function Reduce(rooted: bool, segments: seq<string>): seq<string> {
    if segments == [] then [] else
    var kept, s := Reduce(rooted, segments[..|segments| - 1]), segments[|segments| - 1];
    if s == "" || s == "." then kept
    else if s == ".." then
      if kept != [] && kept[|kept| - 1] != ".." then kept[..|kept| - 1]
      else if rooted then kept
      else kept + [".."]
    else kept + [s]
  }

  /** `path.Clean`. */
  function Clean(p: string): string {
    if p == "" then "." else Spelled(p[0] == '/', Join(Reduce(p[0] == '/', Split(p, '/')), '/'))
  }

  function Spelled(rooted: bool, body: string): string {
    if rooted then "/" + body else if body == "" then "." else body
  }

  /** What is left of a written path before it is cleaned. */
  function Written(p: string): string {
    Trim(Slashed(p))
  }

  function CleanScope(p: string): string {
    var trimmed := Written(p);
    if trimmed == "" then ROOT else Relative(Clean(trimmed))
  }

  function Relative(cleaned: string): string {
    if cleaned == "." || cleaned == "/" then ROOT
    else if HasPrefix(cleaned, "/") then cleaned[1..]
    else cleaned
  }

  predicate Escapes(p: string) {
    var cleaned := Clean(p);
    cleaned == ".." || HasPrefix(cleaned, "../")
  }

  // ---------------------------------------------------------------- what cleaning yields

  predicate Proper(segment: string) {
    segment != "" && segment != "." && '/' !in segment && '\\' !in segment
  }

  /** Proper segments, and `..` only before everything else. */
  predicate Reduced(segments: seq<string>) {
    && (forall i | 0 <= i < |segments| :: Proper(segments[i]))
    && (forall i, j | 0 <= i < j < |segments| && segments[j] == ".." :: segments[i] == "..")
  }

  lemma {:induction false} ReduceReduces(rooted: bool, segments: seq<string>)
    requires forall i | 0 <= i < |segments| :: '/' !in segments[i] && '\\' !in segments[i]
    ensures Reduced(Reduce(rooted, segments))
    ensures rooted ==> ".." !in Reduce(rooted, segments)
  {
    if segments != [] { ReduceReduces(rooted, segments[..|segments| - 1]); }
  }

  lemma {:induction false} ReduceKeepsReduced(segments: seq<string>)
    requires Reduced(segments)
    ensures Reduce(false, segments) == segments
  {
    if segments != [] {
      var front := segments[..|segments| - 1];
      ReduceKeepsReduced(front);
      assert front + [segments[|segments| - 1]] == segments;
    }
  }

  lemma {:induction false} JoinShape(segments: seq<string>)
    requires Reduced(segments)
    ensures '\\' !in Join(segments, '/')
    ensures Join(segments, '/') == "" <==> segments == []
    ensures segments != [] ==> HasPrefix(Join(segments, '/'), segments[0]) && Join(segments, '/')[0] != '/'
  {
    if |segments| > 1 { JoinShape(segments[..|segments| - 1]); }
  }

  lemma {:induction false} SlashedFixed(s: string)
    requires '\\' !in s
    ensures Slashed(s) == s
  {
    if s != "" {
      SlashedFixed(s[..|s| - 1]);
      assert s[..|s| - 1] + [s[|s| - 1]] == s;
    }
  }

  /** The segments `cleanScope` keeps. */
  function Kept(p: string): seq<string> {
    var w := Written(p);
    if w == "" then [] else Reduce(w[0] == '/', Split(w, '/'))
  }

  lemma RelativeSpelled(rooted: bool, segments: seq<string>)
    requires Reduced(segments)
    ensures Relative(Spelled(rooted, Join(segments, '/'))) == Join(segments, '/')
  {
    JoinShape(segments);
    if segments != [] { JoinIsNoDot(segments); }
    RelativeBody(rooted, Join(segments, '/'));
  }

  lemma JoinIsNoDot(segments: seq<string>)
    requires Reduced(segments) && segments != []
    ensures Join(segments, '/') != "."
  {
    SplitJoin(segments, '/');
    SplitUnbroken(".", '/');
    assert Proper(segments[0]);
  }

  lemma RelativeBody(rooted: bool, body: string)
    requires body == ROOT || (body[0] != '/' && body != ".")
    ensures Relative(Spelled(rooted, body)) == body
  {
    if rooted { assert ("/" + body)[1..] == body; }
  }

  /** Cleaning in one line: the reduced segments of what was written, joined. */
  lemma CleanScopeIsKept(p: string)
    ensures Reduced(Kept(p)) && CleanScope(p) == Join(Kept(p), '/') && Segments(CleanScope(p)) == Kept(p)
    ensures '\\' !in CleanScope(p)
  {
    var w := Written(p);
    if w != "" {
      TrimmedIsInside(Slashed(p));
      SplitKeepsOut(w, '\\', '/');
      ReduceReduces(w[0] == '/', Split(w, '/'));
      RelativeSpelled(w[0] == '/', Kept(p));
      JoinShape(Kept(p));
      if Kept(p) != [] { SplitJoin(Kept(p), '/'); }
    }
  }

  /** A clean path without leading or trailing space cleans to itself. */
  lemma CleanFixed(s: string)
    requires Bare(s) && '\\' !in s && Reduced(Segments(s))
    ensures Written(s) == s && CleanScope(s) == s
  {
    SlashedFixed(s);
    TrimmedLessUnlessBare(s);
    if s != "" {
      JoinSplit(s, '/');
      JoinShape(Split(s, '/'));
      ReduceKeepsReduced(Split(s, '/'));
      CleanScopeIsKept(s);
    }
  }

  function Measure(segments: seq<string>): nat {
    if segments == [] then 0 else Measure(segments[..|segments| - 1]) + |segments[|segments| - 1]| + 1
  }

  lemma {:induction false} JoinMeasure(segments: seq<string>)
    ensures segments != [] ==> |Join(segments, '/')| == Measure(segments) - 1
  {
    if |segments| > 1 { JoinMeasure(segments[..|segments| - 1]); }
  }

  lemma {:induction false} ReduceShrinks(rooted: bool, segments: seq<string>)
    ensures Measure(Reduce(rooted, segments)) <= Measure(segments)
  {
    if segments != [] {
      var front, s := segments[..|segments| - 1], segments[|segments| - 1];
      ReduceShrinks(rooted, front);
      assert (Reduce(rooted, front) + [s])[..|Reduce(rooted, front)|] == Reduce(rooted, front);
    }
  }

  /** Cleaning never lengthens a path. */
  lemma CleanScopeShrinks(p: string)
    ensures |CleanScope(p)| <= |Written(p)|
  {
    var w := Written(p);
    CleanScopeIsKept(p);
    if w != "" {
      ReduceShrinks(w[0] == '/', Split(w, '/'));
      JoinMeasure(Split(w, '/'));
      JoinMeasure(Kept(p));
      JoinSplit(w, '/');
    }
  }

  /** Cleaning twice is cleaning once exactly when the first pass leaves no space at either end. */
  lemma {:induction false} CleanScopeSettles(p: string)
    ensures CleanScope(CleanScope(p)) == CleanScope(p) <==> Bare(CleanScope(p))
  {
    var c := CleanScope(p);
    CleanScopeIsKept(p);
    SlashedFixed(c);
    TrimmedLessUnlessBare(c);
    CleanScopeShrinks(c);
    if Bare(c) { CleanFixed(c); }
  }

  /** The outermost characters of the first and the last segment are no spaces. */
  predicate EdgesBare(segments: seq<string>)
    requires Reduced(segments)
  {
    segments != [] ==>
      var last := segments[|segments| - 1];
      !IsSpace(segments[0][0]) && !IsSpace(last[|last| - 1])
  }

  lemma JoinEnds(segments: seq<string>)
    requires Reduced(segments) && segments != []
    ensures var s, last := Join(segments, '/'), segments[|segments| - 1];
            s != "" && s[0] == segments[0][0] && s[|s| - 1] == last[|last| - 1]
  {
    JoinShape(segments);
    JoinSnoc(segments[..|segments| - 1], segments[|segments| - 1], '/');
    assert segments == segments[..|segments| - 1] + [segments[|segments| - 1]];
  }

  /** The same read off the path as written: of the segments that survive cleaning, the first must
      not begin and the last not end with a space. */
  lemma CleanScopeSettlesBySegments(p: string)
    ensures Reduced(Kept(p))
    ensures CleanScope(CleanScope(p)) == CleanScope(p) <==> EdgesBare(Kept(p))
  {
    CleanScopeIsKept(p);
    CleanScopeSettles(p);
    if Kept(p) != [] { JoinEnds(Kept(p)); }
  }

  lemma {:induction false} ReduceKeepsOnly(rooted: bool, segments: seq<string>)
    ensures forall i | 0 <= i < |Reduce(rooted, segments)| :: Reduce(rooted, segments)[i] in segments
  {
    if segments != [] {
      ReduceKeepsOnly(rooted, segments[..|segments| - 1]);
      assert segments[|segments| - 1] in segments;
      assert forall s | s in segments[..|segments| - 1] :: s in segments;
    }
  }

  /** So a path none of whose segments begins or ends with a space cleans once and for all. */
  lemma BareSegmentsSettle(p: string)
    requires forall s | s in Split(Written(p), '/') :: Bare(s)
    ensures CleanScope(CleanScope(p)) == CleanScope(p)
  {
    CleanScopeSettlesBySegments(p);
    if Written(p) != "" { ReduceKeepsOnly(Written(p)[0] == '/', Split(Written(p), '/')); }
  }

  lemma DotDotFirst(segments: seq<string>)
    requires Reduced(segments)
    ensures (segments != [] && segments[0] == "..") <==> Join(segments, '/') == ".." || HasPrefix(Join(segments, '/'), "../")
  {
    JoinShape(segments);
    SplitUnbroken("..", '/');
    if segments != [] { SplitJoin(segments, '/'); }
    CoversIsSegmentPrefix("..", Join(segments, '/'));
    assert ".." + "/" == "../";
  }

  /** A relative path escapes exactly when its reduced form starts with `..`. */
  lemma EscapesWhenDotDotFirst(p: string)
    requires Written(p) != "" ==> Written(p)[0] != '/'
    ensures Escapes(Written(p)) <==> Kept(p) != [] && Kept(p)[0] == ".."
  {
    CleanScopeIsKept(p);
    DotDotFirst(Kept(p));
  }
}
