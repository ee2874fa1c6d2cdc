/** What cleaning a path comes to, on the paths as they are written (`cleanScope` and `escapes` of
    `internal/project/binding.go`): `..` takes the segment before it away, `.` and empty segments say
    nothing, and a path escapes when it climbs above where it started. */
module PathLaws {
  import opened Sequences
  import opened Strings
  import opened Paths

  /** A segment that names something. */
  predicate Name(segment: string) {
    segment != "" && segment != "." && segment != ".." && '/' !in segment && '\\' !in segment
  }

  // ---------------------------------------------------------------- on segments

  lemma ReduceSnoc(rooted: bool, segments: seq<string>, s: string)
    ensures (segments + [s])[..|segments|] == segments
    ensures s == "" || s == "." ==> Reduce(rooted, segments + [s]) == Reduce(rooted, segments)
    ensures Name(s) ==> Reduce(rooted, segments + [s]) == Reduce(rooted, segments) + [s]
  {
    assert (segments + [s])[..|segments|] == segments;
  }

  /** What stands behind matters only by what is left in front of it. */
  lemma {:induction false} ReduceOnward(rooted: bool, a: seq<string>, b: seq<string>, rest: seq<string>)
    requires Reduce(rooted, a) == Reduce(rooted, b)
    ensures Reduce(rooted, a + rest) == Reduce(rooted, b + rest)
  {
    if rest == [] {
      assert a + rest == a && b + rest == b;
    } else {
      var front, last := rest[..|rest| - 1], rest[|rest| - 1];
      ReduceOnward(rooted, a, b, front);
      ReduceStep(rooted, a + front, b + front, last);
      assert a + rest == a + front + [last] && b + rest == b + front + [last];
    }
  }

  lemma ReduceStep(rooted: bool, a: seq<string>, b: seq<string>, s: string)
    requires Reduce(rooted, a) == Reduce(rooted, b)
    ensures Reduce(rooted, a + [s]) == Reduce(rooted, b + [s])
  {
    assert (a + [s])[..|a|] == a && (b + [s])[..|b|] == b;
  }

  lemma UpTakesName(rooted: bool, segments: seq<string>, s: string)
    requires Name(s)
    ensures Reduce(rooted, segments + [s] + [".."]) == Reduce(rooted, segments)
  {
    var named := segments + [s];
    ReduceSnoc(rooted, segments, s);
    assert (named + [".."])[..|named|] == named;
    assert (Reduce(rooted, segments) + [s])[..|Reduce(rooted, segments)|] == Reduce(rooted, segments);
  }

  // ---------------------------------------------------------------- on what is written

  lemma {:induction false} SlashedConcat(a: string, b: string)
    ensures Slashed(a + b) == Slashed(a) + Slashed(b)
  {
    if b == "" {
      assert a + b == a;
    } else {
      assert (a + b)[..|a + b| - 1] == a + b[..|b| - 1];
      SlashedConcat(a, b[..|b| - 1]);
    }
  }

  lemma {:induction false} TrimLeftStops(a: string, b: string)
    requires b != "" && !IsSpace(b[0])
    ensures TrimLeft(a + b) == TrimLeft(a) + b
  {
    if a == "" {
      assert a + b == b;
    } else if IsSpace(a[0]) {
      assert (a + b)[1..] == a[1..] + b;
      TrimLeftStops(a[1..], b);
    }
  }

  lemma {:induction false} TrimRightStops(a: string, b: string)
    requires a != "" && !IsSpace(a[|a| - 1])
    ensures TrimRight(a + b) == a + TrimRight(b)
  {
    if b == "" {
      assert a + b == a;
    } else if IsSpace(b[|b| - 1]) {
      assert (a + b)[..|a + b| - 1] == a + b[..|b| - 1];
      TrimRightStops(a, b[..|b| - 1]);
    }
  }

  /** What is left of the text in front of a separator, and of the text behind one. */
  function Ahead(a: string): string {
    TrimLeft(Slashed(a))
  }

  function Behind(b: string): string {
    TrimRight(Slashed(b))
  }

  /** Trimming reaches only what stands outside the outermost separators. */
  lemma WrittenAround(a: string, mid: string, b: string)
    requires mid != "" && mid[0] == '/' && mid[|mid| - 1] == '/' && '\\' !in mid
    ensures Written(a + mid + b) == Ahead(a) + mid + Behind(b)
  {
    SlashedConcat(a + mid, b);
    SlashedConcat(a, mid);
    SlashedFixed(mid);
    Assoc(Slashed(a), mid, Slashed(b));
    assert (mid + Slashed(b))[0] == '/';
    TrimLeftStops(Slashed(a), mid + Slashed(b));
    Assoc(Ahead(a), mid, Slashed(b));
    assert (Ahead(a) + mid)[|Ahead(a) + mid| - 1] == '/';
    TrimRightStops(Ahead(a) + mid, Slashed(b));
  }

  /** The path is written from the root: nothing, or a separator, comes first. */
  predicate Rooted(ahead: string) {
    ahead == "" || ahead[0] == '/'
  }

  lemma KeptAround(a: string, b: string)
    ensures Kept(a + "/" + b) == Reduce(Rooted(Ahead(a)), Split(Ahead(a), '/') + Split(Behind(b), '/'))
  {
    WrittenAround(a, "/", b);
    SplitAround(Ahead(a), Behind(b), '/');
    Slash(Ahead(a), Behind(b));
  }

  lemma SplitBetween(a: string, m: string, b: string)
    ensures Split(a + ("/" + m + "/") + b, '/') == Split(a, '/') + Split(m, '/') + Split(b, '/')
  {
    Regroup(a, m, b);
    SplitAround(m, b, '/');
    SplitAround(a, m + ['/'] + b, '/');
    Assoc(Split(a, '/'), Split(m, '/'), Split(b, '/'));
  }

  lemma Regroup(a: string, m: string, b: string)
    ensures a + ("/" + m + "/") + b == a + ['/'] + (m + ['/'] + b)
  {
    assert "/" == ['/'];
  }

  lemma Slash(a: string, b: string)
    ensures a + ("/" + b) == a + ['/'] + b == a + "/" + b
    ensures (a + "/" + b)[0] == if a == "" then '/' else a[0]
  {
    assert "/" == ['/'];
  }

  lemma KeptBetween(a: string, m: string, b: string)
    requires '\\' !in m
    ensures Kept(a + ("/" + m + "/") + b) ==
            Reduce(Rooted(Ahead(a)), Split(Ahead(a), '/') + Split(m, '/') + Split(Behind(b), '/'))
  {
    var mid := "/" + m + "/";
    WrittenAround(a, mid, b);
    SplitBetween(Ahead(a), m, Behind(b));
    assert (Ahead(a) + mid + Behind(b))[0] == if Ahead(a) == "" then '/' else Ahead(a)[0];
  }

  lemma SplitUp(s: string)
    requires Name(s)
    ensures Split(s + "/" + "..", '/') == [s] + [".."]
  {
    SplitAround(s, "..", '/');
    SplitUnbroken(s, '/');
    SplitUnbroken("..", '/');
    assert s + "/" + ".." == s + ['/'] + "..";
  }

  /** The same segments are kept, so the same path is. */
  lemma SameKept(p: string, q: string)
    requires Kept(p) == Kept(q)
    ensures CleanScope(p) == CleanScope(q)
  {
    CleanScopeIsKept(p);
    CleanScopeIsKept(q);
  }

  /** A name and the `..` behind it say nothing, whatever stands around them. */
  lemma UpCancelsName(a: string, s: string, b: string)
    requires Name(s)
    ensures CleanScope(a + ("/" + (s + "/" + "..") + "/") + b) == CleanScope(a + "/" + b)
  {
    var front, rest, rooted := Split(Ahead(a), '/'), Split(Behind(b), '/'), Rooted(Ahead(a));
    KeptBetween(a, s + "/" + "..", b);
    KeptAround(a, b);
    SplitUp(s);
    UpTakesName(rooted, front, s);
    assert front + ([s] + [".."]) == front + [s] + [".."];
    ReduceOnward(rooted, front + [s] + [".."], front, rest);
    SameKept(a + ("/" + (s + "/" + "..") + "/") + b, a + "/" + b);
  }

  /** Nor do `.` and an empty segment. */
  lemma DotSaysNothing(a: string, dot: string, b: string)
    requires dot == "." || dot == ""
    ensures CleanScope(a + ("/" + dot + "/") + b) == CleanScope(a + "/" + b)
  {
    var front, rest, rooted := Split(Ahead(a), '/'), Split(Behind(b), '/'), Rooted(Ahead(a));
    KeptBetween(a, dot, b);
    KeptAround(a, b);
    SplitUnbroken(dot, '/');
    ReduceSnoc(rooted, front, dot);
    ReduceOnward(rooted, front + [dot], front, rest);
    SameKept(a + ("/" + dot + "/") + b, a + "/" + b);
  }

  /** There is nothing above the root. */
  lemma NothingAboveRoot(b: string)
    ensures CleanScope("" + ("/" + ".." + "/") + b) == CleanScope("" + "/" + b)
  {
    var front, rest := Split(Ahead(""), '/'), Split(Behind(b), '/');
    KeptBetween("", "..", b);
    KeptAround("", b);
    SplitUnbroken("..", '/');
    SplitUnbroken("", '/');
    assert Slashed("") == "" && Ahead("") == "";
    assert front == [""] && front[..0] == [];
    assert Reduce(true, front) == [];
    assert (front + [".."])[..1] == front;
    ReduceOnward(true, front + [".."], front, rest);
    SameKept("" + ("/" + ".." + "/") + b, "" + "/" + b);
  }

  /** A backslash separates as a slash does. */
  lemma BackslashIsSlash(a: string, b: string)
    ensures CleanScope(a + ['\\'] + b) == CleanScope(a + ['/'] + b)
  {
    forall c | c == '\\' || c == '/' ensures Slashed(a + [c] + b) == Slashed(a) + ['/'] + Slashed(b) {
      SlashedConcat(a + [c], b);
      SlashedConcat(a, [c]);
      assert [c][..0] == "" && Slashed("") == "";
      assert Slashed([c]) == ['/'];
    }
  }

  /** Space around a path says nothing. */
  lemma SpaceSaysNothing(c: char, p: string)
    requires IsSpace(c)
    ensures CleanScope([c] + p) == CleanScope(p) == CleanScope(p + [c])
  {
    SlashedFixed([c]);
    SlashedConcat([c], p);
    SlashedConcat(p, [c]);
    TrimConsSpace(c, Slashed(p));
    TrimSnocSpace(Slashed(p), c);
  }

  lemma TrimConsSpace(c: char, s: string)
    requires IsSpace(c)
    ensures Trim([c] + s) == Trim(s)
  {
    assert ([c] + s)[1..] == s;
  }

  lemma {:induction false} TrimSnocSpace(s: string, c: char)
    requires IsSpace(c)
    ensures Trim(s + [c]) == Trim(s)
  {
    if s == "" {
      assert s + [c] == [c] && [c][1..] == "";
    } else if IsSpace(s[0]) {
      assert (s + [c])[1..] == s[1..] + [c];
      TrimSnocSpace(s[1..], c);
    } else {
      assert (s + [c])[..|s|] == s;
    }
  }

  // ---------------------------------------------------------------- at the two ends

  lemma KeptOf(p: string)
    ensures Kept(p) == Reduce(Written(p) != "" && Written(p)[0] == '/', Split(Written(p), '/'))
  {
    if Written(p) == "" {
      SplitUnbroken("", '/');
      assert [""][..0] == [];
      assert Reduce(false, [""]) == [];
    }
  }

  /** At the end of a path: what is ahead of it must not end in a space, which would be trimmed. */
  lemma UpCancelsLastName(a: string, s: string)
    requires Name(s) && (a != "" ==> !IsSpace(a[|a| - 1]))
    ensures CleanScope(a + ("/" + (s + "/" + ".."))) == CleanScope(a)
  {
    SplitUp(s);
    KeptAtTheEnd(a, s + "/" + "..");
    KeptUntrimmed(a);
    var front := Split(Ahead(a), '/');
    assert front + ([s] + [".."]) == front + [s] + [".."];
    UpTakesName(Rooted(Ahead(a)), front, s);
    SameKept(a + ("/" + (s + "/" + "..")), a);
  }

  lemma KeptAtTheEnd(a: string, up: string)
    requires up != "" && !IsSpace(up[|up| - 1]) && '\\' !in up
    ensures Kept(a + ("/" + up)) == Reduce(Rooted(Ahead(a)), Split(Ahead(a), '/') + Split(up, '/'))
  {
    WrittenEnd(a, "/" + up);
    SplitAround(Ahead(a), up, '/');
    Slash(Ahead(a), up);
  }

  lemma KeptUntrimmed(a: string)
    requires a != "" ==> !IsSpace(a[|a| - 1])
    ensures Kept(a) == Reduce(Rooted(Ahead(a)), Split(Ahead(a), '/'))
  {
    WrittenUntrimmed(a);
    if Ahead(a) == "" { ReduceEmpty(); }
  }

  lemma ReduceEmpty()
    ensures forall rooted :: Reduce(rooted, Split("", '/')) == []
  {
    SplitUnbroken("", '/');
    assert [""][..0] == [];
  }

  lemma WrittenEnd(a: string, tail: string)
    requires tail != "" && tail[0] == '/' && !IsSpace(tail[|tail| - 1]) && '\\' !in tail
    ensures Written(a + tail) == Ahead(a) + tail
  {
    SlashedConcat(a, tail);
    SlashedFixed(tail);
    TrimLeftStops(Slashed(a), tail);
    assert (Ahead(a) + tail)[|Ahead(a) + tail| - 1] == tail[|tail| - 1];
  }

  lemma WrittenUntrimmed(a: string)
    requires a != "" ==> !IsSpace(a[|a| - 1])
    ensures Written(a) == Ahead(a)
  {
    TrimLeftBare(Slashed(a));
    if a != "" { assert Slashed(a)[|a| - 1] == if a[|a| - 1] == '\\' then '/' else a[|a| - 1]; }
  }

  /** At its beginning: the name must be written bare, and what follows must neither begin with a
      space nor be rooted. */
  lemma UpCancelsFirstName(s: string, b: string)
    requires Name(s) && Bare(s) && (b != "" ==> !IsSpace(b[0]) && b[0] != '/' && b[0] != '\\')
    ensures CleanScope((s + "/" + "..") + "/" + b) == CleanScope(b)
  {
    SplitUp(s);
    KeptAtTheStart(s + "/" + "..", b);
    WrittenFollowing(b);
    KeptOf(b);
    assert [] + [s] + [".."] == [s] + [".."] && [] + Split(Behind(b), '/') == Split(Behind(b), '/');
    UpTakesName(false, [], s);
    ReduceOnward(false, [s] + [".."], [], Split(Behind(b), '/'));
    SameKept((s + "/" + "..") + "/" + b, b);
  }

  lemma KeptAtTheStart(up: string, b: string)
    requires up != "" && '\\' !in up && !IsSpace(up[0]) && up[0] != '/'
    ensures Kept(up + "/" + b) == Reduce(false, Split(up, '/') + Split(Behind(b), '/'))
  {
    WrittenStart(up, b);
    SplitAround(up, Behind(b), '/');
    Slash(up, Behind(b));
  }

  lemma WrittenStart(up: string, b: string)
    requires up != "" && '\\' !in up && !IsSpace(up[0])
    ensures Written(up + "/" + b) == up + "/" + Behind(b)
  {
    SlashedConcat(up + "/", b);
    SlashedFixed(up + "/");
    assert (up + "/" + Slashed(b))[0] == up[0];
    TrimRightStops(up + "/", Slashed(b));
  }

  lemma WrittenFollowing(b: string)
    requires b != "" ==> !IsSpace(b[0]) && b[0] != '/' && b[0] != '\\'
    ensures Written(b) == Behind(b) && (Behind(b) != "" ==> Behind(b)[0] != '/')
  {
    TrimRightBare(Slashed(b));
    if b != "" { SlashedFirst(b); }
  }

  lemma {:induction false} SlashedFirst(s: string)
    requires s != ""
    ensures Slashed(s)[0] == if s[0] == '\\' then '/' else s[0]
  {
    if |s| > 1 { SlashedFirst(s[..|s| - 1]); }
  }

  // ---------------------------------------------------------------- escaping

  /** How far a walk along these segments has come down, less how far it has climbed. */
  function Net(segments: seq<string>): int {
    if segments == [] then 0 else
    var s := segments[|segments| - 1];
    Net(segments[..|segments| - 1]) + if s == "" || s == "." then 0 else if s == ".." then -1 else 1
  }

  lemma NetSnoc(segments: seq<string>, s: string)
    ensures Net(segments + [s]) == Net(segments) + if s == "" || s == "." then 0 else if s == ".." then -1 else 1
  {
    assert (segments + [s])[..|segments|] == segments;
  }

  lemma {:induction false} ReduceKeepsNet(segments: seq<string>)
    ensures Net(Reduce(false, segments)) == Net(segments)
  {
    if segments != [] {
      var front, s := segments[..|segments| - 1], segments[|segments| - 1];
      var kept := Reduce(false, front);
      ReduceKeepsNet(front);
      NetSnoc(kept, s);
      ReduceIsProper(front);
    }
  }

  lemma {:induction false} ReduceIsProper(segments: seq<string>)
    ensures forall i | 0 <= i < |Reduce(false, segments)| :: Reduce(false, segments)[i] != "" && Reduce(false, segments)[i] != "."
    ensures forall i, j | 0 <= i < j < |Reduce(false, segments)| && Reduce(false, segments)[j] == ".." :: Reduce(false, segments)[i] == ".."
  {
    if segments != [] { ReduceIsProper(segments[..|segments| - 1]); }
  }

  /** Without a `..` in front there is none. */
  lemma {:induction false} NetOfNames(kept: seq<string>)
    requires forall i | 0 <= i < |kept| :: kept[i] != "" && kept[i] != "." && kept[i] != ".."
    ensures Net(kept) == |kept|
  {
    if kept != [] { NetOfNames(kept[..|kept| - 1]); }
  }

  /** Somewhere along the way the walk is above where it started. */
  predicate Climbed(segments: seq<string>) {
    exists n :: 0 <= n <= |segments| && Net(segments[..n]) < 0
  }

  lemma ClimbedSnoc(segments: seq<string>, s: string)
    ensures Climbed(segments + [s]) <==> Climbed(segments) || Net(segments + [s]) < 0
  {
    var all := segments + [s];
    assert all[..|all|] == all;
    if n :| 0 <= n <= |segments| && Net(segments[..n]) < 0 { assert all[..n] == segments[..n]; }
    if n :| 0 <= n <= |all| && Net(all[..n]) < 0 && n < |all| { assert all[..n] == segments[..n]; }
  }

  lemma {:induction false} ClimbingLeavesUp(segments: seq<string>)
    ensures var kept := Reduce(false, segments); kept != [] && kept[0] == ".." <==> Climbed(segments)
  {
    if segments == [] {
      assert forall n | 0 <= n <= |segments| :: segments[..n] == [];
    } else {
      var front, s := segments[..|segments| - 1], segments[|segments| - 1];
      assert segments == front + [s];
      ClimbingLeavesUp(front);
      ClimbedSnoc(front, s);
      NetSnoc(front, s);
      ReduceKeepsNet(front);
      ReduceIsProper(front);
      var kept := Reduce(false, front);
      if !Climbed(front) { NetOfNames(kept); }
    }
  }

  /** A relative path escapes exactly when, followed segment by segment, it has at some point climbed
      more often than it came down. */
  lemma EscapesWhenItClimbs(p: string)
    requires Written(p) != "" ==> Written(p)[0] != '/'
    ensures Escapes(Written(p)) <==> Climbed(Split(Written(p), '/'))
  {
    EscapesWhenDotDotFirst(p);
    KeptOf(p);
    ClimbingLeavesUp(Split(Written(p), '/'));
  }
}
