/** The attribution reader, `internal/git/blame.go`: a parser fed the lines of `git blame
    --porcelain` (git-blame(1), "The Porcelain Format") one at a time. */
module BlameParser {
  import opened Sequences
  import opened Strings

  datatype Commit = Commit(sha: string, author: string, authorTime: int, summary: string, uncommitted: bool)

  datatype Blame = Blame(commits: seq<Commit>, lines: seq<int>)

  const UNATTRIBUTED := -1

  /** The parser between two lines. */
  datatype State = State(
    index: map<string, nat>, commits: seq<Commit>, lines: seq<int>, limit: nat,
    sha: string, line: int, inEntry: bool)

  function Start(limit: nat): State {
    State(map[], [], [], limit, "", 0, false)
  }

  predicate Uncommitted(sha: string) {
    sha != "" && forall i | 0 <= i < |sha| :: sha[i] == '0'
  }

  // ---------------------------------------------------------------- one line at a time

  /** The index and the commits agree, lines point at commits, and an open entry's is known. */
  predicate Inv(p: State) {
    && (forall sha | sha in p.index :: p.index[sha] < |p.commits| && p.commits[p.index[sha]].sha == sha)
    && (forall i | 0 <= i < |p.commits| :: p.commits[i].sha in p.index && p.index[p.commits[i].sha] == i)
    && |p.lines| <= p.limit
    && (forall i | 0 <= i < |p.lines| :: -1 <= p.lines[i] < |p.commits|)
    && (p.inEntry ==> p.sha in p.index && 1 <= p.line)
  }

  /** A group header names a commit and a line of the file. */
  predicate Opens(raw: string) {
    var fields := Fields(raw);
    |fields| >= 3 && Atoi(fields[2]).Some? && Atoi(fields[2]).value >= 1
  }

  function Open(p: State, raw: string): (q: State)
    ensures Inv(p) ==> Inv(q) && q.limit == p.limit
  {
    if !Opens(raw) then p else
    var sha, line := Fields(raw)[0], Atoi(Fields(raw)[2]).value;
    var q := p.(sha := sha, line := line, inEntry := true);
    if sha in p.index then q
    else q.(index := p.index[sha := |p.commits|], commits := p.commits + [Commit(sha, "", 0, "", Uncommitted(sha))])
  }

  /** What an extended header says of a commit. */
  function Described(c: Commit, raw: string): Commit {
    var cut := Cut(raw, ' ');
    if cut.None? then c else
    var Halves(key, value) := cut.value;
    if key == "author" then c.(author := value)
    else if key == "author-time" then (if Atoi(value).Some? then c.(authorTime := Atoi(value).value) else c)
    else if key == "summary" then c.(summary := value)
    else c
  }

  function Header(p: State, raw: string): (q: State)
    requires Inv(p) && p.inEntry
    ensures Inv(q) && q.limit == p.limit
  {
    var i := p.index[p.sha];
    p.(commits := p.commits[i := Described(p.commits[i], raw)])
  }

  function Padded(lines: seq<int>, n: nat): (r: seq<int>)
    ensures |r| == if |lines| < n then n else |lines|
    ensures forall i | 0 <= i < |r| :: r[i] == if i < |lines| then lines[i] else UNATTRIBUTED
  {
    if |lines| >= n then lines else Padded(lines, n - 1) + [UNATTRIBUTED]
  }

  function Close(p: State): (q: State)
    requires Inv(p)
    ensures Inv(q) && q.limit == p.limit
  {
    if !p.inEntry then p
    else if p.line > p.limit then p.(inEntry := false)
    else p.(lines := Padded(p.lines, p.line)[p.line - 1 := p.index[p.sha]], inEntry := false)
  }

  /** What a content line comes to: the commit of the open entry at its own line, what was skipped
      unattributed, and nothing else moved; beyond the output's lines only the entry is over. */
  lemma ContentPlaces(p: State)
    requires Inv(p) && p.inEntry
    ensures var q := Close(p);
            && !q.inEntry && q.commits == p.commits && q.index == p.index
            && (p.line > p.limit ==> q.lines == p.lines)
            && (p.line <= p.limit ==>
                  |q.lines| == (if p.line < |p.lines| then |p.lines| else p.line) && q.lines[p.line - 1] == p.index[p.sha])
            && (p.line <= p.limit ==> forall i | 0 <= i < |q.lines| && i != p.line - 1 ::
                  q.lines[i] == if i < |p.lines| then p.lines[i] else -1)
  {
  }

  function Read(p: State, raw: string): (q: State)
    requires Inv(p)
    ensures Inv(q) && q.limit == p.limit
  {
    if raw != "" && raw[0] == '\t' then Close(p)
    else if !p.inEntry then Open(p, raw)
    else Header(p, raw)
  }

  function ReadAll(p: State, raws: seq<string>): (q: State)
    requires Inv(p)
    ensures Inv(q) && q.limit == p.limit
  {
    if raws == [] then p else Read(ReadAll(p, raws[..|raws| - 1]), raws[|raws| - 1])
  }

  lemma ReadAllSnoc(p: State, raws: seq<string>, i: nat)
    requires Inv(p) && i < |raws|
    ensures ReadAll(p, raws[..i + 1]) == Read(ReadAll(p, raws[..i]), raws[i])
  {
    assert raws[..i + 1][..i] == raws[..i];
  }

  class Parser {
    var index: map<string, nat>
    var commits: seq<Commit>
    var lines: seq<int>
    const limit: nat
    var sha: string
    var line: int
    var inEntry: bool

    function View(): State
      reads this
    {
      State(index, commits, lines, limit, sha, line, inEntry)
    }

    constructor (limit: nat)
      ensures View() == Start(limit)
    {
      this.limit := limit;
      index, commits, lines, sha, line, inEntry := map[], [], [], "", 0, false;
    }

    /** `open`. */
    method OpenEntry(raw: string)
      modifies this
      ensures View() == Open(old(View()), raw)
    {
      var fields := Fields(raw);
      if |fields| < 3 { return; }
      var final := Atoi(fields[2]);
      if final.None? || final.value < 1 { return; }
      sha, line, inEntry := fields[0], final.value, true;
      if sha !in index {
        index := index[sha := |commits|];
        commits := commits + [Commit(sha, "", 0, "", Uncommitted(sha))];
      }
    }

    /** `header`. */
    method ReadHeader(raw: string)
      requires Inv(View()) && inEntry
      modifies this
      ensures View() == Header(old(View()), raw)
    {
      var cut := Cut(raw, ' ');
      var i := index[sha];
      if cut.None? {
        assert commits[i := commits[i]] == commits;
        return;
      }
      var Halves(key, value) := cut.value;
      var commit := commits[i];
      if key == "author" {
        commit := commit.(author := value);
      } else if key == "author-time" {
        var seconds := Atoi(value);
        if seconds.Some? { commit := commit.(authorTime := seconds.value); }
      } else if key == "summary" {
        commit := commit.(summary := value);
      }
      commits := commits[i := commit];
    }

    /** `close`. */
    method CloseEntry()
      requires Inv(View())
      modifies this
      ensures View() == Close(old(View()))
    {
      if !inEntry { return; }
      if line > limit {
        inEntry := false;
        return;
      }
      while |lines| < line
        invariant View() == old(View()).(lines := lines)
        invariant |lines| <= line || lines == old(lines)
        invariant lines == Padded(old(lines), |lines|) && |old(lines)| <= |lines|
      {
        lines := lines + [UNATTRIBUTED];
      }
      assert lines == Padded(old(lines), line);
      lines := lines[line - 1 := index[sha]];
      inEntry := false;
    }

    /** `read`. */
    method ReadLine(raw: string)
      requires Inv(View())
      modifies this
      ensures View() == Read(old(View()), raw)
    {
      if raw != "" && raw[0] == '\t' {
        CloseEntry();
      } else if !inEntry {
        OpenEntry(raw);
      } else {
        ReadHeader(raw);
      }
    }
  }

  /** `parseBlame`: no file has more lines than its blame does. */
  function Parsed(output: string): Blame {
    var p := ReadAll(Start(Count(output, '\n') + 1), Split(output, '\n'));
    Blame(p.commits, p.lines)
  }

  method Parse(output: string) returns (blame: Blame)
    ensures blame == Parsed(output)
  {
    var limit := Count(output, '\n') + 1;
    var parser := new Parser(limit);
    var raws := Split(output, '\n');
    ghost var start := Start(limit);
    for i := 0 to |raws|
      invariant fresh(parser)
      invariant parser.View() == ReadAll(start, raws[..i])
    {
      ReadAllSnoc(start, raws, i);
      parser.ReadLine(raws[i]);
    }
    assert raws[..|raws|] == raws;
    blame := Blame(parser.commits, parser.lines);
  }

  // ---------------------------------------------------------------- any output at all

  function Shas(commits: seq<Commit>): seq<string> {
    if commits == [] then [] else Shas(commits[..|commits| - 1]) + [commits[|commits| - 1].sha]
  }

  /** Every name once, where it first stands. */
  function FirstSeen(names: seq<string>): seq<string> {
    if names == [] then [] else
    var earlier, last := FirstSeen(names[..|names| - 1]), names[|names| - 1];
    if last in earlier then earlier else earlier + [last]
  }

  /** The line is a group header to the parser in this state. */
  predicate Names(p: State, raw: string) {
    !(raw != "" && raw[0] == '\t') && !p.inEntry && Opens(raw)
  }

  /** The commits named by the group headers, in order and as often as they are named. */
  function Opened(p: State, raws: seq<string>): seq<string>
    requires Inv(p)
  {
    if raws == [] then [] else
    var front, raw := raws[..|raws| - 1], raws[|raws| - 1];
    var q := ReadAll(p, front);
    if Names(q, raw)
    then Opened(p, front) + [Fields(raw)[0]]
    else Opened(p, front)
  }

  lemma {:induction false} ShasAt(commits: seq<Commit>)
    ensures |Shas(commits)| == |commits| && forall i | 0 <= i < |commits| :: Shas(commits)[i] == commits[i].sha
  {
    if commits != [] {
      ShasAt(commits[..|commits| - 1]);
      forall i | 0 <= i < |commits| ensures Shas(commits)[i] == commits[i].sha {
        if i < |commits| - 1 { assert commits[..|commits| - 1][i] == commits[i]; }
      }
    }
  }

  lemma ShasSame(a: seq<Commit>, b: seq<Commit>)
    requires |a| == |b| && forall i | 0 <= i < |a| :: a[i].sha == b[i].sha
    ensures Shas(a) == Shas(b)
  {
    ShasAt(a);
    ShasAt(b);
  }

  lemma ShasSnoc(commits: seq<Commit>, c: Commit)
    ensures Shas(commits + [c]) == Shas(commits) + [c.sha]
  {
    assert (commits + [c])[..|commits|] == commits;
  }

  lemma ShasAfter(p: State, raw: string)
    requires Inv(p)
    ensures var before, sha := Shas(p.commits), if Names(p, raw) then Fields(raw)[0] else "";
            Shas(Read(p, raw).commits) == if Names(p, raw) && sha !in before then before + [sha] else before
  {
    var q := Read(p, raw);
    ShasAt(p.commits);
    if Names(p, raw) {
      var sha := Fields(raw)[0];
      assert sha in p.index <==> sha in Shas(p.commits);
      ShasSnoc(p.commits, Commit(sha, "", 0, "", Uncommitted(sha)));
    } else {
      ShasSame(p.commits, q.commits);
    }
  }

  lemma FirstSeenSnoc(names: seq<string>, last: string)
    ensures FirstSeen(names + [last]) == if last in FirstSeen(names) then FirstSeen(names) else FirstSeen(names) + [last]
  {
    assert (names + [last])[..|names|] == names;
  }

  lemma {:induction false} CommitsAreFirstSeen(limit: nat, raws: seq<string>)
    ensures Shas(ReadAll(Start(limit), raws).commits) == FirstSeen(Opened(Start(limit), raws))
  {
    if raws != [] {
      var front, raw := raws[..|raws| - 1], raws[|raws| - 1];
      CommitsAreFirstSeen(limit, front);
      var p := ReadAll(Start(limit), front);
      ShasAfter(p, raw);
      if Names(p, raw) { FirstSeenSnoc(Opened(Start(limit), front), Fields(raw)[0]); }
    }
  }

  predicate ZeroMeansUncommitted(commits: seq<Commit>) {
    forall i | 0 <= i < |commits| ::
      commits[i].uncommitted <==> commits[i].sha != "" && forall j | 0 <= j < |commits[i].sha| :: commits[i].sha[j] == '0'
  }

  lemma ReadKeepsZeros(p: State, raw: string)
    requires Inv(p) && ZeroMeansUncommitted(p.commits)
    ensures ZeroMeansUncommitted(Read(p, raw).commits)
  {
  }

  lemma {:induction false} ReadAllKeepsZeros(p: State, raws: seq<string>)
    requires Inv(p) && ZeroMeansUncommitted(p.commits)
    ensures ZeroMeansUncommitted(ReadAll(p, raws).commits)
  {
    if raws != [] {
      ReadAllKeepsZeros(p, raws[..|raws| - 1]);
      ReadKeepsZeros(ReadAll(p, raws[..|raws| - 1]), raws[|raws| - 1]);
    }
  }

  /** Whatever git printed, and whatever it was cut short to: the lines are no more than the
      output's own, each is unattributed or points at a commit, and the commits are distinct, in
      the order the output first names them. */
  lemma {:induction false} AnyOutputIsSafe(output: string)
    ensures var b := Parsed(output);
            && |b.lines| <= Count(output, '\n') + 1
            && (forall i | 0 <= i < |b.lines| :: b.lines[i] == -1 || 0 <= b.lines[i] < |b.commits|)
            && (forall i, j | 0 <= i < j < |b.commits| :: b.commits[i].sha != b.commits[j].sha)
            && Shas(b.commits) == FirstSeen(Opened(Start(Count(output, '\n') + 1), Split(output, '\n')))
  {
    CommitsAreFirstSeen(Count(output, '\n') + 1, Split(output, '\n'));
  }

  /** And a commit is no commit at all exactly when its SHA is all zeros. */
  lemma UncommittedIsAllZeros(output: string)
    ensures ZeroMeansUncommitted(Parsed(output).commits)
  {
    ReadAllKeepsZeros(Start(Count(output, '\n') + 1), Split(output, '\n'));
  }
}
