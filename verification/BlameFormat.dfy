/** What git prints for `blame --porcelain` (git-blame(1), "The Porcelain Format"), and that
    reading it back gives the attribution it was printed from. */
module BlameFormat {
  import opened Sequences
  import opened Strings
  import opened BlameParser

  /** The headers of an entry that the reader has no use for (addresses, time zones, the committer,
      file names, a boundary), by where they stand among those it reads. */
  datatype Noise = Noise(first: seq<string>, afterAuthor: seq<string>, afterTime: seq<string>, last: seq<string>)

  /** One line of the file: whose it is, and what its group header, its other headers and its
      content hold besides. */
  datatype Line = Line(commit: nat, origin: string, count: string, noise: Noise, content: string)

  /** A file's blame as git has it: its commits and its lines. */
  datatype Listing = Listing(commits: seq<Commit>, file: seq<Line>)

  /** How many commits the first n lines name. */
  function Seen(file: seq<Line>, n: nat): nat
    requires n <= |file|
  {
    if n == 0 then 0 else
    var before := Seen(file, n - 1);
    if file[n - 1].commit < before then before else file[n - 1].commit + 1
  }

  predicate OneLine(s: string) {
    '\n' !in s
  }

  predicate Harmless(raw: string) {
    && OneLine(raw) && (raw == "" || raw[0] != '\t')
    && (Cut(raw, ' ').Some? ==> Cut(raw, ' ').value.before !in {"author", "author-time", "summary"})
  }

  predicate GoodCommit(c: Commit) {
    && Word(c.sha) && OneLine(c.sha) && OneLine(c.author) && OneLine(c.summary) && InRange(c.authorTime)
    && c.uncommitted == Uncommitted(c.sha)
  }

  predicate GoodLine(l: Line) {
    Word(l.origin) && OneLine(l.origin) && (l.count == "" || Word(l.count)) && OneLine(l.count) && OneLine(l.content)
  }

  predicate AllHarmless(raws: seq<string>) {
    forall i | 0 <= i < |raws| :: Harmless(raws[i])
  }

  predicate GoodNoise(noise: Noise) {
    AllHarmless(noise.first) && AllHarmless(noise.afterAuthor) && AllHarmless(noise.afterTime) && AllHarmless(noise.last)
  }

  /** Each line names one of the commits. */
  predicate Bounded(b: Listing) {
    forall n | 0 <= n < |b.file| :: b.file[n].commit < |b.commits|
  }

  predicate DistinctShas(commits: seq<Commit>) {
    forall i, j | 0 <= i < j < |commits| :: commits[i].sha != commits[j].sha
  }

  function CommitOf(b: Listing, n: nat): Commit
    requires n < |b.file| && Bounded(b)
  {
    b.commits[b.file[n].commit]
  }

  /** Line n + 1 is printable, and names a commit named before or the next one. */
  predicate GoodEntry(b: Listing, n: nat)
    requires n < |b.file| && Bounded(b)
  {
    && GoodCommit(CommitOf(b, n)) && GoodNoise(b.file[n].noise) && GoodLine(b.file[n]) && InRange(n + 1)
    && b.file[n].commit <= Seen(b.file, n)
  }

  predicate AllGood(b: Listing)
    requires Bounded(b)
  {
    forall n | 0 <= n < |b.file| :: GoodEntry(b, n)
  }

  /** Commits are distinct and numbered as the lines first name them, and every one is named. */
  predicate WellFormed(b: Listing) {
    && Bounded(b) && DistinctShas(b.commits) && AllGood(b)
    && Seen(b.file, |b.file|) == |b.commits|
  }

  function GroupHeader(sha: string, l: Line, number: nat): string {
    var short := sha + " " + l.origin + " " + IntText(number);
    if l.count == "" then short else short + " " + l.count
  }

  function ExtendedHeader(key: string, value: string): string {
    key + " " + value
  }

  /** The headers of a commit printed for the first time, with any others before, between and behind. */
  function Details(c: Commit, noise: Noise): seq<string> {
    noise.first + [ExtendedHeader("author", c.author)]
    + noise.afterAuthor + [ExtendedHeader("author-time", IntText(c.authorTime))]
    + noise.afterTime + [ExtendedHeader("summary", c.summary)]
    + noise.last
  }

  /** Those of a commit printed before: none that describe it. */
  function Repeated(noise: Noise): seq<string> {
    noise.first + noise.afterAuthor + noise.afterTime + noise.last
  }

  /** The headers of line n + 1. */
  function HeadersOf(b: Listing, n: nat): seq<string>
    requires Bounded(b) && n < |b.file|
  {
    if b.file[n].commit < Seen(b.file, n) then Repeated(b.file[n].noise) else Details(CommitOf(b, n), b.file[n].noise)
  }

  /** What is printed for line n + 1: its group header, the headers under it, its content. */
  function Entry(b: Listing, n: nat): seq<string>
    requires Bounded(b) && n < |b.file|
  {
    [GroupHeader(CommitOf(b, n).sha, b.file[n], n + 1)]
    + HeadersOf(b, n)
    + ["\t" + b.file[n].content]
  }

  function Printed(b: Listing, n: nat): (r: seq<string>)
    requires Bounded(b) && n <= |b.file|
    ensures |r| >= n
  {
    if n == 0 then [] else
    Printed(b, n - 1) + Entry(b, n - 1)
  }

  function Output(b: Listing): string
    requires Bounded(b)
  {
    Terminated(Printed(b, |b.file|), '\n')
  }

  /** The attribution of the first n lines. */
  function Attribution(file: seq<Line>, n: nat): (r: seq<int>)
    requires n <= |file|
    ensures |r| == n && forall i | 0 <= i < n :: r[i] == file[i].commit
  {
    if n == 0 then [] else Attribution(file, n - 1) + [file[n - 1].commit]
  }

  function IndexOfShas(commits: seq<Commit>, m: nat): map<string, nat>
    requires m <= |commits|
  {
    if m == 0 then map[] else IndexOfShas(commits, m - 1)[commits[m - 1].sha := m - 1]
  }

  lemma {:induction false} IndexHas(commits: seq<Commit>, m: nat)
    requires m <= |commits| && DistinctShas(commits)
    ensures forall i | 0 <= i < |commits| ::
              (commits[i].sha in IndexOfShas(commits, m) <==> i < m) && (i < m ==> IndexOfShas(commits, m)[commits[i].sha] == i)
  {
    if m > 0 { IndexHas(commits, m - 1); }
  }

  /** The parser knows the first m commits and nothing else of them. */
  predicate Knows(commits: seq<Commit>, p: State, m: nat) {
    m <= |commits| && p.index == IndexOfShas(commits, m) && p.commits == commits[..m]
  }

  /** The parser after the first n lines, but for the entry it closed last. */
  predicate Between(b: Listing, p: State, n: nat)
    requires n <= |b.file|
  {
    Knows(b.commits, p, Seen(b.file, n)) && p.lines == Attribution(b.file, n) && !p.inEntry
  }

  // ---------------------------------------------------------------- one entry

  lemma HeaderOpens(sha: string, l: Line, number: nat)
    requires Word(sha) && GoodLine(l) && 1 <= number && InRange(number)
    ensures var raw := GroupHeader(sha, l, number);
            && Opens(raw) && Fields(raw)[0] == sha && Atoi(Fields(raw)[2]) == Some(number)
            && raw != "" && raw[0] != '\t'
  {
    IntTextPlain(number);
    AtoiReadsText(number);
    FieldsOfHeader(sha, l, IntText(number));
  }

  lemma FieldsOfHeader(sha: string, l: Line, number: string)
    requires Word(sha) && GoodLine(l) && Word(number)
    ensures var short := sha + " " + l.origin + " " + number; var raw := if l.count == "" then short else short + " " + l.count;
            |Fields(raw)| >= 3 && Fields(raw)[0] == sha && Fields(raw)[2] == number && raw != "" && raw[0] == sha[0] != '\t'
  {
    FieldsOfWord(sha);
    FieldsSnoc(sha, l.origin);
    FieldsSnoc(sha + " " + l.origin, number);
    var short := sha + " " + l.origin + " " + number;
    if l.count != "" { FieldsSnoc(short, l.count); }
  }

  lemma KeysDescribe(c: Commit, value: string)
    ensures Described(c, ExtendedHeader("author", value)) == c.(author := value)
    ensures Described(c, ExtendedHeader("summary", value)) == c.(summary := value)
    ensures Atoi(value).Some? ==> Described(c, ExtendedHeader("author-time", value)) == c.(authorTime := Atoi(value).value)
  {
    CutAround("author", value, ' ');
    CutAround("summary", value, ' ');
    CutAround("author-time", value, ' ');
  }

  function DescribedBy(c: Commit, raws: seq<string>): Commit {
    if raws == [] then c else Described(DescribedBy(c, raws[..|raws| - 1]), raws[|raws| - 1])
  }

  lemma {:induction false} NoiseSaysNothing(c: Commit, raws: seq<string>, noise: seq<string>)
    requires AllHarmless(noise)
    ensures DescribedBy(c, raws + noise) == DescribedBy(c, raws)
  {
    if noise == [] {
      assert raws + noise == raws;
    } else {
      var front := noise[..|noise| - 1];
      assert (raws + noise)[..|raws + noise| - 1] == raws + front;
      NoiseSaysNothing(c, raws, front);
    }
  }

  /** One header behind any number that say nothing. */
  lemma DescribedBehind(c: Commit, raws: seq<string>, noise: seq<string>, raw: string)
    requires AllHarmless(noise)
    ensures DescribedBy(c, raws + noise + [raw]) == Described(DescribedBy(c, raws), raw)
  {
    NoiseSaysNothing(c, raws, noise);
    assert (raws + noise + [raw])[..|raws + noise|] == raws + noise;
  }

  lemma DescribedByThree(c: Commit, n: Noise, x: string, y: string, z: string)
    requires GoodNoise(n)
    ensures DescribedBy(c, n.first + [x] + n.afterAuthor + [y] + n.afterTime + [z] + n.last) ==
            Described(Described(Described(c, x), y), z)
  {
    var one := n.first + [x];
    var two := one + n.afterAuthor + [y];
    var three := two + n.afterTime + [z];
    assert [] + n.first + [x] == one;
    DescribedBehind(c, [], n.first, x);
    DescribedBehind(c, one, n.afterAuthor, y);
    DescribedBehind(c, two, n.afterTime, z);
    NoiseSaysNothing(c, three, n.last);
  }

  /** A commit's headers describe exactly that commit, whatever others are printed among them. */
  lemma DetailsDescribe(c: Commit, noise: Noise)
    requires GoodCommit(c) && GoodNoise(noise)
    ensures DescribedBy(Commit(c.sha, "", 0, "", Uncommitted(c.sha)), Details(c, noise)) == c
  {
    var blank := Commit(c.sha, "", 0, "", Uncommitted(c.sha));
    DescribedByThree(blank, noise, ExtendedHeader("author", c.author), ExtendedHeader("author-time", IntText(c.authorTime)),
      ExtendedHeader("summary", c.summary));
    KeysDescribe(blank, c.author);
    AtoiReadsText(c.authorTime);
    KeysDescribe(blank.(author := c.author), IntText(c.authorTime));
    KeysDescribe(blank.(author := c.author, authorTime := c.authorTime), c.summary);
  }

  /** And those repeated for a commit say nothing of it. */
  lemma RepeatedSayNothing(c: Commit, noise: Noise)
    requires GoodNoise(noise)
    ensures DescribedBy(c, Repeated(noise)) == c
  {
    assert [] + Repeated(noise) == Repeated(noise);
    NoiseSaysNothing(c, [], Repeated(noise));
    assert DescribedBy(c, []) == c;
  }

  /** Lines that are not content, read inside an entry, describe its commit. */
  lemma {:induction false} HeadersDescribe(p: State, raws: seq<string>)
    requires Inv(p) && p.inEntry && AreHeaders(raws)
    ensures var i := p.index[p.sha];
            ReadAll(p, raws) == p.(commits := p.commits[i := DescribedBy(p.commits[i], raws)])
  {
    if raws == [] {
      assert p.commits[p.index[p.sha] := p.commits[p.index[p.sha]]] == p.commits;
    } else {
      HeadersDescribe(p, raws[..|raws| - 1]);
    }
  }

  lemma {:induction false} ReadAllConcat(p: State, a: seq<string>, b: seq<string>)
    requires Inv(p)
    ensures ReadAll(p, a + b) == ReadAll(ReadAll(p, a), b)
  {
    if b == [] {
      assert a + b == a;
    } else {
      assert (a + b)[..|a + b| - 1] == a + b[..|b| - 1];
      ReadAllConcat(p, a, b[..|b| - 1]);
    }
  }

  lemma ReadAllOne(p: State, raw: string)
    requires Inv(p)
    ensures ReadAll(p, [raw]) == Read(p, raw)
  {
    assert [raw][..0] == [];
    assert ReadAll(p, []) == p;
  }

  /** The parser inside the entry of line n + 1, its commit known and described. */
  predicate Inside(b: Listing, p: State, n: nat)
    requires n < |b.file|
  {
    b.file[n].commit < |b.commits| &&
    Knows(b.commits, p, Seen(b.file, n + 1)) &&
    p.lines == Attribution(b.file, n) &&
    p.inEntry && p.line == n + 1 && p.sha == b.commits[b.file[n].commit].sha
  }

  /** A commit seen before is only referred to. */
  lemma OpensKnown(b: Listing, p: State, n: nat)
    requires Bounded(b) && DistinctShas(b.commits) && n < |b.file| && GoodEntry(b, n) && Inv(p) && Between(b, p, n) && b.file[n].commit < Seen(b.file, n)
    ensures Inside(b, Read(p, GroupHeader(CommitOf(b, n).sha, b.file[n], n + 1)), n)
  {
    HeaderOpens(CommitOf(b, n).sha, b.file[n], n + 1);
    IndexHas(b.commits, Seen(b.file, n));
  }

  /** And stays as it is known, whatever headers are repeated for it. */
  lemma EntersKnown(b: Listing, p: State, n: nat)
    requires Bounded(b) && DistinctShas(b.commits) && n < |b.file| && GoodEntry(b, n) && Inv(p) && Between(b, p, n) && b.file[n].commit < Seen(b.file, n)
    ensures Inside(b, ReadAll(Read(p, GroupHeader(CommitOf(b, n).sha, b.file[n], n + 1)), Repeated(b.file[n].noise)), n)
  {
    var q := Read(p, GroupHeader(CommitOf(b, n).sha, b.file[n], n + 1));
    OpensKnown(b, p, n);
    RepeatedAreHeaders(b.file[n].noise);
    HeadersDescribe(q, Repeated(b.file[n].noise));
    RepeatedSayNothing(q.commits[q.index[q.sha]], b.file[n].noise);
    assert q.commits[q.index[q.sha] := q.commits[q.index[q.sha]]] == q.commits;
  }

  /** A commit seen for the first time is registered, nothing known of it yet. */
  lemma Registers(b: Listing, p: State, n: nat)
    requires Bounded(b) && DistinctShas(b.commits) && n < |b.file| && GoodEntry(b, n) && Inv(p) && Between(b, p, n) && b.file[n].commit == Seen(b.file, n)
    ensures var k, sha := b.file[n].commit, CommitOf(b, n).sha;
            Read(p, GroupHeader(sha, b.file[n], n + 1)) ==
            p.(sha := sha, line := n + 1, inEntry := true, index := p.index[sha := k],
               commits := p.commits + [Commit(sha, "", 0, "", Uncommitted(sha))])
  {
    HeaderOpens(CommitOf(b, n).sha, b.file[n], n + 1);
    IndexHas(b.commits, b.file[n].commit);
  }

  /** And its details describe it. */
  lemma EntersNew(b: Listing, p: State, n: nat)
    requires Bounded(b) && DistinctShas(b.commits) && n < |b.file| && GoodEntry(b, n) && Inv(p) && Between(b, p, n) && b.file[n].commit == Seen(b.file, n)
    ensures Inside(b, ReadAll(Read(p, GroupHeader(CommitOf(b, n).sha, b.file[n], n + 1)), Details(CommitOf(b, n), b.file[n].noise)), n)
  {
    var c, noise := CommitOf(b, n), b.file[n].noise;
    Registers(b, p, n);
    var q := Read(p, GroupHeader(c.sha, b.file[n], n + 1));
    DetailsAreHeaders(c, noise);
    HeadersDescribe(q, Details(c, noise));
    DetailsDescribe(c, noise);
    DescribesTheLast(b, p, q, n);
    NewIsInside(b, p, ReadAll(q, Details(c, noise)), n);
  }

  /** The parser once the commit of line n + 1 is known and described. */
  predicate JustEntered(b: Listing, p: State, r: State, n: nat)
    requires n < |b.file| && b.file[n].commit < |b.commits|
  {
    var c := b.commits[b.file[n].commit];
    r == p.(sha := c.sha, line := n + 1, inEntry := true, index := p.index[c.sha := b.file[n].commit], commits := p.commits + [c])
  }

  lemma DescribesTheLast(b: Listing, p: State, q: State, n: nat)
    requires Bounded(b) && n < |b.file| && b.file[n].commit < |b.commits| && Inv(q)
    requires var k, sha := b.file[n].commit, CommitOf(b, n).sha;
             |p.commits| == k && q == p.(sha := sha, line := n + 1, inEntry := true, index := p.index[sha := k],
                  commits := p.commits + [Commit(sha, "", 0, "", Uncommitted(sha))])
    ensures var k := b.file[n].commit;
            k == q.index[q.sha] && q.commits[k] == Commit(q.sha, "", 0, "", Uncommitted(q.sha)) &&
            JustEntered(b, p, q.(commits := q.commits[k := CommitOf(b, n)]), n)
  {
  }

  lemma KnowsOneMore(commits: seq<Commit>, p: State, r: State, k: nat)
    requires k < |commits| && Knows(commits, p, k)
    requires r.index == p.index[commits[k].sha := k] && r.commits == p.commits + [commits[k]]
    ensures Knows(commits, r, k + 1)
  {
    TakeOneMore(commits, k);
  }

  lemma NewIsInside(b: Listing, p: State, r: State, n: nat)
    requires n < |b.file| && Between(b, p, n) && b.file[n].commit == Seen(b.file, n) < |b.commits|
    requires JustEntered(b, p, r, n)
    ensures Inside(b, r, n)
  {
    KnowsOneMore(b.commits, p, r, b.file[n].commit);
    SeenIsNext(b.file, n);
  }

  lemma SeenIsNext(file: seq<Line>, n: nat)
    requires n < |file| && file[n].commit == Seen(file, n)
    ensures Seen(file, n + 1) == file[n].commit + 1
  {
  }

  lemma TakeOneMore<T>(s: seq<T>, k: nat)
    requires k < |s|
    ensures s[..k + 1] == s[..k] + [s[k]]
  {
  }

  /** One line each, and none of content. */
  predicate AreHeaders(raws: seq<string>) {
    forall i | 0 <= i < |raws| :: OneLine(raws[i]) && (raws[i] == "" || raws[i][0] != '\t')
  }

  lemma HeadersConcat(a: seq<string>, b: seq<string>)
    requires AreHeaders(a) && AreHeaders(b)
    ensures AreHeaders(a + b)
  {
  }

  lemma DetailsAreHeaders(c: Commit, noise: Noise)
    requires GoodCommit(c) && GoodNoise(noise)
    ensures AreHeaders(Details(c, noise))
  {
    IntTextPlain(c.authorTime);
    var x, y, z := [ExtendedHeader("author", c.author)], [ExtendedHeader("author-time", IntText(c.authorTime))], [ExtendedHeader("summary", c.summary)];
    HeadersConcat(noise.first, x);
    HeadersConcat(noise.first + x, noise.afterAuthor);
    HeadersConcat(noise.first + x + noise.afterAuthor, y);
    HeadersConcat(noise.first + x + noise.afterAuthor + y, noise.afterTime);
    HeadersConcat(noise.first + x + noise.afterAuthor + y + noise.afterTime, z);
    HeadersConcat(noise.first + x + noise.afterAuthor + y + noise.afterTime + z, noise.last);
  }

  lemma RepeatedAreHeaders(noise: Noise)
    requires GoodNoise(noise)
    ensures AreHeaders(Repeated(noise))
  {
  }

  lemma Leaves(b: Listing, p: State, n: nat)
    requires Bounded(b) && DistinctShas(b.commits) && n < |b.file| && Inv(p) && Inside(b, p, n) && n + 1 <= p.limit
    ensures Between(b, Read(p, "\t" + b.file[n].content), n + 1)
  {
    IndexHas(b.commits, Seen(b.file, n + 1));
    var q := Read(p, "\t" + b.file[n].content);
    assert q == Close(p);
    assert Padded(p.lines, n + 1)[n := b.file[n].commit] == Attribution(b.file, n + 1);
  }

  lemma {:induction false} ReadsEntry(b: Listing, p: State, n: nat)
    requires Bounded(b) && DistinctShas(b.commits) && n < |b.file| && GoodEntry(b, n) && Inv(p) && Between(b, p, n) && n + 1 <= p.limit
    ensures Between(b, ReadAll(p, Entry(b, n)), n + 1)
  {
    var l := b.file[n];
    var head, content := GroupHeader(CommitOf(b, n).sha, l, n + 1), "\t" + l.content;
    if l.commit < Seen(b.file, n) { EntersKnown(b, p, n); } else { EntersNew(b, p, n); }
    Leaves(b, ReadAll(Read(p, head), HeadersOf(b, n)), n);
    ReadAllPieces(p, head, HeadersOf(b, n), content);
  }

  lemma ReadAllPieces(p: State, head: string, details: seq<string>, content: string)
    requires Inv(p)
    ensures ReadAll(p, [head] + details + [content]) == Read(ReadAll(Read(p, head), details), content)
  {
    ReadAllOne(p, head);
    ReadAllOne(ReadAll(Read(p, head), details), content);
    ReadAllConcat(p, [head], details);
    ReadAllConcat(p, [head] + details, [content]);
  }

  lemma {:induction false} ReadsPrinted(b: Listing, limit: nat, n: nat)
    requires Bounded(b) && DistinctShas(b.commits) && AllGood(b) && n <= |b.file| && n <= limit
    ensures Between(b, ReadAll(Start(limit), Printed(b, n)), n)
  {
    if n > 0 {
      ReadsPrinted(b, limit, n - 1);
      var front, last := Printed(b, n - 1), Entry(b, n - 1);
      ReadsEntry(b, ReadAll(Start(limit), front), n - 1);
      ReadAllConcat(Start(limit), front, last);
      assert Printed(b, n) == front + last;
    }
  }

  // ---------------------------------------------------------------- the whole output

  predicate AllLines(raws: seq<string>) {
    forall i | 0 <= i < |raws| :: OneLine(raws[i])
  }

  lemma LinesConcat(a: seq<string>, b: seq<string>)
    requires AllLines(a) && AllLines(b)
    ensures AllLines(a + b)
  {
  }

  lemma EntryIsLines(b: Listing, n: nat)
    requires Bounded(b) && n < |b.file| && GoodEntry(b, n)
    ensures AllLines(Entry(b, n))
  {
    var head, headers, content := GroupHeader(CommitOf(b, n).sha, b.file[n], n + 1), HeadersOf(b, n), "\t" + b.file[n].content;
    GroupHeaderIsALine(CommitOf(b, n).sha, b.file[n], n + 1);
    HeadersAreLines(b, n);
    LinesConcat([head], headers);
    LinesConcat([head] + headers, [content]);
  }

  lemma HeadersAreLines(b: Listing, n: nat)
    requires Bounded(b) && n < |b.file| && GoodEntry(b, n)
    ensures AllLines(HeadersOf(b, n))
  {
    if b.file[n].commit < Seen(b.file, n) { RepeatedAreHeaders(b.file[n].noise); } else { DetailsAreHeaders(CommitOf(b, n), b.file[n].noise); }
  }

  lemma GroupHeaderIsALine(sha: string, l: Line, number: nat)
    requires OneLine(sha) && GoodLine(l)
    ensures OneLine(GroupHeader(sha, l, number))
  {
    IntTextPlain(number);
  }

  lemma {:induction false} PrintedIsLines(b: Listing, n: nat)
    requires Bounded(b) && AllGood(b) && n <= |b.file|
    ensures AllLines(Printed(b, n))
  {
    if n > 0 {
      var front, last := Printed(b, n - 1), Entry(b, n - 1);
      assert Printed(b, n) == front + last;
      PrintedIsLines(b, n - 1);
      EntryIsLines(b, n - 1);
      LinesConcat(front, last);
    }
  }

  /** The empty piece behind the last newline says nothing. */
  lemma TailSaysNothing(p: State, raws: seq<string>)
    requires Inv(p) && !ReadAll(p, raws).inEntry
    ensures ReadAll(p, raws + [""]) == ReadAll(p, raws)
  {
    ReadAllConcat(p, raws, [""]);
    ReadAllOne(ReadAll(p, raws), "");
    assert Fields("") == [];
  }

  lemma ReadsOutput(b: Listing, limit: nat)
    requires WellFormed(b) && |b.file| <= limit
    ensures var p := ReadAll(Start(limit), Printed(b, |b.file|) + [""]);
            p.commits == b.commits && p.lines == Attribution(b.file, |b.file|)
  {
    ReadsPrinted(b, limit, |b.file|);
    TailSaysNothing(Start(limit), Printed(b, |b.file|));
    assert b.commits[..|b.commits|] == b.commits;
  }

  lemma ParsedPieces(output: string, raws: seq<string>, p: State)
    requires Split(output, '\n') == raws && p == ReadAll(Start(|raws|), raws)
    ensures Parsed(output) == Blame(p.commits, p.lines)
  {
    SplitCounts(output, '\n');
    assert Count(output, '\n') + 1 == |raws|;
  }

  /** Printing a blame and reading it back is the identity. */
  lemma BlameRoundTrip(b: Listing)
    requires WellFormed(b)
    ensures Parsed(Output(b)) == Blame(b.commits, Attribution(b.file, |b.file|))
  {
    var raws := Printed(b, |b.file|) + [""];
    PrintedIsLines(b, |b.file|);
    TerminatedSplits(Printed(b, |b.file|), '\n');
    ParsedPieces(Output(b), raws, ReadAll(Start(|raws|), raws));
    ReadsOutput(b, |raws|);
  }

  // ---------------------------------------------------------------- git's own headers

  /** A header under any other key says nothing. */
  lemma OtherKeysAreHarmless(key: string, value: string)
    requires key != "" && key[0] != '\t' && ' ' !in key && OneLine(key) && OneLine(value)
    requires key !in {"author", "author-time", "summary"}
    ensures Harmless(ExtendedHeader(key, value))
  {
    CutAround(key, value, ' ');
  }

  datatype Person = Person(name: string, mail: string, time: string, zone: string)

  /** What git prints among the headers that are read: the author's address and zone, the committer,
      the file's name at that commit. */
  function GitNoise(author: Person, committer: Person, filename: string): Noise {
    Noise([],
      [ExtendedHeader("author-mail", author.mail)],
      [ExtendedHeader("author-tz", author.zone), ExtendedHeader("committer", committer.name), ExtendedHeader("committer-mail", committer.mail)]
      + [ExtendedHeader("committer-time", committer.time), ExtendedHeader("committer-tz", committer.zone)],
      [ExtendedHeader("filename", filename)])
  }

  predicate PlainPerson(p: Person) {
    OneLine(p.name) && OneLine(p.mail) && OneLine(p.time) && OneLine(p.zone)
  }

  /** The entry of a commit as git prints it is one of those read back. */
  lemma GitNoiseIsGood(author: Person, committer: Person, filename: string)
    requires PlainPerson(author) && PlainPerson(committer) && OneLine(filename)
    ensures GoodNoise(GitNoise(author, committer, filename))
  {
    OtherKeysAreHarmless("author-mail", author.mail);
    OtherKeysAreHarmless("author-tz", author.zone);
    OtherKeysAreHarmless("committer", committer.name);
    OtherKeysAreHarmless("committer-mail", committer.mail);
    OtherKeysAreHarmless("committer-time", committer.time);
    OtherKeysAreHarmless("committer-tz", committer.zone);
    OtherKeysAreHarmless("filename", filename);
  }
}
