/** The working-tree status reader, `internal/git/status.go`, against the format git-status(1)
    calls "Porcelain Format Version 2" with NUL-terminated records. */
module GitStatus {
  import opened Sequences
  import opened Strings

  datatype Side = Same | Added | Deleted | Renamed | Copied | Modified | Untracked

  datatype File = File(path: string, staged: Side, worktree: Side, origin: string, conflicted: bool)

  datatype Branch = Branch(name: string, upstream: string, ahead: int, behind: int, detached: bool, unborn: bool)

  datatype Status = Status(branch: Branch, files: seq<File>)

  const EMPTY := Status(Branch("", "", 0, 0, false, false), [])

  // ---------------------------------------------------------------- the reader

  /** `splitRecords`. */
  function SplitRecords(output: string): seq<string> {
    var records := Split(output, '\0');
    if records[|records| - 1] == "" then records[..|records| - 1] else records
  }

  function SideOf(code: char): Side {
    match code
    case '.' => Same
    case 'A' => Added
    case 'D' => Deleted
    case 'R' => Renamed
    case 'C' => Copied
    case _ => Modified
  }

  function OrdinaryEntry(rest: string): Option<File> {
    var fields := SplitN(rest, ' ', 8);
    if |fields| < 8 || |fields[0]| < 2 then None
    else Some(File(fields[7], SideOf(fields[0][0]), SideOf(fields[0][1]), "", false))
  }

  function RenamedEntry(rest: string, origin: string): Option<File> {
    var fields := SplitN(rest, ' ', 9);
    if |fields| < 9 || |fields[0]| < 2 then None
    else Some(File(fields[8], SideOf(fields[0][0]), SideOf(fields[0][1]), origin, false))
  }

  function UnmergedEntry(rest: string): Option<File> {
    var fields := SplitN(rest, ' ', 10);
    if |fields| < 10 then None else Some(File(fields[9], Same, Same, "", true))
  }

  function SignedCount(field: string, sign: char): int {
    if field == "" || field[0] != sign then 0 else
    var n := Atoi(field[1..]);
    if n.None? || n.value < 0 then 0 else n.value
  }

  function ApplyHeader(branch: Branch, rest: string): Branch {
    var cut := Cut(rest, ' ');
    if cut.None? then branch else
    var Halves(key, value) := cut.value;
    if key == "branch.oid" then branch.(unborn := value == "(initial)")
    else if key == "branch.head" then
      if value == "(detached)" then branch.(detached := true) else branch.(name := value)
    else if key == "branch.upstream" then branch.(upstream := value)
    else if key == "branch.ab" then
      var counts := Cut(value, ' ');
      if counts.None? then branch.(ahead := 0, behind := 0)
      else branch.(ahead := SignedCount(counts.value.before, '+'), behind := SignedCount(counts.value.after, '-'))
    else branch
  }

  function Extended(status: Status, file: Option<File>): Status {
    if file.None? then status else status.(files := status.files + [file.value])
  }

  /** What the record at the front does to the status, and how many records it takes. */
  function ReadOne(records: seq<string>, status: Status): (r: (Status, nat))
    requires records != []
    ensures 1 <= r.1 <= |records|
  {
    var cut := Cut(records[0], ' ');
    if cut.None? then (status, 1) else
    var Halves(kind, rest) := cut.value;
    if kind == "#" then (status.(branch := ApplyHeader(status.branch, rest)), 1)
    else if kind == "1" then (Extended(status, OrdinaryEntry(rest)), 1)
    else if kind == "2" then
      if |records| > 1 then (Extended(status, RenamedEntry(rest, records[1])), 2)
      else (Extended(status, RenamedEntry(rest, "")), 1)
    else if kind == "u" then (Extended(status, UnmergedEntry(rest)), 1)
    else if kind == "?" then (Extended(status, Some(File(rest, Same, Untracked, "", false))), 1)
    else (status, 1)
  }

  function ReadAll(records: seq<string>, status: Status): Status {
    if records == [] then status else
    var (next, taken) := ReadOne(records, status);
    ReadAll(records[taken..], next)
  }

  /** `takeNext`: the record behind the cursor, which moves onto it. */
  method TakeNext(records: seq<string>, i: nat) returns (origin: string, at: nat)
    requires i < |records|
    ensures if i + 1 < |records| then origin == records[i + 1] && at == i + 1 else origin == "" && at == i
  {
    if i + 1 >= |records| { return "", i; }
    return records[i + 1], i + 1;
  }

  /** `entryOf`. */
  method EntryOf(kind: string, rest: string, records: seq<string>, i: nat) returns (file: Option<File>, at: nat)
    requires i < |records| && Cut(records[i], ' ') == Some(Halves(kind, rest)) && kind != "#"
    ensures i <= at < |records|
    ensures forall status :: ReadOne(records[i..], status) == (Extended(status, file), at - i + 1)
  {
    at := i;
    if kind == "1" {
      file := OrdinaryEntry(rest);
    } else if kind == "2" {
      var origin;
      origin, at := TakeNext(records, i);
      file := RenamedEntry(rest, origin);
    } else if kind == "u" {
      file := UnmergedEntry(rest);
    } else if kind == "?" {
      file := Some(File(rest, Same, Untracked, "", false));
    } else {
      file := None;
    }
  }

  /** `parse`. */
  method Parse(output: string) returns (status: Status)
    ensures status == ReadAll(SplitRecords(output), EMPTY)
  {
    status := EMPTY;
    var records := SplitRecords(output);
    var i := 0;
    while i < |records|
      invariant i <= |records|
      invariant ReadAll(records[i..], status) == ReadAll(records, EMPTY)
    {
      var cut := Cut(records[i], ' ');
      ghost var from, was := i, status;
      if cut.Some? {
        var Halves(kind, rest) := cut.value;
        if kind == "#" {
          status := status.(branch := ApplyHeader(status.branch, rest));
        } else {
          var file;
          file, i := EntryOf(kind, rest, records, i);
          status := Extended(status, file);
        }
      }
      i := i + 1;
      assert records[from..][i - from..] == records[i..];
      assert ReadOne(records[from..], was) == (status, i - from);
    }
  }

  // ---------------------------------------------------------------- the format

  /** A record as git writes it. The fields a reader has no use for are arbitrary. */
  datatype Record =
    | Oid(value: string)
    | Head(value: string)
    | Upstream(value: string)
    | AheadBehind(ahead: int, behind: int)
    | OtherHeader(key: string, value: string)
    | Ordinary(fields: seq<string>, path: string)                 // XY first
    | Moved(fields: seq<string>, path: string, origin: string)    // XY first
    | Unmerged(fields: seq<string>, path: string)
    | New(path: string)
    | Other(text: string)

  predicate Plain(s: string) {
    '\0' !in s
  }

  predicate Token(s: string) {
    '\0' !in s && ' ' !in s
  }

  predicate Tokens(fields: seq<string>) {
    forall i | 0 <= i < |fields| :: Token(fields[i])
  }

  const KINDS := {"#", "1", "2", "u", "?"}
  const KEYS := {"branch.oid", "branch.head", "branch.upstream", "branch.ab"}

  /** The fields between a record's kind and its path. Paths may hold anything but NUL. */
  predicate WellFormed(r: Record) {
    match r
    case Oid(value) => Plain(value)
    case Head(value) => Plain(value)
    case Upstream(value) => Plain(value)
    case AheadBehind(ahead, behind) => 0 <= ahead && InRange(ahead) && 0 <= behind && InRange(behind)
    case OtherHeader(key, value) => Token(key) && key !in KEYS && Plain(value)
    case Ordinary(fields, path) => |fields| == 7 && |fields[0]| == 2 && Tokens(fields) && Plain(path)
    case Moved(fields, path, origin) =>
      |fields| == 8 && |fields[0]| == 2 && Tokens(fields) && Plain(path) && Plain(origin)
    case Unmerged(fields, path) => |fields| == 9 && Tokens(fields) && Plain(path)
    case New(path) => Plain(path)
    case Other(text) => Plain(text) && (Cut(text, ' ').Some? ==> Cut(text, ' ').value.before !in KINDS)
  }

  predicate AllWellFormed(rs: seq<Record>) {
    forall i | 0 <= i < |rs| :: WellFormed(rs[i])
  }

  function CountsText(ahead: int, behind: int): string {
    ("+" + IntText(ahead)) + " " + ("-" + IntText(behind))
  }

  /** The record's kind, and the fields behind it. */
  function Lead(r: Record): (string, seq<string>) {
    match r
    case Oid(_) => ("#", ["branch.oid"])
    case Head(_) => ("#", ["branch.head"])
    case Upstream(_) => ("#", ["branch.upstream"])
    case AheadBehind(_, _) => ("#", ["branch.ab"])
    case OtherHeader(key, _) => ("#", [key])
    case Ordinary(fields, _) => ("1", fields)
    case Moved(fields, _, _) => ("2", fields)
    case Unmerged(fields, _) => ("u", fields)
    case New(_) => ("?", [])
    case Other(_) => ("", [])
  }

  /** What follows them, spaces and all. */
  function Trail(r: Record): string {
    match r
    case AheadBehind(ahead, behind) => CountsText(ahead, behind)
    case Ordinary(_, path) => path
    case Moved(_, path, _) => path
    case Unmerged(_, path) => path
    case New(path) => path
    case Other(text) => text
    case _ => r.value
  }

  function Text(r: Record): string {
    if r.Other? then r.text else Lead(r).0 + " " + Spaced(Lead(r).1, Trail(r))
  }

  /** The NUL-terminated pieces of a record: one, or for a rename two. */
  function Pieces(r: Record): seq<string> {
    if r.Moved? then [Text(r), r.origin] else [Text(r)]
  }

  function AllPieces(rs: seq<Record>): seq<string> {
    if rs == [] then [] else Pieces(rs[0]) + AllPieces(rs[1..])
  }

  function Print(rs: seq<Record>): string {
    Terminated(AllPieces(rs), '\0')
  }

  function Changed(fields: seq<string>, path: string, origin: string): File {
    if fields == [] || |fields[0]| < 2 then File(path, Same, Same, origin, false)
    else File(path, SideOf(fields[0][0]), SideOf(fields[0][1]), origin, false)
  }

  /** What a record says. */
  function Meaning(status: Status, r: Record): Status {
    match r
    case Oid(value) => status.(branch := status.branch.(unborn := value == "(initial)"))
    case Head(value) =>
      if value == "(detached)" then status.(branch := status.branch.(detached := true))
      else status.(branch := status.branch.(name := value))
    case Upstream(value) => status.(branch := status.branch.(upstream := value))
    case AheadBehind(ahead, behind) => status.(branch := status.branch.(ahead := ahead, behind := behind))
    case OtherHeader(key, value) => status
    case Ordinary(fields, path) => status.(files := status.files + [Changed(fields, path, "")])
    case Moved(fields, path, origin) => status.(files := status.files + [Changed(fields, path, origin)])
    case Unmerged(fields, path) => status.(files := status.files + [File(path, Same, Same, "", true)])
    case New(path) => status.(files := status.files + [File(path, Same, Untracked, "", false)])
    case Other(text) => status
  }

  function MeaningOf(status: Status, rs: seq<Record>): Status
    decreases |rs|
  {
    if rs == [] then status else MeaningOf(Meaning(status, rs[0]), rs[1..])
  }

  // ---------------------------------------------------------------- reading what was printed

  lemma PiecesComeBack(pieces: seq<string>)
    requires forall i | 0 <= i < |pieces| :: Plain(pieces[i])
    ensures SplitRecords(Terminated(pieces, '\0')) == pieces
  {
    TerminatedSplits(pieces, '\0');
  }

  /** Nor is a last record lost whose terminator is missing. */
  lemma TerminatorMayBeMissing(pieces: seq<string>)
    requires pieces != [] && pieces[|pieces| - 1] != "" && forall i | 0 <= i < |pieces| :: Plain(pieces[i])
    ensures SplitRecords(Join(pieces, '\0')) == pieces
  {
    SplitJoin(pieces, '\0');
  }

  lemma TrailPlain(r: Record)
    requires WellFormed(r)
    ensures Plain(Trail(r)) && Plain(Lead(r).0) && Tokens(Lead(r).1)
  {
    if r.AheadBehind? {
      IntTextPlain(r.ahead);
      IntTextPlain(r.behind);
    }
  }

  lemma PiecesPlain(r: Record)
    requires WellFormed(r)
    ensures forall i | 0 <= i < |Pieces(r)| :: Plain(Pieces(r)[i])
  {
    TrailPlain(r);
    SpacedKeepsOut(Lead(r).1, Trail(r), '\0');
  }

  lemma {:induction false} AllPiecesPlain(rs: seq<Record>)
    requires AllWellFormed(rs)
    ensures forall i | 0 <= i < |AllPieces(rs)| :: Plain(AllPieces(rs)[i])
  {
    if rs != [] {
      PiecesPlain(rs[0]);
      AllPiecesPlain(rs[1..]);
    }
  }

  predicate IsHeader(r: Record) {
    r.Oid? || r.Head? || r.Upstream? || r.AheadBehind? || r.OtherHeader?
  }

  lemma HeaderSays(status: Status, r: Record)
    requires WellFormed(r) && IsHeader(r)
    ensures status.(branch := ApplyHeader(status.branch, Spaced(Lead(r).1, Trail(r)))) == Meaning(status, r)
  {
    var key := Lead(r).1[0];
    assert Spaced([key], Trail(r)) == key + " " + Trail(r);
    CutAround(key, Trail(r), ' ');
    if r.AheadBehind? { CountsComeBack(r.ahead, r.behind); }
  }

  lemma ReadsHeader(status: Status, r: Record, rest: seq<string>)
    requires WellFormed(r) && IsHeader(r)
    ensures ReadOne([Text(r)] + rest, status) == (Meaning(status, r), 1)
  {
    CutAround("#", Spaced(Lead(r).1, Trail(r)), ' ');
    HeaderSays(status, r);
  }

  lemma CountsComeBack(ahead: int, behind: int)
    requires 0 <= ahead && InRange(ahead) && 0 <= behind && InRange(behind)
    ensures var cut := Cut(CountsText(ahead, behind), ' ');
            cut.Some? && SignedCount(cut.value.before, '+') == ahead && SignedCount(cut.value.after, '-') == behind
  {
    IntTextPlain(ahead);
    CutAround("+" + IntText(ahead), "-" + IntText(behind), ' ');
    AtoiReadsText(ahead);
    AtoiReadsText(behind);
    assert ("+" + IntText(ahead))[1..] == IntText(ahead);
    assert ("-" + IntText(behind))[1..] == IntText(behind);
  }

  lemma KindComesBack(r: Record)
    requires WellFormed(r) && (r.Ordinary? || r.Moved? || r.Unmerged?)
    ensures Cut(Text(r), ' ') == Some(Halves(Lead(r).0, Spaced(r.fields, r.path)))
  {
    CutAround(Lead(r).0, Spaced(r.fields, r.path), ' ');
  }

  lemma ReadsInPlace(status: Status, r: Record, rest: seq<string>)
    requires WellFormed(r) && (r.Ordinary? || r.Unmerged?)
    ensures ReadOne([Text(r)] + rest, status) == (Meaning(status, r), 1)
  {
    KindComesBack(r);
    EntryComesBack(r);
  }

  lemma ReadsMoved(status: Status, r: Record, rest: seq<string>)
    requires WellFormed(r) && r.Moved?
    ensures ReadOne([Text(r), r.origin] + rest, status) == (Meaning(status, r), 2)
  {
    KindComesBack(r);
    EntryComesBack(r);
  }

  lemma EntryComesBack(r: Record)
    requires WellFormed(r) && (r.Ordinary? || r.Moved? || r.Unmerged?)
    ensures r.Ordinary? ==> OrdinaryEntry(Spaced(r.fields, r.path)) == Some(Changed(r.fields, r.path, ""))
    ensures r.Moved? ==> RenamedEntry(Spaced(r.fields, r.path), r.origin) == Some(Changed(r.fields, r.path, r.origin))
    ensures r.Unmerged? ==> UnmergedEntry(Spaced(r.fields, r.path)) == Some(File(r.path, Same, Same, "", true))
  {
    SplitNSpaced(r.fields, r.path);
    var all := r.fields + [r.path];
    assert all[0] == r.fields[0] && all[|r.fields|] == r.path;
  }

  lemma ReadsRecord(status: Status, r: Record, rest: seq<string>)
    requires WellFormed(r)
    ensures ReadOne(Pieces(r) + rest, status) == (Meaning(status, r), |Pieces(r)|)
  {
    if r.Ordinary? || r.Unmerged? {
      ReadsInPlace(status, r, rest);
    } else if r.Moved? {
      ReadsMoved(status, r, rest);
    } else if r.New? {
      CutAround("?", r.path, ' ');
    } else if !r.Other? {
      ReadsHeader(status, r, rest);
    }
  }

  lemma {:induction false} ReadsAll(status: Status, rs: seq<Record>)
    requires AllWellFormed(rs)
    ensures ReadAll(AllPieces(rs), status) == MeaningOf(status, rs)
    decreases |rs|
  {
    if rs != [] {
      ReadsRecord(status, rs[0], AllPieces(rs[1..]));
      assert AllPieces(rs)[|Pieces(rs[0])|..] == AllPieces(rs[1..]);
      ReadsAll(Meaning(status, rs[0]), rs[1..]);
    }
  }

  /** Reading printed records gives back what they say, whatever the paths hold: in particular
      the source path behind a rename is never read as a record of its own, and a record of an
      unknown kind costs nothing but itself. */
  lemma ParseUndoesPrint(rs: seq<Record>)
    requires AllWellFormed(rs)
    ensures ReadAll(SplitRecords(Print(rs)), EMPTY) == MeaningOf(EMPTY, rs)
  {
    AllPiecesPlain(rs);
    PiecesComeBack(AllPieces(rs));
    ReadsAll(EMPTY, rs);
  }

  // ---------------------------------------------------------------- a whole status

  function Code(side: Side): char {
    match side
    case Same => '.'
    case Added => 'A'
    case Deleted => 'D'
    case Renamed => 'R'
    case Copied => 'C'
    case Modified => 'M'
    case Untracked => '?'
  }

  /** What git can say of one path. */
  predicate Expressible(f: File) {
    && Plain(f.path) && Plain(f.origin)
    && (f.conflicted || f.worktree == Untracked ==> f.staged == Same && f.origin == "")
    && (f.conflicted ==> f.worktree == Same)
    && f.staged != Untracked
  }

  function RecordOf(f: File): Record {
    var xy := [Code(f.staged), Code(f.worktree)];
    if f.conflicted then Unmerged(["UU", "N...", "1", "1", "1", "1", "a", "b", "c"], f.path)
    else if f.worktree == Untracked then New(f.path)
    else if f.origin == "" then Ordinary([xy, "N...", "1", "1", "1", "a", "b"], f.path)
    else Moved([xy, "N...", "1", "1", "1", "a", "b", "R100"], f.path, f.origin)
  }

  function FileRecords(files: seq<File>): seq<Record> {
    if files == [] then [] else [RecordOf(files[0])] + FileRecords(files[1..])
  }

  predicate ExpressibleBranch(b: Branch) {
    && Plain(b.name) && Plain(b.upstream) && b.name != "(detached)" && (b.detached ==> b.name == "")
    && 0 <= b.ahead && InRange(b.ahead) && 0 <= b.behind && InRange(b.behind)
  }

  function BranchRecords(b: Branch): seq<Record> {
    [Oid(if b.unborn then "(initial)" else "abc"), Head(if b.detached then "(detached)" else b.name),
     Upstream(b.upstream), AheadBehind(b.ahead, b.behind)]
  }

  lemma RecordSays(status: Status, f: File)
    requires Expressible(f)
    ensures WellFormed(RecordOf(f)) && Meaning(status, RecordOf(f)) == status.(files := status.files + [f])
  {
    var xy := [Code(f.staged), Code(f.worktree)];
    assert ' ' !in xy && '\0' !in xy;
  }

  predicate AllExpressible(files: seq<File>) {
    forall i | 0 <= i < |files| :: Expressible(files[i])
  }

  lemma {:induction false} FileRecordsWellFormed(files: seq<File>)
    requires AllExpressible(files)
    ensures AllWellFormed(FileRecords(files))
  {
    if files != [] {
      RecordSays(EMPTY, files[0]);
      FileRecordsWellFormed(files[1..]);
    }
  }

  lemma {:induction false} FileRecordsSay(status: Status, files: seq<File>)
    requires AllExpressible(files)
    ensures MeaningOf(status, FileRecords(files)) == status.(files := status.files + files)
    decreases |files|
  {
    if files != [] {
      RecordSays(status, files[0]);
      var next := status.(files := status.files + [files[0]]);
      FileRecordsSay(next, files[1..]);
      MeaningOfFirst(status, RecordOf(files[0]), FileRecords(files[1..]));
      assert next.files + files[1..] == status.files + files;
    }
  }

  lemma BranchRecordsWellFormed(b: Branch, rs: seq<Record>)
    requires ExpressibleBranch(b) && AllWellFormed(rs)
    ensures AllWellFormed(BranchRecords(b) + rs)
  {
  }

  lemma BranchRecordsSay(b: Branch, rs: seq<Record>)
    requires ExpressibleBranch(b)
    ensures MeaningOf(EMPTY, BranchRecords(b) + rs) == MeaningOf(Status(b, []), rs)
  {
    var r := BranchRecords(b);
    FourFirst(EMPTY, r[0], r[1], r[2], r[3], rs);
    assert r == [r[0], r[1], r[2], r[3]];
  }

  lemma FourFirst(status: Status, a: Record, b: Record, c: Record, d: Record, rs: seq<Record>)
    ensures MeaningOf(status, [a, b, c, d] + rs) == MeaningOf(Meaning(Meaning(Meaning(Meaning(status, a), b), c), d), rs)
  {
    assert [a, b, c, d] + rs == [a] + ([b] + ([c] + ([d] + rs)));
    MeaningOfFirst(status, a, [b] + ([c] + ([d] + rs)));
    MeaningOfFirst(Meaning(status, a), b, [c] + ([d] + rs));
    MeaningOfFirst(Meaning(Meaning(status, a), b), c, [d] + rs);
    MeaningOfFirst(Meaning(Meaning(Meaning(status, a), b), c), d, rs);
  }

  lemma MeaningOfFirst(status: Status, r: Record, rs: seq<Record>)
    ensures MeaningOf(status, [r] + rs) == MeaningOf(Meaning(status, r), rs)
  {
    assert ([r] + rs)[1..] == rs;
  }

  /** Printing a status and reading it back is the identity. */
  lemma StatusRoundTrip(status: Status)
    requires ExpressibleBranch(status.branch) && AllExpressible(status.files)
    ensures ReadAll(SplitRecords(Print(BranchRecords(status.branch) + FileRecords(status.files))), EMPTY) == status
  {
    FileRecordsWellFormed(status.files);
    FileRecordsSay(Status(status.branch, []), status.files);
    BranchRecordsWellFormed(status.branch, FileRecords(status.files));
    BranchRecordsSay(status.branch, FileRecords(status.files));
    ParseUndoesPrint(BranchRecords(status.branch) + FileRecords(status.files));
  }
}
