/** A blame through whole runs of installs and edits, `frontend/src/lib/blameMarks.ts`: what the
    column names is never anything git did not measure, and an edit disturbs only the lines it
    touches. */
module BlameTracking {
  import opened Sequences
  import opened TextLines
  import opened BlameMarks

  /** What was last installed, and the document it was installed on. */
  datatype Origin = Nothing | Measured(blame: Blame, doc: string)

  datatype State = State(doc: string, installed: bool, anchors: Anchors, origin: Origin)

  /** One editor transaction: at most one replacement, and perhaps a blame installed or cleared. */
  datatype Transaction = Transaction(change: Option<Change>, effect: Option<Option<Blame>>)

  function After(doc: string, change: Option<Change>): string {
    if change.Some? && Fits(doc, change.value) then Apply(doc, change.value) else doc
  }

  function Next(s: State, t: Transaction): State {
    var doc := After(s.doc, t.change);
    match t.effect
    case Some(None) => State(doc, false, [], Nothing)
    case Some(Some(blame)) => State(doc, true, Installed(blame, doc, LinesToWalk(blame, doc)), Measured(blame, doc))
    case None =>
      if t.change.Some? && Fits(s.doc, t.change.value)
      then s.(doc := doc, anchors := Moved(s.anchors, s.doc, t.change.value))
      else s
  }

  /** Whichever is shorter, the blame or the document, bounds the walk. */
  function LinesToWalk(blame: Blame, doc: string): (n: nat)
    ensures n <= |Starts(doc)|
  {
    if |blame.lines| <= |Starts(doc)| then |blame.lines| else |Starts(doc)|
  }

  function Run(doc: string, transactions: seq<Transaction>): State {
    if transactions == [] then State(doc, false, [], Nothing)
    else Next(Run(doc, transactions[..|transactions| - 1]), transactions[|transactions| - 1])
  }

  // ---------------------------------------------------------------- the field's update, step by step

  /** `marksFor`. */
  function MarksOf(blame: Option<Blame>, doc: string): Marks {
    if blame.None? then NO_MARKS
    else Draw(true, Installed(blame.value, doc, LinesToWalk(blame.value, doc)), doc)
  }

  /** The state field's `update`, from the marks alone. */
  function Updated(m: Marks, doc: string, t: Transaction): Marks {
    var next := After(doc, t.change);
    if t.effect.Some? then MarksOf(t.effect.value, next)
    else if t.change.Some? && Fits(doc, t.change.value) then Draw(m.installed, Moved(m.anchors, doc, t.change.value), next)
    else m
  }

  /** The document, and the marks the field holds, after a run of transactions from nothing. */
  function MarksAfter(doc: string, transactions: seq<Transaction>): Marks {
    if transactions == [] then NO_MARKS else
    var front, t := transactions[..|transactions| - 1], transactions[|transactions| - 1];
    Updated(MarksAfter(doc, front), Run(doc, front).doc, t)
  }

  /** The marks follow the state: after any run they are what its anchors draw on its document. */
  lemma {:induction false} MarksFollow(doc: string, transactions: seq<Transaction>)
    ensures MarksAfter(doc, transactions) == Drawing(Run(doc, transactions))
  {
    if transactions != [] { MarksFollow(doc, transactions[..|transactions| - 1]); }
  }

  function Drawing(s: State): Marks {
    Draw(s.installed, s.anchors, s.doc)
  }

  method MarksFor(blame: Option<Blame>, doc: string) returns (m: Marks)
    ensures m == MarksOf(blame, doc)
  {
    if blame.None? { return NO_MARKS; }
    var anchors: Anchors := [];
    var starts := Starts(doc);
    for number := 0 to LinesToWalk(blame.value, doc)
      invariant anchors == Installed(blame.value, doc, number)
    {
      var commit := CommitAt(blame.value, number + 1);
      if commit.Some? && !commit.value.uncommitted {
        assert starts[number] in starts;
        anchors := Put(anchors, starts[number], Anchor(LineText(doc, starts[number]), commit.value));
      }
    }
    m := DrawMarks(true, anchors, doc);
  }

  /** `movedAnchors`. */
  method MovedAnchors(anchors: Anchors, doc: string, c: Change) returns (moved: Anchors)
    requires Fits(doc, c)
    ensures moved == Moved(anchors, doc, c)
  {
    moved := [];
    for i := 0 to |anchors|
      invariant moved == Moved(anchors[..i], doc, c)
    {
      assert anchors[..i + 1][..i] == anchors[..i];
      var to := MapPos(c, anchors[i].at);
      if to.Some? && to.value <= |Apply(doc, c)| {
        var from := LineFrom(Apply(doc, c), to.value);
        moved := KeepBest(moved, from, anchors[i].anchor, LineText(Apply(doc, c), from));
      }
    }
    assert anchors[..|anchors|] == anchors;
  }

  method Update(m: Marks, was: string, t: Transaction) returns (next: Marks)
    ensures next == Updated(m, was, t)
  {
    var doc := After(was, t.change);
    match t.effect
    case Some(blame) => next := MarksFor(blame, doc);
    case None =>
      if t.change.None? || !Fits(was, t.change.value) { return m; }
      var moved := MovedAnchors(m.anchors, was, t.change.value);
      next := DrawMarks(m.installed, moved, doc);
  }

  /** The editor feeding transactions to the field, one by one. */
  method Follow(doc: string, transactions: seq<Transaction>) returns (m: Marks, now: string)
    ensures m == MarksAfter(doc, transactions) && now == Run(doc, transactions).doc
  {
    m, now := NO_MARKS, doc;
    for i := 0 to |transactions|
      invariant m == MarksAfter(doc, transactions[..i]) && now == Run(doc, transactions[..i]).doc
    {
      assert transactions[..i + 1][..i] == transactions[..i];
      m := Update(m, now, transactions[i]);
      now := After(now, transactions[i].change);
    }
    assert transactions[..|transactions|] == transactions;
  }

  // ---------------------------------------------------------------- what holds in every run

  /** Some line of the blame reads this way and names this commit. */
  ghost predicate Sourced(origin: Origin, a: Anchor) {
    origin.Measured? &&
    exists line: nat | line < |Starts(origin.doc)| ::
      Starts(origin.doc)[line] <= |origin.doc| &&
      Whose(origin.blame, line) == Some(a.commit) &&
      a.text == LineText(origin.doc, Starts(origin.doc)[line])
  }

  ghost predicate Pinned(doc: string, origin: Origin, pin: Pin) {
    IsStart(doc, pin.at) && Sourced(origin, pin.anchor)
  }

  ghost predicate AllPinned(doc: string, origin: Origin, anchors: Anchors) {
    forall pin | pin in anchors :: Pinned(doc, origin, pin)
  }

  ghost predicate Inv(s: State) {
    && Distinct(s.anchors) && Ascending(s.anchors)
    && AllPinned(s.doc, s.origin, s.anchors)
    && (s.installed <==> s.origin.Measured?)
  }

  lemma {:induction false} PutElements(anchors: Anchors, at: nat, anchor: Anchor, pin: Pin)
    requires pin in Put(anchors, at, anchor)
    ensures pin == Pin(at, anchor) || pin in anchors
  {
    if anchors != [] {
      var front, last := anchors[..|anchors| - 1], anchors[|anchors| - 1];
      assert anchors == front + [last];
      if last.at != at && Get(front, at).Some? && pin != last { PutElements(front, at, anchor, pin); }
    }
  }

  lemma PutPinned(doc: string, origin: Origin, anchors: Anchors, at: nat, anchor: Anchor)
    requires AllPinned(doc, origin, anchors) && Pinned(doc, origin, Pin(at, anchor))
    ensures AllPinned(doc, origin, Put(anchors, at, anchor))
  {
    forall pin | pin in Put(anchors, at, anchor) ensures Pinned(doc, origin, pin) {
      PutElements(anchors, at, anchor, pin);
    }
  }

  lemma {:induction false} InstalledPinned(blame: Blame, doc: string, n: nat)
    requires n <= |Starts(doc)|
    ensures Distinct(Installed(blame, doc, n)) && AllPinned(doc, Measured(blame, doc), Installed(blame, doc, n))
  {
    if n > 0 {
      InstalledPinned(blame, doc, n - 1);
      var from := Starts(doc)[n - 1];
      assert from in Starts(doc);
      if Attributed(blame, n).Some? {
        var anchor := Anchor(LineText(doc, from), Attributed(blame, n).value);
        AttributedIs(blame, n - 1);
        assert Sourced(Measured(blame, doc), anchor);
        DistinctPut(Installed(blame, doc, n - 1), from, anchor);
        PutPinned(doc, Measured(blame, doc), Installed(blame, doc, n - 1), from, anchor);
      }
    }
  }

  lemma {:induction false} MovedPinned(doc: string, origin: Origin, anchors: Anchors, c: Change)
    requires Fits(doc, c) && AllPinned(doc, origin, anchors)
    ensures Distinct(Moved(anchors, doc, c)) && AllPinned(Apply(doc, c), origin, Moved(anchors, doc, c))
  {
    if anchors != [] {
      var front, last := anchors[..|anchors| - 1], anchors[|anchors| - 1];
      assert anchors == front + [last];
      MovedPinned(doc, origin, front, c);
      var from := Landing(last.at, doc, c);
      if from.Some? {
        assert Pinned(doc, origin, last);
        assert Pinned(Apply(doc, c), origin, Pin(from.value, last.anchor));
        DistinctPut(Moved(front, doc, c), from.value, last.anchor);
        PutPinned(Apply(doc, c), origin, Moved(front, doc, c), from.value, last.anchor);
      }
    }
  }

  lemma {:induction false} InstalledAscending(blame: Blame, doc: string, n: nat)
    requires n <= |Starts(doc)|
    ensures Ascending(Installed(blame, doc, n))
    ensures n < |Starts(doc)| ==> Before(Installed(blame, doc, n), Starts(doc)[n])
  {
    if n > 0 {
      InstalledAscending(blame, doc, n - 1);
      var front, from := Installed(blame, doc, n - 1), Starts(doc)[n - 1];
      assert from in Starts(doc);
      if Attributed(blame, n).Some? {
        var anchor := Anchor(LineText(doc, from), Attributed(blame, n).value);
        PutAscending(front, from, anchor);
        forall pin | pin in Put(front, from, anchor) ensures pin.at <= from { PutElements(front, from, anchor, pin); }
      }
    }
  }

  /** Anchors keep their order through an edit. */
  lemma LandingMonotone(doc: string, c: Change, p: nat, q: nat)
    requires Fits(doc, c) && p <= q && Landing(p, doc, c).Some? && Landing(q, doc, c).Some?
    ensures Landing(p, doc, c).value <= Landing(q, doc, c).value
  {
    LineFromMonotone(Apply(doc, c), MapPos(c, p).value, MapPos(c, q).value);
  }

  lemma {:induction false} MovedCameFrom(anchors: Anchors, doc: string, c: Change, pin: Pin)
    requires Fits(doc, c) && pin in Moved(anchors, doc, c)
    ensures exists p | p in anchors :: Landing(p.at, doc, c) == Some(pin.at)
  {
    var front, last := anchors[..|anchors| - 1], anchors[|anchors| - 1];
    assert anchors == front + [last];
    var to := Landing(last.at, doc, c);
    if to.Some? && pin !in Moved(front, doc, c) {
      PutElements(Moved(front, doc, c), to.value, last.anchor, pin);
      assert last in anchors;
    } else {
      MovedCameFrom(front, doc, c, pin);
    }
  }

  lemma {:induction false} MovedAscending(doc: string, anchors: Anchors, c: Change)
    requires Fits(doc, c) && Ascending(anchors)
    ensures Ascending(Moved(anchors, doc, c))
  {
    if anchors != [] {
      var front, last := anchors[..|anchors| - 1], anchors[|anchors| - 1];
      MovedAscending(doc, front, c);
      var to, moved := Landing(last.at, doc, c), Moved(front, doc, c);
      if to.Some? {
        forall pin | pin in moved ensures pin.at <= to.value {
          MovedCameFrom(front, doc, c, pin);
          var p :| p in front && Landing(p.at, doc, c) == Some(pin.at);
          LandingMonotone(doc, c, p.at, last.at);
        }
        PutAscending(moved, to.value, last.anchor);
      }
    }
  }

  lemma InvKept(s: State, t: Transaction)
    requires Inv(s)
    ensures Inv(Next(s, t))
  {
    var doc := After(s.doc, t.change);
    match t.effect
    case Some(None) =>
    case Some(Some(blame)) =>
      InstalledPinned(blame, doc, LinesToWalk(blame, doc));
      InstalledAscending(blame, doc, LinesToWalk(blame, doc));
    case None =>
      if t.change.Some? && Fits(s.doc, t.change.value) {
        MovedPinned(s.doc, s.origin, s.anchors, t.change.value);
        MovedAscending(s.doc, s.anchors, t.change.value);
      }
  }

  lemma {:induction false} InvAlways(doc: string, transactions: seq<Transaction>)
    ensures Inv(Run(doc, transactions))
  {
    if transactions != [] {
      InvAlways(doc, transactions[..|transactions| - 1]);
      InvKept(Run(doc, transactions[..|transactions| - 1]), transactions[|transactions| - 1]);
    }
  }

  lemma {:induction false} GetIsPin(anchors: Anchors, at: nat)
    requires Get(anchors, at).Some?
    ensures Pin(at, Get(anchors, at).value) in anchors
  {
    if anchors[|anchors| - 1].at != at { GetIsPin(anchors[..|anchors| - 1], at); }
  }

  /** In every run, while a blame is installed every line but the terminator has exactly one entry,
      and a band exactly when that entry names nobody; with none installed, no line has either. */
  lemma {:induction false} OneEntryALine(doc: string, transactions: seq<Transaction>, p: nat)
    ensures var m, s := MarksAfter(doc, transactions), Run(doc, transactions);
            && (EntryAt(m.entries, p) <==> s.installed && IsStart(s.doc, p) && p != |s.doc|)
            && (forall i, j | 0 <= i < j < |m.entries| :: m.entries[i].at != m.entries[j].at)
            && (p in m.bands <==> Entry(p, None) in m.entries)
  {
    var s := Run(doc, transactions);
    MarksFollow(doc, transactions);
    DrawnMarksSay(s.installed, s.anchors, s.doc, p, None);
    DrawnWhere(s.installed, s.anchors, s.doc, p);
  }

  /** What the column says of a line. */
  lemma EntrySays(doc: string, transactions: seq<Transaction>, p: nat, named: Option<Commit>)
    ensures var s := Run(doc, transactions);
            Entry(p, named) in MarksAfter(doc, transactions).entries <==>
              s.installed && IsStart(s.doc, p) && p < |s.doc| && named == AccountedFor(s.anchors, s.doc, p)
  {
    var s := Run(doc, transactions);
    MarksFollow(doc, transactions);
    DrawnMarksSay(s.installed, s.anchors, s.doc, p, named);
  }

  /** A line that names a commit reads exactly as a line of the installed blame that git
      attributed to that commit. */
  lemma {:induction false} NamedLineReadsAsMeasured(doc: string, transactions: seq<Transaction>, p: nat, commit: Commit)
    requires Entry(p, Some(commit)) in MarksAfter(doc, transactions).entries
    ensures var s := Run(doc, transactions);
            IsStart(s.doc, p) && Sourced(s.origin, Anchor(LineText(s.doc, p), commit))
  {
    var s := Run(doc, transactions);
    InvAlways(doc, transactions);
    EntrySays(doc, transactions, p, Some(commit));
    GetIsPin(s.anchors, p);
    assert Pinned(s.doc, s.origin, Pin(p, Get(s.anchors, p).value));
  }

  // ---------------------------------------------------------------- a fresh install

  lemma {:induction false} InstalledAt(blame: Blame, doc: string, n: nat, k: nat)
    requires n <= |Starts(doc)| && k < |Starts(doc)|
    ensures Starts(doc)[k] <= |doc|
    ensures Get(Installed(blame, doc, n), Starts(doc)[k]) ==
            if k < n && Attributed(blame, k + 1).Some?
            then Some(Anchor(LineText(doc, Starts(doc)[k]), Attributed(blame, k + 1).value))
            else None
  {
    assert Starts(doc)[k] in Starts(doc);
    if n > 0 {
      InstalledAt(blame, doc, n - 1, k);
      var from := Starts(doc)[n - 1];
      assert from in Starts(doc);
      assert k != n - 1 ==> from != Starts(doc)[k];
      if Attributed(blame, n).Some? {
        GetPut(Installed(blame, doc, n - 1), from, Anchor(LineText(doc, from), Attributed(blame, n).value), Starts(doc)[k]);
      }
    }
  }

  lemma InstalledNames(doc: string, blame: Blame, k: nat)
    requires k < |Starts(doc)|
    ensures Starts(doc)[k] <= |doc|
    ensures AccountedFor(Installed(blame, doc, LinesToWalk(blame, doc)), doc, Starts(doc)[k]) == Whose(blame, k)
  {
    InstalledAt(blame, doc, LinesToWalk(blame, doc), k);
    AttributedIs(blame, k);
  }

  /** Right after a blame is installed, in any run, the column names for each line the commit the
      blame's table points at for it, if that is a commit git has, and nobody otherwise. */
  lemma {:induction false} FreshInstallNamesEveryLine(doc: string, transactions: seq<Transaction>, blame: Blame, k: nat, named: Option<Commit>)
    requires var now := Run(doc, transactions).doc; k < |Starts(now)| && Starts(now)[k] < |now|
    ensures var p, lines, commits := Starts(Run(doc, transactions).doc)[k], blame.lines, blame.commits;
            Entry(p, named) in MarksAfter(doc, transactions + [Transaction(None, Some(Some(blame)))]).entries <==>
              named == if k < |lines| && 0 <= lines[k] < |commits| && !commits[lines[k]].uncommitted then Some(commits[lines[k]]) else None
  {
    var all := transactions + [Transaction(None, Some(Some(blame)))];
    var now := Run(doc, transactions).doc;
    assert all[..|transactions|] == transactions;
    assert Starts(now)[k] in Starts(now);
    InstalledNames(now, blame, k);
    EntrySays(doc, all, Starts(now)[k], named);
  }
}
