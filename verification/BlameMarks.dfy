/** The blame beside a file, carried through the edits made to it: `frontend/src/lib/blameMarks.ts`
    and `commitAt` of `frontend/src/lib/blame.ts`. Entries are pinned to positions, moved by every
    change, snapped to line starts, and believed only while their line still reads as git
    measured it. */
module BlameMarks {
  import opened Sequences
  import opened TextLines
  import BlameParser

  type Commit = BlameParser.Commit
  type Blame = BlameParser.Blame

  /** One line's attribution and the text it was measured on. */
  datatype Anchor = Anchor(text: string, commit: Commit)

  /** A map from positions to anchors, in the order its keys were first set. */
  datatype Pin = Pin(at: nat, anchor: Anchor)
  type Anchors = seq<Pin>

  /** An entry of the column: a commit, or "uncommitted". */
  datatype Entry = Entry(at: nat, named: Option<Commit>)

  datatype Marks = Marks(installed: bool, anchors: Anchors, entries: seq<Entry>, bands: seq<nat>)

  const NO_MARKS := Marks(false, [], [], [])

  // ---------------------------------------------------------------- a map in insertion order

  function Get(anchors: Anchors, at: nat): Option<Anchor> {
    if anchors == [] then None
    else if anchors[|anchors| - 1].at == at then Some(anchors[|anchors| - 1].anchor)
    else Get(anchors[..|anchors| - 1], at)
  }

  function Put(anchors: Anchors, at: nat, anchor: Anchor): Anchors {
    if anchors == [] then [Pin(at, anchor)]
    else
      var front, last := anchors[..|anchors| - 1], anchors[|anchors| - 1];
      if last.at == at then front + [Pin(at, anchor)]
      else if Get(front, at).None? then anchors + [Pin(at, anchor)]
      else Put(front, at, anchor) + [last]
  }

  /** No position twice. */
  predicate Distinct(anchors: Anchors) {
    anchors != [] ==>
      Distinct(anchors[..|anchors| - 1]) && Get(anchors[..|anchors| - 1], anchors[|anchors| - 1].at).None?
  }

  lemma FrontAndLast(anchors: Anchors)
    requires anchors != []
    ensures anchors == anchors[..|anchors| - 1] + [anchors[|anchors| - 1]]
  {
  }

  lemma GetSnoc(anchors: Anchors, pin: Pin, at: nat)
    ensures Get(anchors + [pin], at) == if pin.at == at then Some(pin.anchor) else Get(anchors, at)
  {
    assert (anchors + [pin])[..|anchors|] == anchors;
  }

  lemma DistinctSnoc(anchors: Anchors, pin: Pin)
    ensures Distinct(anchors + [pin]) <==> Distinct(anchors) && Get(anchors, pin.at).None?
  {
    assert (anchors + [pin])[..|anchors|] == anchors;
  }

  lemma {:induction false} GetPut(anchors: Anchors, at: nat, anchor: Anchor, q: nat)
    ensures Get(Put(anchors, at, anchor), q) == if q == at then Some(anchor) else Get(anchors, q)
  {
    if anchors != [] {
      var front, last := anchors[..|anchors| - 1], anchors[|anchors| - 1];
      GetSnoc(front, Pin(at, anchor), q);
      GetSnoc(anchors, Pin(at, anchor), q);
      GetPut(front, at, anchor, q);
      GetSnoc(Put(front, at, anchor), last, q);
    }
  }

  lemma {:induction false} DistinctPut(anchors: Anchors, at: nat, anchor: Anchor)
    requires Distinct(anchors)
    ensures Distinct(Put(anchors, at, anchor))
  {
    if anchors != [] {
      var front, last := anchors[..|anchors| - 1], anchors[|anchors| - 1];
      DistinctSnoc(front, Pin(at, anchor));
      DistinctSnoc(anchors, Pin(at, anchor));
      GetSnoc(front, last, at);
      assert front + [last] == anchors;
      DistinctPut(front, at, anchor);
      GetPut(front, at, anchor, last.at);
      DistinctSnoc(Put(front, at, anchor), last);
    }
  }

  /** Positions in order. */
  predicate Ascending(anchors: Anchors) {
    anchors != [] ==> Ascending(anchors[..|anchors| - 1]) && Before(anchors[..|anchors| - 1], anchors[|anchors| - 1].at)
  }

  predicate Before(anchors: Anchors, at: nat) {
    forall pin | pin in anchors :: pin.at < at
  }

  lemma AscendingSnoc(anchors: Anchors, pin: Pin)
    ensures Ascending(anchors + [pin]) <==> Ascending(anchors) && Before(anchors, pin.at)
  {
    assert (anchors + [pin])[..|anchors|] == anchors;
  }

  lemma {:induction false} NoneBeyond(anchors: Anchors, at: nat)
    requires Before(anchors, at)
    ensures Get(anchors, at).None?
  {
    if anchors != [] {
      assert anchors[|anchors| - 1] in anchors;
      NoneBeyond(anchors[..|anchors| - 1], at);
    }
  }

  /** Setting the last position, or one behind it, keeps the order. */
  lemma PutAscending(anchors: Anchors, at: nat, anchor: Anchor)
    requires Ascending(anchors) && forall pin | pin in anchors :: pin.at <= at
    ensures Ascending(Put(anchors, at, anchor))
  {
    if anchors == [] {
      AscendingSnoc([], Pin(at, anchor));
    } else {
      var front, last := anchors[..|anchors| - 1], anchors[|anchors| - 1];
      assert last in anchors && anchors == front + [last];
      if last.at == at {
        AscendingSnoc(front, Pin(at, anchor));
      } else {
        NoneBeyond(front, at);
        AscendingSnoc(anchors, Pin(at, anchor));
      }
    }
  }

  // ---------------------------------------------------------------- installing

  function CommitAt(blame: Blame, line: int): Option<Commit> {
    if line < 1 || line > |blame.lines| then None else
    var index := blame.lines[line - 1];
    if index < 0 || index >= |blame.commits| then None else Some(blame.commits[index])
  }

  /** What git named for a line, unless it is in no commit. */
  function Attributed(blame: Blame, line: int): Option<Commit> {
    var commit := CommitAt(blame, line);
    if commit.None? || commit.value.uncommitted then None else commit
  }

  /** Whom a blame names for its line k: the commit its table points at, if it points at one that is
      a commit at all. */
  function Whose(blame: Blame, k: nat): Option<Commit> {
    if k < |blame.lines| && 0 <= blame.lines[k] < |blame.commits| && !blame.commits[blame.lines[k]].uncommitted
    then Some(blame.commits[blame.lines[k]])
    else None
  }

  lemma AttributedIs(blame: Blame, k: nat)
    ensures Attributed(blame, k + 1) == Whose(blame, k)
  {
  }

  /** The anchors of the first n lines. */
  function Installed(blame: Blame, doc: string, n: nat): Anchors
    requires n <= |Starts(doc)|
  {
    if n == 0 then [] else
    var front, commit, from := Installed(blame, doc, n - 1), Attributed(blame, n), Starts(doc)[n - 1];
    assert from in Starts(doc);
    if commit.None? then front else Put(front, from, Anchor(LineText(doc, from), commit.value))
  }

  // ---------------------------------------------------------------- drawing

  function AccountedFor(anchors: Anchors, doc: string, from: nat): Option<Commit>
    requires from <= |doc|
  {
    var anchor := Get(anchors, from);
    if anchor.Some? && anchor.value.text == LineText(doc, from) then Some(anchor.value.commit) else None
  }

  predicate IsTerminator(doc: string, number: nat)
    requires number < |Starts(doc)|
  {
    assert Starts(doc)[number] in Starts(doc);
    LineText(doc, Starts(doc)[number]) == "" && number == |Starts(doc)| - 1
  }

  /** The line a final newline leaves behind starts where the document ends. */
  lemma {:induction false} TerminatorIsAtTheEnd(doc: string, number: nat)
    requires number < |Starts(doc)|
    ensures IsTerminator(doc, number) <==> Starts(doc)[number] == |doc|
  {
    var starts := Starts(doc);
    var from := starts[number];
    assert from in starts;
    assert starts[|starts| - 1] in starts;
    assert from < |doc| && doc[from] == '\n' ==> from + 1 in starts;
  }

  /** The entries of the first n lines: one a line, but none for the terminator. */
  function EntriesTo(anchors: Anchors, doc: string, n: nat): seq<Entry>
    requires n <= |Starts(doc)|
  {
    if n == 0 then [] else
    var from := Starts(doc)[n - 1];
    assert from in Starts(doc);
    EntriesTo(anchors, doc, n - 1) + (if IsTerminator(doc, n - 1) then [] else [Entry(from, AccountedFor(anchors, doc, from))])
  }

  /** The entries that name nobody. */
  function BandsOf(entries: seq<Entry>): seq<nat> {
    if entries == [] then [] else
    BandsOf(entries[..|entries| - 1]) + (if entries[|entries| - 1].named.None? then [entries[|entries| - 1].at] else [])
  }

  /** `drawn`: both marks from one walk of the document. */
  function Draw(installed: bool, anchors: Anchors, doc: string): Marks {
    var entries := if installed then EntriesTo(anchors, doc, |Starts(doc)|) else [];
    Marks(installed, anchors, entries, BandsOf(entries))
  }

  lemma BandsSnoc(entries: seq<Entry>, e: Entry)
    ensures BandsOf(entries + [e]) == BandsOf(entries) + (if e.named.None? then [e.at] else [])
  {
    assert (entries + [e])[..|entries|] == entries;
  }

  lemma OneMoreEntry(anchors: Anchors, doc: string, n: nat)
    requires n < |Starts(doc)|
    ensures Starts(doc)[n] <= |doc|
    ensures EntriesTo(anchors, doc, n + 1) ==
            EntriesTo(anchors, doc, n) +
            (if IsTerminator(doc, n) then [] else [Entry(Starts(doc)[n], AccountedFor(anchors, doc, Starts(doc)[n]))])
  {
    assert Starts(doc)[n] in Starts(doc);
  }

  /** The loop of `drawn`. */
  method DrawMarks(installed: bool, anchors: Anchors, doc: string) returns (m: Marks)
    ensures m == Draw(installed, anchors, doc)
  {
    var entries: seq<Entry>, bands: seq<nat> := [], [];
    var starts := Starts(doc);
    var number := 0;
    while installed && number < |starts|
      invariant number <= |starts| && (!installed ==> number == 0)
      invariant entries == EntriesTo(anchors, doc, number) && bands == BandsOf(entries)
    {
      var from := starts[number];
      OneMoreEntry(anchors, doc, number);
      if !IsTerminator(doc, number) {
        var named := AccountedFor(anchors, doc, from);
        BandsSnoc(entries, Entry(from, named));
        entries := entries + [Entry(from, named)];
        if named.None? { bands := bands + [from]; }
      }
      number := number + 1;
    }
    m := Marks(installed, anchors, entries, bands);
  }

  lemma {:induction false} EntriesAre(anchors: Anchors, doc: string, n: nat, e: Entry)
    requires n <= |Starts(doc)|
    ensures e in EntriesTo(anchors, doc, n) <==>
              e.at in Starts(doc)[..n] && e.at < |doc| && e.named == AccountedFor(anchors, doc, e.at)
  {
    if n > 0 {
      EntriesAre(anchors, doc, n - 1, e);
      TerminatorIsAtTheEnd(doc, n - 1);
      assert Starts(doc)[n - 1] in Starts(doc);
      assert Starts(doc)[..n] == Starts(doc)[..n - 1] + [Starts(doc)[n - 1]];
    }
  }

  lemma {:induction false} EntriesInOrder(anchors: Anchors, doc: string, n: nat)
    requires n <= |Starts(doc)|
    ensures var es := EntriesTo(anchors, doc, n);
            && (forall i, j | 0 <= i < j < |es| :: es[i].at < es[j].at)
            && (n < |Starts(doc)| ==> forall i | 0 <= i < |es| :: es[i].at < Starts(doc)[n])
  {
    if n > 0 {
      EntriesInOrder(anchors, doc, n - 1);
      OneMoreEntry(anchors, doc, n - 1);
      var front, es := EntriesTo(anchors, doc, n - 1), EntriesTo(anchors, doc, n);
      assert forall i | 0 <= i < |front| :: es[i] == front[i] && front[i].at < Starts(doc)[n - 1];
    }
  }

  lemma {:induction false} BandsAre(entries: seq<Entry>, p: nat)
    ensures p in BandsOf(entries) <==> Entry(p, None) in entries
  {
    if entries != [] {
      BandsAre(entries[..|entries| - 1], p);
      assert entries == entries[..|entries| - 1] + [entries[|entries| - 1]];
    }
  }

  /** What the marks say: while a blame is installed, exactly one entry on every line but the
      terminator, naming whoever accounts for the line, in document order, and a band on exactly
      the lines whose entry names nobody; with none installed, nothing. */
  lemma DrawnMarksSay(installed: bool, anchors: Anchors, doc: string, p: nat, named: Option<Commit>)
    ensures var m := Draw(installed, anchors, doc);
            && (Entry(p, named) in m.entries <==>
                  installed && IsStart(doc, p) && p < |doc| && named == AccountedFor(anchors, doc, p))
            && (forall i, j | 0 <= i < j < |m.entries| :: m.entries[i].at < m.entries[j].at)
            && (p in m.bands <==> Entry(p, None) in m.entries)
  {
    var n := |Starts(doc)|;
    EntriesAre(anchors, doc, n, Entry(p, named));
    EntriesInOrder(anchors, doc, n);
    BandsAre(Draw(installed, anchors, doc).entries, p);
    assert Starts(doc)[..n] == Starts(doc);
  }

  predicate EntryAt(entries: seq<Entry>, p: nat) {
    exists i :: 0 <= i < |entries| && entries[i].at == p
  }

  lemma DrawnWhere(installed: bool, anchors: Anchors, doc: string, p: nat)
    ensures EntryAt(Draw(installed, anchors, doc).entries, p) <==> installed && IsStart(doc, p) && p < |doc|
  {
    var entries := Draw(installed, anchors, doc).entries;
    if EntryAt(entries, p) {
      var i :| 0 <= i < |entries| && entries[i].at == p;
      assert entries[i] in entries;
      DrawnMarksSay(installed, anchors, doc, p, entries[i].named);
    }
    if installed && IsStart(doc, p) && p < |doc| {
      var e := Entry(p, AccountedFor(anchors, doc, p));
      DrawnMarksSay(installed, anchors, doc, p, e.named);
      var i :| 0 <= i < |entries| && entries[i] == e;
    }
  }

  // ---------------------------------------------------------------- moving

  /** The line an anchor's position comes to lie on. */
  function Landing(at: nat, doc: string, c: Change): Option<nat>
    requires Fits(doc, c)
  {
    var to := MapPos(c, at);
    if to.None? || to.value > |Apply(doc, c)| then None else Some(LineFrom(Apply(doc, c), to.value))
  }

  function KeepBest(anchors: Anchors, at: nat, anchor: Anchor, text: string): Anchors {
    var held := Get(anchors, at);
    if held.None? || (held.value.text != text && anchor.text == text) then Put(anchors, at, anchor) else anchors
  }

  function MoveOne(moved: Anchors, pin: Pin, doc: string, c: Change): Anchors
    requires Fits(doc, c)
  {
    var from := Landing(pin.at, doc, c);
    if from.None? then moved else KeepBest(moved, from.value, pin.anchor, LineText(Apply(doc, c), from.value))
  }

  function Moved(anchors: Anchors, doc: string, c: Change): Anchors
    requires Fits(doc, c)
  {
    if anchors == [] then []
    else MoveOne(Moved(anchors[..|anchors| - 1], doc, c), anchors[|anchors| - 1], doc, c)
  }

  /** The first of the anchors that come to lie on this line and still describe it. */
  function FirstMatch(anchors: Anchors, doc: string, c: Change, line: nat): Option<Commit>
    requires Fits(doc, c) && line <= |Apply(doc, c)|
  {
    if anchors == [] then None else
    var earlier, last := FirstMatch(anchors[..|anchors| - 1], doc, c, line), anchors[|anchors| - 1];
    if earlier.Some? then earlier
    else if Landing(last.at, doc, c) == Some(line) && last.anchor.text == LineText(Apply(doc, c), line)
    then Some(last.anchor.commit)
    else None
  }

  /** Collisions are settled by the text: a line names whoever the first anchor describing it names. */
  lemma {:induction false} MovedNamesFirstMatch(anchors: Anchors, doc: string, c: Change, line: nat)
    requires Fits(doc, c) && line <= |Apply(doc, c)|
    ensures AccountedFor(Moved(anchors, doc, c), Apply(doc, c), line) == FirstMatch(anchors, doc, c, line)
  {
    if anchors != [] {
      var front, last := anchors[..|anchors| - 1], anchors[|anchors| - 1];
      MovedNamesFirstMatch(front, doc, c, line);
      var from := Landing(last.at, doc, c);
      if from.Some? { GetPut(Moved(front, doc, c), from.value, last.anchor, line); }
    }
  }
}
