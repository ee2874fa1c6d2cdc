/** What one edit does to the names of the lines it does not change, `frontend/src/lib/blameMarks.ts`:
    lines wholly before or behind it keep theirs, and for the two lines it touches without changing
    it is said exactly when they do. */
module BlameEdits {
  import opened Sequences
  import opened TextLines
  import opened BlameMarks
  import opened BlameTracking

  /** Whom the anchor at a position names for a line that reads like this. */
  function Match(anchors: Anchors, at: nat, text: string): Option<Commit> {
    var anchor := Get(anchors, at);
    if anchor.Some? && anchor.value.text == text then Some(anchor.value.commit) else None
  }

  lemma {:induction false} NobodyMatches(anchors: Anchors, doc: string, c: Change, q: nat)
    requires Fits(doc, c) && q <= |Apply(doc, c)|
    requires forall pin | pin in anchors :: Landing(pin.at, doc, c) != Some(q)
    ensures FirstMatch(anchors, doc, c, q) == None
  {
    if anchors != [] {
      assert anchors == anchors[..|anchors| - 1] + [anchors[|anchors| - 1]];
      NobodyMatches(anchors[..|anchors| - 1], doc, c, q);
    }
  }

  /** A line on which one anchor lands is named by that one. */
  lemma {:induction false} FirstOfOne(anchors: Anchors, doc: string, c: Change, q: nat, p: nat)
    requires Fits(doc, c) && Ascending(anchors) && q <= |Apply(doc, c)|
    requires forall pin | pin in anchors :: Landing(pin.at, doc, c) == Some(q) <==> pin.at == p
    ensures FirstMatch(anchors, doc, c, q) == Match(anchors, p, LineText(Apply(doc, c), q))
  {
    if anchors != [] {
      var front, last := anchors[..|anchors| - 1], anchors[|anchors| - 1];
      assert anchors == front + [last];
      if last.at == p { NobodyMatches(front, doc, c, q); } else { FirstOfOne(front, doc, c, q, p); }
    }
  }

  /** A line on which two land is named by the earlier if that one describes it. */
  lemma {:induction false} FirstOfTwo(anchors: Anchors, doc: string, c: Change, q: nat, lo: nat, hi: nat)
    requires Fits(doc, c) && Ascending(anchors) && q <= |Apply(doc, c)| && lo < hi
    requires forall pin | pin in anchors :: Landing(pin.at, doc, c) == Some(q) <==> pin.at == lo || pin.at == hi
    ensures var text := LineText(Apply(doc, c), q);
            FirstMatch(anchors, doc, c, q) == if Match(anchors, lo, text).Some? then Match(anchors, lo, text) else Match(anchors, hi, text)
  {
    if anchors != [] {
      var front, last := anchors[..|anchors| - 1], anchors[|anchors| - 1];
      assert anchors == front + [last];
      if last.at == hi {
        FirstOfOne(front, doc, c, q, lo);
      } else if last.at == lo {
        NobodyMatches(front, doc, c, q);
        NoneBeyond(front, hi) by { assert Before(front, hi); }
      } else {
        FirstOfTwo(front, doc, c, q, lo, hi);
      }
    }
  }

  // ---------------------------------------------------------------- who lands where

  /** A deletion that leaves nothing behind: what it ends at comes to stand where it begins. */
  predicate Deletes(c: Change) {
    c.from < c.to && c.text == ""
  }

  lemma LandsBefore(doc: string, c: Change, p: nat, at: nat)
    requires Fits(doc, c) && IsStart(doc, p) && IsStart(doc, at) && LineEnd(doc, p) <= c.from
    requires LineEnd(doc, p) < c.from || (EndStays(doc, c) && (p < c.from || c.from < c.to))
    ensures Landing(at, doc, c) == Some(p) <==>
              at == p || (LineEnd(doc, p) == c.from && Deletes(c) && at == c.to)
  {
    LineBefore(doc, c, p);
    MapPosInside(doc, c, at);
    var to := MapPos(c, at);
    if to.Some? { OnLine(Apply(doc, c), p, to.value); }
  }

  lemma LandsBehind(doc: string, c: Change, p: nat, at: nat)
    requires Fits(doc, c) && IsStart(doc, p) && IsStart(doc, at) && c.to <= p && (c.to < p || StartStays(doc, c))
    ensures Landing(at, doc, c) == Some(Shifted(c, p)) <==> at == p || (c.to == p && Deletes(c) && at == c.from)
  {
    LineBehind(doc, c, p);
    MapPosInside(doc, c, at);
    var to := MapPos(c, at);
    if to.Some? { OnLine(Apply(doc, c), Shifted(c, p), to.value); }
  }

  // ---------------------------------------------------------------- whom a line names afterwards

  function NamedAfter(s: State, c: Change, q: nat): Option<Commit>
    requires Fits(s.doc, c) && q <= |Apply(s.doc, c)|
  {
    AccountedFor(Moved(s.anchors, s.doc, c), Apply(s.doc, c), q)
  }

  /** A line ahead of the edit is named as it was; only one that ends where a deletion begins, and
      that nobody was named for, may be named by the anchor of the line the deletion ends at. */
  lemma BeforeNames(s: State, c: Change, p: nat)
    requires Inv(s) && Fits(s.doc, c) && IsStart(s.doc, p) && LineEnd(s.doc, p) <= c.from
    requires LineEnd(s.doc, p) < c.from || (EndStays(s.doc, c) && (p < c.from || c.from < c.to))
    ensures p <= |Apply(s.doc, c)|
    ensures var own := AccountedFor(s.anchors, s.doc, p);
            NamedAfter(s, c, p) ==
            if own.None? && LineEnd(s.doc, p) == c.from && Deletes(c) then Match(s.anchors, c.to, LineText(s.doc, p)) else own
  {
    LineBefore(s.doc, c, p);
    MovedNamesFirstMatch(s.anchors, s.doc, c, p);
    forall pin | pin in s.anchors
      ensures Landing(pin.at, s.doc, c) == Some(p) <==> pin.at == p || (LineEnd(s.doc, p) == c.from && Deletes(c) && pin.at == c.to)
    {
      assert Pinned(s.doc, s.origin, pin);
      LandsBefore(s.doc, c, p, pin.at);
    }
    if LineEnd(s.doc, p) == c.from && Deletes(c) { FirstOfTwo(s.anchors, s.doc, c, p, p, c.to); }
    else { FirstOfOne(s.anchors, s.doc, c, p, p); }
  }

  /** A line behind the edit is named as it was; only one at which a deletion ends may be named by
      the anchor of the line the deletion began with, if that anchor describes it. */
  lemma BehindNames(s: State, c: Change, p: nat)
    requires Inv(s) && Fits(s.doc, c) && IsStart(s.doc, p) && c.to <= p && (c.to < p || StartStays(s.doc, c))
    ensures Shifted(c, p) <= |Apply(s.doc, c)|
    ensures var twin := Match(s.anchors, c.from, LineText(s.doc, p));
            NamedAfter(s, c, Shifted(c, p)) ==
            if c.to == p && Deletes(c) && twin.Some? then twin else AccountedFor(s.anchors, s.doc, p)
  {
    var q := Shifted(c, p);
    LineBehind(s.doc, c, p);
    MovedNamesFirstMatch(s.anchors, s.doc, c, q);
    forall pin | pin in s.anchors
      ensures Landing(pin.at, s.doc, c) == Some(q) <==> pin.at == p || (c.to == p && Deletes(c) && pin.at == c.from)
    {
      assert Pinned(s.doc, s.origin, pin);
      LandsBehind(s.doc, c, p, pin.at);
    }
    if c.to == p && Deletes(c) { FirstOfTwo(s.anchors, s.doc, c, q, c.from, p); }
    else { FirstOfOne(s.anchors, s.doc, c, q, p); }
  }

  // ---------------------------------------------------------------- in terms of the column

  function Edited(transactions: seq<Transaction>, c: Change): seq<Transaction> {
    transactions + [Transaction(Some(c), None)]
  }

  /** The column names the same for a line before an edit and for a line after it. */
  ghost predicate SameEntry(before: Marks, p: nat, after: Marks, q: nat) {
    forall named :: Entry(q, named) in after.entries <==> Entry(p, named) in before.entries
  }

  lemma EditedRun(doc: string, transactions: seq<Transaction>, c: Change)
    requires Fits(Run(doc, transactions).doc, c)
    ensures var s := Run(doc, transactions);
            Run(doc, Edited(transactions, c)) == s.(doc := Apply(s.doc, c), anchors := Moved(s.anchors, s.doc, c))
  {
    assert Edited(transactions, c)[..|transactions|] == transactions;
  }

  /** Whether the entry is the same is whether the line is named the same. */
  lemma EntryFollowsName(doc: string, transactions: seq<Transaction>, c: Change, p: nat, q: nat)
    requires var s := Run(doc, transactions);
             Fits(s.doc, c) && IsStart(s.doc, p) && IsStart(Apply(s.doc, c), q) && (p < |s.doc| <==> q < |Apply(s.doc, c)|)
    ensures var s := Run(doc, transactions);
            SameEntry(MarksAfter(doc, transactions), p, MarksAfter(doc, Edited(transactions, c)), q)
            <==> (s.installed && p < |s.doc| ==> NamedAfter(s, c, q) == AccountedFor(s.anchors, s.doc, p))
  {
    var s := Run(doc, transactions);
    EditedRun(doc, transactions, c);
    var before, after := MarksAfter(doc, transactions), MarksAfter(doc, Edited(transactions, c));
    forall named ensures Entry(p, named) in before.entries <==> s.installed && p < |s.doc| && named == AccountedFor(s.anchors, s.doc, p) {
      EntrySays(doc, transactions, p, named);
    }
    forall named ensures Entry(q, named) in after.entries <==> s.installed && p < |s.doc| && named == NamedAfter(s, c, q) {
      EntrySays(doc, Edited(transactions, c), q, named);
    }
    if s.installed && p < |s.doc| { assert Entry(q, NamedAfter(s, c, q)) in after.entries; }
  }

  /** An edit leaves the entry of every line wholly before it as it was and where it was, and of
      every line wholly behind it as it was, moved by what the edit added or removed. */
  lemma {:induction false} EditKeepsOtherLines(doc: string, transactions: seq<Transaction>, c: Change)
    requires Fits(Run(doc, transactions).doc, c)
    ensures var now, before, after := Run(doc, transactions).doc, MarksAfter(doc, transactions), MarksAfter(doc, Edited(transactions, c));
            && (forall p | IsStart(now, p) && LineEnd(now, p) < c.from :: SameEntry(before, p, after, p))
            && (forall p | IsStart(now, p) && c.to < p :: SameEntry(before, p, after, Shifted(c, p)))
  {
    var s := Run(doc, transactions);
    InvAlways(doc, transactions);
    forall p | IsStart(s.doc, p) && LineEnd(s.doc, p) < c.from
      ensures SameEntry(MarksAfter(doc, transactions), p, MarksAfter(doc, Edited(transactions, c)), p)
    {
      LineBefore(s.doc, c, p);
      BeforeNames(s, c, p);
      Applied(s.doc, c);
      EntryFollowsName(doc, transactions, c, p, p);
    }
    forall p | IsStart(s.doc, p) && c.to < p
      ensures SameEntry(MarksAfter(doc, transactions), p, MarksAfter(doc, Edited(transactions, c)), Shifted(c, p))
    {
      LineBehind(s.doc, c, p);
      BehindNames(s, c, p);
      EntryFollowsName(doc, transactions, c, p, Shifted(c, p));
    }
  }

  /** The line that starts where the replaced range ends, and still starts a line afterwards (the
      line behind deleted ones, or one pushed down), keeps its entry unless whole lines were
      deleted, the first of them was anchored to the very text of this line, and that anchor names
      somebody else: text cannot tell the two apart, and the earlier anchor is kept. */
  lemma {:induction false} LineAtTheEndKeepsEntry(doc: string, transactions: seq<Transaction>, c: Change)
    requires var now := Run(doc, transactions).doc; Fits(now, c) && IsStart(now, c.to) && StartStays(now, c)
    ensures var s := Run(doc, transactions);
            var twin := Match(s.anchors, c.from, LineText(s.doc, c.to));
            SameEntry(MarksAfter(doc, transactions), c.to, MarksAfter(doc, Edited(transactions, c)), Shifted(c, c.to))
            <==> !(s.installed && c.to < |s.doc| && Deletes(c) && twin.Some? && twin != AccountedFor(s.anchors, s.doc, c.to))
  {
    var s := Run(doc, transactions);
    InvAlways(doc, transactions);
    LineBehind(s.doc, c, c.to);
    BehindNames(s, c, c.to);
    EntryFollowsName(doc, transactions, c, c.to, Shifted(c, c.to));
  }

  /** The line that ends where the replaced range begins, and still ends there afterwards, keeps its
      entry unless whole lines were deleted behind it, nobody was named for it, and the line the
      deletion ends at is anchored to the text of this one. */
  lemma {:induction false} LineAtTheStartKeepsEntry(doc: string, transactions: seq<Transaction>, c: Change, p: nat)
    requires var now := Run(doc, transactions).doc;
             Fits(now, c) && IsStart(now, p) && LineEnd(now, p) == c.from && EndStays(now, c)
             && (p < c.from || c.from < c.to) && p < |Apply(now, c)|
    ensures var s := Run(doc, transactions);
            SameEntry(MarksAfter(doc, transactions), p, MarksAfter(doc, Edited(transactions, c)), p)
            <==> !(s.installed && Deletes(c) && AccountedFor(s.anchors, s.doc, p).None? && Match(s.anchors, c.to, LineText(s.doc, p)).Some?)
  {
    var s := Run(doc, transactions);
    InvAlways(doc, transactions);
    LineBefore(s.doc, c, p);
    BeforeNames(s, c, p);
    EntryFollowsName(doc, transactions, c, p, p);
  }

  // ---------------------------------------------------------------- a deleted twin

  lemma StartsSnoc(doc: string, c: char)
    ensures Starts(doc + [c]) == Starts(doc) + (if c == '\n' then [|doc| + 1] else [])
  {
    var all := doc + [c];
    assert all[..|all| - 1] == doc && all[|all| - 1] == c && all != "";
    assert Starts(all) == if c == '\n' then Starts(doc) + [|all|] else Starts(doc);
  }

  lemma TwoLines()
    ensures Starts("a\na\n") == [0, 2, 4] && LineText("a\na\n", 0) == "a" == LineText("a\na\n", 2)
  {
    var doc := "a\na\n";
    OneEnd(doc, 0, 1);
    OneEnd(doc, 2, 3);
    StartsSnoc("", 'a');
    StartsSnoc("a", '\n');
    StartsSnoc("a\n", 'a');
    StartsSnoc("a\na", '\n');
    assert "" + ['a'] == "a" && "a" + ['\n'] == "a\n" && "a\n" + ['a'] == "a\na" && "a\na" + ['\n'] == doc;
  }

  /** Two identical lines, by two authors, as installed. */
  function Twins(x: Commit, y: Commit): seq<Transaction> {
    [Transaction(None, Some(Some(BlameParser.Blame([x, y], [0, 1]))))]
  }

  lemma TwinsInstalled(x: Commit, y: Commit)
    requires !x.uncommitted && !y.uncommitted
    ensures var s := Run("a\na\n", Twins(x, y));
            && s.doc == "a\na\n" && s.installed && Inv(s)
            && Match(s.anchors, 0, "a") == Some(x) && Match(s.anchors, 2, "a") == Some(y)
  {
    var doc, blame, ts := "a\na\n", BlameParser.Blame([x, y], [0, 1]), Twins(x, y);
    TwoLines();
    InvAlways(doc, ts);
    assert ts[..0] == [];
    assert Run(doc, []) == State(doc, false, [], Nothing);
    assert Run(doc, ts) == Next(Run(doc, []), ts[0]);
    assert Attributed(blame, 1) == Some(x) && Attributed(blame, 2) == Some(y);
    InstalledAt(blame, doc, 2, 0);
    InstalledAt(blame, doc, 2, 1);
  }

  /** With the first of them deleted, the second is named as the first was. */
  lemma DeletedTwinTakesTheName(x: Commit, y: Commit)
    requires !x.uncommitted && !y.uncommitted && x != y
    ensures var doc, ts, c := "a\na\n", Twins(x, y), Change(0, 2, "");
            && Apply(doc, c) == "a\n"
            && Entry(2, Some(y)) in MarksAfter(doc, ts).entries
            && Entry(0, Some(x)) in MarksAfter(doc, Edited(ts, c)).entries
  {
    var doc, ts, c := "a\na\n", Twins(x, y), Change(0, 2, "");
    TwoLines();
    TwinsInstalled(x, y);
    var s := Run(doc, ts);
    EntrySays(doc, ts, 2, Some(y));
    BehindNames(s, c, 2);
    EditedRun(doc, ts, c);
    EntrySays(doc, Edited(ts, c), 0, Some(x));
  }
}
