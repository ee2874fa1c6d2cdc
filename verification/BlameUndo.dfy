/** Undoing an edit, `frontend/src/lib/blameMarks.ts`: snapping an anchor back to its line's start,
    rather than dropping it, is what can bring the names back. Here it is said exactly when every
    anchor comes back, for any replacement and its inverse. */
module BlameUndo {
  import opened Sequences
  import opened TextLines
  import opened BlameMarks
  import opened BlameTracking
  import opened BlameEdits

  /** The replacement that takes this one back. */
  function Inverse(doc: string, c: Change): Change
    requires Fits(doc, c)
  {
    Change(c.from, c.from + |c.text|, doc[c.from..c.to])
  }

  lemma InverseUndoes(doc: string, c: Change)
    requires Fits(doc, c)
    ensures Fits(Apply(doc, c), Inverse(doc, c)) && Apply(Apply(doc, c), Inverse(doc, c)) == doc
  {
    var after := Apply(doc, c);
    assert after[..c.from] == doc[..c.from] && after[c.from + |c.text|..] == doc[c.to..];
    assert doc[..c.from] + doc[c.from..c.to] + doc[c.to..] == doc;
  }

  // ---------------------------------------------------------------- one anchor there and back

  function There(doc: string, c: Change, p: nat): Option<nat>
    requires Fits(doc, c)
  {
    Landing(p, doc, c)
  }

  function Back(doc: string, c: Change, q: nat): Option<nat>
    requires Fits(doc, c)
  {
    InverseUndoes(doc, c);
    Landing(q, Apply(doc, c), Inverse(doc, c))
  }

  predicate Returns(doc: string, c: Change, p: nat)
    requires Fits(doc, c)
  {
    There(doc, c, p).Some? && Back(doc, c, There(doc, c, p).value) == Some(p)
  }

  /** Text that leaves the start of the line it is typed at where a line starts. */
  predicate Harmless(text: string) {
    text == "" || text[|text| - 1] == '\n' || '\n' !in text
  }

  /** Whether a line start comes back when an edit is undone: not from inside the replaced range;
      from its end if a line still starts there in between; from its start if something is put in
      place of what was removed, or no line break is removed; and where text is only typed, if it
      is harmless. */
  predicate Safe(doc: string, c: Change, p: nat)
    requires Fits(doc, c)
  {
    if p < c.from || c.to < p then true
    else if c.from == c.to then Harmless(c.text)
    else if p == c.from then c.text != "" || '\n' !in doc[c.from..c.to]
    else if p == c.to then StartStays(doc, c)
    else false
  }

  lemma LandsOn(doc: string, c: Change, p: nat, to: nat, from: nat)
    requires Fits(doc, c) && MapPos(c, p) == Some(to)
    requires IsStart(Apply(doc, c), from) && Unbroken(Apply(doc, c), from, to)
    ensures Landing(p, doc, c) == Some(from)
  {
    OneFrom(Apply(doc, c), from, to);
  }

  /** Where the inverse takes a position. */
  lemma BackFrom(doc: string, c: Change, q: nat)
    requires Fits(doc, c) && q <= |Apply(doc, c)|
    ensures Back(doc, c, q) ==
            var to := MapPos(Inverse(doc, c), q);
            if to.Some? && to.value <= |doc| then Some(LineFrom(doc, to.value)) else None
  {
    InverseUndoes(doc, c);
  }

  /** A position that stays a line start on the way comes back. */
  lemma BackTo(doc: string, c: Change, p: nat, q: nat)
    requires Fits(doc, c) && IsStart(doc, p) && IsStart(Apply(doc, c), q)
    requires MapPos(c, p) == Some(q) && MapPos(Inverse(doc, c), q) == Some(p)
    ensures Returns(doc, c, p)
  {
    LandsOn(doc, c, p, q, q);
    BackFrom(doc, c, q);
    OneFrom(doc, p, p);
  }

  lemma BeforeReturns(doc: string, c: Change, p: nat)
    requires Fits(doc, c) && IsStart(doc, p) && p < c.from
    ensures Returns(doc, c, p)
  {
    Applied(doc, c);
    BackTo(doc, c, p, p);
  }

  lemma BehindReturns(doc: string, c: Change, p: nat)
    requires Fits(doc, c) && IsStart(doc, p) && c.to < p
    ensures Returns(doc, c, p)
  {
    LineBehind(doc, c, p);
    BackTo(doc, c, p, Shifted(c, p));
  }

  lemma StartReturns(doc: string, c: Change)
    requires Fits(doc, c) && IsStart(doc, c.from) && c.from < c.to
    ensures Returns(doc, c, c.from) <==> Safe(doc, c, c.from)
  {
    Applied(doc, c);
    LandsOn(doc, c, c.from, c.from, c.from);
    BackFrom(doc, c, c.from);
    if c.text == "" {
      OnLine(doc, c.from, c.to);
      assert Unbroken(doc, c.from, c.to) <==> '\n' !in doc[c.from..c.to];
      if Unbroken(doc, c.from, c.to) { OneFrom(doc, c.from, c.to); }
    } else {
      OneFrom(doc, c.from, c.from);
    }
  }

  lemma EndReturns(doc: string, c: Change)
    requires Fits(doc, c) && IsStart(doc, c.to) && c.from < c.to
    ensures Returns(doc, c, c.to) <==> StartStays(doc, c)
  {
    var q, after := Shifted(c, c.to), Apply(doc, c);
    LineBehind(doc, c, c.to);
    var l := LineFrom(after, q);
    LandsOn(doc, c, c.to, q, l);
    BackFrom(doc, c, l);
    if StartStays(doc, c) { OneFrom(after, q, q); OneFrom(doc, c.to, c.to); }
  }

  /** Where the anchor of a line typed at goes, and comes back from. */
  lemma TypedGoes(doc: string, c: Change)
    requires Fits(doc, c) && IsStart(doc, c.from) && c.from == c.to
    ensures var l := LineFrom(Apply(doc, c), c.from + |c.text|);
            && There(doc, c, c.from) == Some(l)
            && c.from <= l
            && Back(doc, c, l) == if c.from < l < c.from + |c.text| then None else Some(c.from)
  {
    Applied(doc, c);
    var l := LineFrom(Apply(doc, c), c.from + |c.text|);
    LandsOn(doc, c, c.from, c.from + |c.text|, l);
    BackFrom(doc, c, l);
    OneFrom(doc, c.from, c.from);
  }

  lemma TypedReturns(doc: string, c: Change)
    requires Fits(doc, c) && IsStart(doc, c.from) && c.from == c.to
    ensures Returns(doc, c, c.from) <==> Harmless(c.text)
  {
    var a, n, typed := c.from, |c.text|, Apply(doc, c);
    TypedGoes(doc, c);
    Applied(doc, c);
    if n == 0 || c.text[n - 1] == '\n' {
      OneFrom(typed, a + n, a + n);
    } else if '\n' !in c.text {
      OneFrom(typed, a, a + n);
    } else {
      HarmfulStrays(doc, c);
    }
  }

  lemma HarmfulStrays(doc: string, c: Change)
    requires Fits(doc, c) && c.from == c.to && !Harmless(c.text)
    ensures c.from < LineFrom(Apply(doc, c), c.from + |c.text|) < c.from + |c.text|
  {
    Applied(doc, c);
    var i :| 0 <= i < |c.text| && c.text[i] == '\n';
    assert Apply(doc, c)[c.from + i] == '\n';
  }

  lemma ReturnsExactly(doc: string, c: Change, p: nat)
    requires Fits(doc, c) && IsStart(doc, p)
    ensures Returns(doc, c, p) <==> Safe(doc, c, p)
  {
    if p < c.from { BeforeReturns(doc, c, p); }
    else if c.to < p { BehindReturns(doc, c, p); }
    else if c.from == c.to { TypedReturns(doc, c); }
    else if p == c.from { StartReturns(doc, c); }
    else if p == c.to { EndReturns(doc, c); }
  }

  // ---------------------------------------------------------------- all anchors there and back

  /** Every anchor carried to where it lands, where no two meet. */
  function Carried(anchors: Anchors, doc: string, c: Change): Anchors
    requires Fits(doc, c)
  {
    if anchors == [] then [] else
    var front, last := Carried(anchors[..|anchors| - 1], doc, c), anchors[|anchors| - 1];
    var to := Landing(last.at, doc, c);
    if to.None? then front else front + [Pin(to.value, last.anchor)]
  }

  lemma CarriedSnoc(anchors: Anchors, pin: Pin, doc: string, c: Change)
    requires Fits(doc, c)
    ensures Carried(anchors + [pin], doc, c) ==
            Carried(anchors, doc, c) + (if Landing(pin.at, doc, c).Some? then [Pin(Landing(pin.at, doc, c).value, pin.anchor)] else [])
  {
    assert (anchors + [pin])[..|anchors|] == anchors;
  }

  lemma {:induction false} MovedIsCarried(anchors: Anchors, doc: string, c: Change)
    requires Fits(doc, c) && Distinct(Carried(anchors, doc, c))
    ensures Moved(anchors, doc, c) == Carried(anchors, doc, c)
  {
    if anchors != [] {
      var front, last := anchors[..|anchors| - 1], anchors[|anchors| - 1];
      var to := Landing(last.at, doc, c);
      if to.Some? { DistinctSnoc(Carried(front, doc, c), Pin(to.value, last.anchor)); }
      MovedIsCarried(front, doc, c);
    }
  }

  lemma {:induction false} PutCounts(anchors: Anchors, at: nat, anchor: Anchor)
    ensures if Get(anchors, at).None? then Put(anchors, at, anchor) == anchors + [Pin(at, anchor)]
            else |Put(anchors, at, anchor)| == |anchors|
  {
    if anchors != [] && anchors[|anchors| - 1].at != at { PutCounts(anchors[..|anchors| - 1], at, anchor); }
  }

  /** An edit never adds an anchor, and if it loses none, each has gone its own way. */
  lemma {:induction false} NoneLost(anchors: Anchors, doc: string, c: Change)
    requires Fits(doc, c)
    ensures |Moved(anchors, doc, c)| <= |anchors|
    ensures |Moved(anchors, doc, c)| == |anchors| ==>
              Moved(anchors, doc, c) == Carried(anchors, doc, c) && forall pin | pin in anchors :: Landing(pin.at, doc, c).Some?
  {
    if anchors != [] {
      var front, last := anchors[..|anchors| - 1], anchors[|anchors| - 1];
      assert anchors == front + [last];
      NoneLost(front, doc, c);
      var to := Landing(last.at, doc, c);
      if to.Some? { PutCounts(Moved(front, doc, c), to.value, last.anchor); }
    }
  }

  ghost predicate AllReturn(anchors: Anchors, doc: string, c: Change) {
    Fits(doc, c) && forall pin | pin in anchors :: Returns(doc, c, pin.at)
  }

  lemma {:induction false} CarriedCameFrom(anchors: Anchors, doc: string, c: Change, q: nat)
    requires AllReturn(anchors, doc, c) && Get(Carried(anchors, doc, c), q).Some?
    ensures Back(doc, c, q).Some? && Get(anchors, Back(doc, c, q).value).Some?
  {
    var front, last := anchors[..|anchors| - 1], anchors[|anchors| - 1];
    FrontAndLast(anchors);
    assert Returns(doc, c, last.at);
    var to := There(doc, c, last.at).value;
    CarriedSnoc(front, last, doc, c);
    GetSnoc(Carried(front, doc, c), Pin(to, last.anchor), q);
    if to != q { CarriedCameFrom(front, doc, c, q); }
  }

  lemma {:induction false} CarriedApart(anchors: Anchors, doc: string, c: Change)
    requires Distinct(anchors) && AllReturn(anchors, doc, c)
    ensures Distinct(Carried(anchors, doc, c))
  {
    if anchors != [] {
      var front, last := anchors[..|anchors| - 1], anchors[|anchors| - 1];
      FrontAndLast(anchors);
      CarriedApart(front, doc, c);
      assert Returns(doc, c, last.at);
      var to := There(doc, c, last.at).value;
      if Get(Carried(front, doc, c), to).Some? { CarriedCameFrom(front, doc, c, to); }
      DistinctSnoc(Carried(front, doc, c), Pin(to, last.anchor));
    }
  }

  /** The anchors carried there and back. */
  function RoundTrip(anchors: Anchors, doc: string, c: Change): Anchors
    requires Fits(doc, c)
  {
    InverseUndoes(doc, c);
    Carried(Carried(anchors, doc, c), Apply(doc, c), Inverse(doc, c))
  }

  /** Of one more anchor, the round trip is one more. */
  lemma RoundTripSnoc(anchors: Anchors, pin: Pin, doc: string, c: Change)
    requires Fits(doc, c) && There(doc, c, pin.at).Some?
    ensures var q := There(doc, c, pin.at).value;
            RoundTrip(anchors + [pin], doc, c) ==
            RoundTrip(anchors, doc, c) + (if Back(doc, c, q).Some? then [Pin(Back(doc, c, q).value, pin.anchor)] else [])
  {
    InverseUndoes(doc, c);
    CarriedSnoc(anchors, pin, doc, c);
    CarriedSnoc(Carried(anchors, doc, c), Pin(There(doc, c, pin.at).value, pin.anchor), Apply(doc, c), Inverse(doc, c));
  }

  lemma {:induction false} RoundTripCounts(anchors: Anchors, doc: string, c: Change)
    requires Fits(doc, c)
    ensures |Carried(anchors, doc, c)| <= |anchors|
  {
    if anchors != [] { RoundTripCounts(anchors[..|anchors| - 1], doc, c); }
  }

  /** The round trip gives every anchor back exactly when every one returns. */
  lemma {:induction false} RoundTripIsIdentity(anchors: Anchors, doc: string, c: Change)
    requires Fits(doc, c) && forall pin | pin in anchors :: There(doc, c, pin.at).Some?
    ensures RoundTrip(anchors, doc, c) == anchors <==> AllReturn(anchors, doc, c)
    ensures |RoundTrip(anchors, doc, c)| <= |anchors|
  {
    if anchors != [] {
      var front, last := anchors[..|anchors| - 1], anchors[|anchors| - 1];
      assert anchors == front + [last];
      RoundTripIsIdentity(front, doc, c);
      RoundTripSnoc(front, last, doc, c);
      if RoundTrip(anchors, doc, c) == anchors {
        assert |RoundTrip(anchors, doc, c)| == |front| + 1;
        assert RoundTrip(anchors, doc, c)[..|front|] == RoundTrip(front, doc, c) && anchors[..|front|] == front;
        assert RoundTrip(anchors, doc, c)[|front|] == last;
      }
    }
  }

  // ---------------------------------------------------------------- the law

  /** The state after an edit is made and taken back. */
  function Undone(s: State, c: Change): State
    requires Fits(s.doc, c)
  {
    Next(Next(s, Transaction(Some(c), None)), Transaction(Some(Inverse(s.doc, c)), None))
  }

  lemma UndoneIs(s: State, c: Change)
    requires Fits(s.doc, c)
    ensures Fits(Apply(s.doc, c), Inverse(s.doc, c))
    ensures Undone(s, c) == s.(anchors := Moved(Moved(s.anchors, s.doc, c), Apply(s.doc, c), Inverse(s.doc, c)))
  {
    InverseUndoes(s.doc, c);
  }

  lemma ReturningRestores(s: State, c: Change)
    requires Inv(s) && AllReturn(s.anchors, s.doc, c)
    ensures Undone(s, c) == s
  {
    UndoneIs(s, c);
    CarriedApart(s.anchors, s.doc, c);
    MovedIsCarried(s.anchors, s.doc, c);
    RoundTripIsIdentity(s.anchors, s.doc, c);
    MovedIsCarried(Carried(s.anchors, s.doc, c), Apply(s.doc, c), Inverse(s.doc, c));
  }

  lemma RestoredReturned(s: State, c: Change)
    requires Fits(s.doc, c) && Undone(s, c) == s
    ensures AllReturn(s.anchors, s.doc, c)
  {
    UndoneIs(s, c);
    NoneLost(s.anchors, s.doc, c);
    NoneLost(Moved(s.anchors, s.doc, c), Apply(s.doc, c), Inverse(s.doc, c));
    RoundTripIsIdentity(s.anchors, s.doc, c);
  }

  /** Every anchored line is one that comes back. */
  ghost predicate AllSafe(s: State, c: Change)
    requires Fits(s.doc, c)
  {
    forall pin | pin in s.anchors :: Safe(s.doc, c, pin.at)
  }

  /** Making any edit and taking it back restores the whole state, every anchor in its place, exactly
      when every anchored line is safe from it. */
  lemma {:induction false} UndoRestores(doc: string, transactions: seq<Transaction>, c: Change)
    requires Fits(Run(doc, transactions).doc, c)
    ensures var s := Run(doc, transactions); Undone(s, c) == s <==> AllSafe(s, c)
  {
    var s := Run(doc, transactions);
    InvAlways(doc, transactions);
    forall pin | pin in s.anchors ensures Returns(s.doc, c, pin.at) <==> Safe(s.doc, c, pin.at) {
      assert Pinned(s.doc, s.origin, pin);
      ReturnsExactly(s.doc, c, pin.at);
    }
    if AllSafe(s, c) { ReturningRestores(s, c); }
    if Undone(s, c) == s { RestoredReturned(s, c); }
  }

  lemma {:induction false} PinIsGot(anchors: Anchors, pin: Pin)
    requires pin in anchors
    ensures Get(anchors, pin.at).Some?
  {
    var front, last := anchors[..|anchors| - 1], anchors[|anchors| - 1];
    assert anchors == front + [last];
    if pin.at != last.at { PinIsGot(front, pin); }
  }

  /** Typing text and taking it away again: restored, unless the text was typed at the very start of
      an anchored line and breaks it without ending in a break. */
  lemma {:induction false} TypingRestores(doc: string, transactions: seq<Transaction>, a: nat, text: string)
    requires a <= |Run(doc, transactions).doc|
    ensures var s := Run(doc, transactions);
            Undone(s, Change(a, a, text)) == s <==> Get(s.anchors, a).None? || Harmless(text)
  {
    var s := Run(doc, transactions);
    UndoRestores(doc, transactions, Change(a, a, text));
    if Get(s.anchors, a).Some? { GetIsPin(s.anchors, a); }
    forall pin | pin in s.anchors && pin.at == a ensures Get(s.anchors, a).Some? { PinIsGot(s.anchors, pin); }
  }

  // ---------------------------------------------------------------- a name that is lost

  function Single(x: Commit): seq<Transaction> {
    [Transaction(None, Some(Some(BlameParser.Blame([x], [0]))))]
  }

  lemma SingleInstalled(x: Commit)
    requires !x.uncommitted
    ensures Run("a\n", Single(x)) == State("a\n", true, [Pin(0, Anchor("a", x))], Measured(BlameParser.Blame([x], [0]), "a\n"))
  {
    var doc, blame, ts := "a\n", BlameParser.Blame([x], [0]), Single(x);
    StartsSnoc("", 'a');
    StartsSnoc("a", '\n');
    assert "" + ['a'] == "a" && "a" + ['\n'] == doc;
    assert Starts(doc) == [0, 2];
    OneEnd(doc, 0, 1);
    assert ts[..0] == [];
    assert Run(doc, ts) == Next(Run(doc, []), ts[0]);
    assert Installed(blame, doc, 0) == [];
    assert Attributed(blame, 1) == Some(x);
    assert Installed(blame, doc, 1) == [Pin(0, Anchor("a", x))];
  }

  /** One named line: break it at its very start by text that does not end in a break, take the text
      away, and it names nobody. */
  lemma UndoneTypingLosesAName(x: Commit)
    requires !x.uncommitted
    ensures var s := Run("a\n", Single(x));
            && AccountedFor(s.anchors, s.doc, 0) == Some(x)
            && Undone(s, Change(0, 0, "b\nc")).doc == "a\n" && Undone(s, Change(0, 0, "b\nc")).anchors == []
  {
    var doc, c := "a\n", Change(0, 0, "b\nc");
    SingleInstalled(x);
    OneEnd(doc, 0, 1);
    UndoneIs(Run(doc, Single(x)), c);
    StraysAway(doc, c, Anchor("a", x));
  }

  lemma StraysAway(doc: string, c: Change, anchor: Anchor)
    requires Fits(doc, c) && IsStart(doc, c.from) && c.from == c.to && !Harmless(c.text)
    ensures Fits(Apply(doc, c), Inverse(doc, c))
    ensures Moved(Moved([Pin(c.from, anchor)], doc, c), Apply(doc, c), Inverse(doc, c)) == []
  {
    InverseUndoes(doc, c);
    TypedGoes(doc, c);
    HarmfulStrays(doc, c);
    MovedSingle(Pin(c.from, anchor), doc, c);
    MovedSingle(Pin(There(doc, c, c.from).value, anchor), Apply(doc, c), Inverse(doc, c));
  }

  /** One anchor goes where it lands. */
  lemma MovedSingle(pin: Pin, doc: string, c: Change)
    requires Fits(doc, c)
    ensures var to := Landing(pin.at, doc, c);
            Moved([pin], doc, c) == if to.Some? then [Pin(to.value, pin.anchor)] else []
  {
    assert [pin][..0] == [];
    assert Moved([], doc, c) == [];
  }
}
