/** Whom each line names once an edit is made and undone, `frontend/src/lib/blameMarks.ts`: for any
    replacement and its inverse, line by line. An anchor can be lost without a name being lost,
    since one whose line no longer reads as it was measured names nobody. */
module BlameNames {
  import opened Sequences
  import opened TextLines
  import opened BlameMarks
  import opened BlameTracking
  import opened BlameEdits
  import opened BlameUndo

  // ---------------------------------------------------------------- which anchor is held

  /** Of two anchors that meet on a line, the earlier, unless only the later describes it. */
  function Kept(a: Option<Anchor>, b: Option<Anchor>, text: string): Option<Anchor> {
    if a.None? then b
    else if b.Some? && a.value.text != text && b.value.text == text then b
    else a
  }

  lemma {:induction false} HeldByNone(anchors: Anchors, doc: string, c: Change, q: nat)
    requires Fits(doc, c) && forall pin | pin in anchors :: Landing(pin.at, doc, c) != Some(q)
    ensures Get(Moved(anchors, doc, c), q) == None
  {
    if anchors != [] {
      var front, last := anchors[..|anchors| - 1], anchors[|anchors| - 1];
      FrontAndLast(anchors);
      HeldByNone(front, doc, c, q);
      var to := Landing(last.at, doc, c);
      if to.Some? { GetPut(Moved(front, doc, c), to.value, last.anchor, q); }
    }
  }

  lemma {:induction false} HeldByOne(anchors: Anchors, doc: string, c: Change, q: nat, p: nat)
    requires Fits(doc, c) && Ascending(anchors)
    requires forall pin | pin in anchors :: Landing(pin.at, doc, c) == Some(q) <==> pin.at == p
    ensures Get(Moved(anchors, doc, c), q) == Get(anchors, p)
  {
    if anchors != [] {
      var front, last := anchors[..|anchors| - 1], anchors[|anchors| - 1];
      FrontAndLast(anchors);
      if last.at == p { HeldByNone(front, doc, c, q); } else { HeldByOne(front, doc, c, q, p); }
      var to := Landing(last.at, doc, c);
      if to.Some? { GetPut(Moved(front, doc, c), to.value, last.anchor, q); }
    }
  }

  lemma {:induction false} HeldByTwo(anchors: Anchors, doc: string, c: Change, q: nat, lo: nat, hi: nat)
    requires Fits(doc, c) && Ascending(anchors) && q <= |Apply(doc, c)| && lo < hi
    requires forall pin | pin in anchors :: Landing(pin.at, doc, c) == Some(q) <==> pin.at == lo || pin.at == hi
    ensures Get(Moved(anchors, doc, c), q) == Kept(Get(anchors, lo), Get(anchors, hi), LineText(Apply(doc, c), q))
  {
    if anchors != [] {
      var front, last := anchors[..|anchors| - 1], anchors[|anchors| - 1];
      FrontAndLast(anchors);
      if last.at == hi {
        HeldByOne(front, doc, c, q, lo);
      } else if last.at == lo {
        HeldByNone(front, doc, c, q);
        NoneBeyond(front, hi) by { assert Before(front, hi); }
      } else {
        HeldByTwo(front, doc, c, q, lo, hi);
      }
      var to := Landing(last.at, doc, c);
      if to.Some? { GetPut(Moved(front, doc, c), to.value, last.anchor, q); }
    }
  }

  // ---------------------------------------------------------------- who lands where, there and back

  /** Whom an anchor names for a line that reads like this. */
  function Naming(a: Option<Anchor>, text: string): Option<Commit> {
    if a.Some? && a.value.text == text then Some(a.value.commit) else None
  }

  predicate EndsLine(text: string) {
    text != "" && text[|text| - 1] == '\n'
  }

  lemma HarmlessIs(text: string)
    ensures Harmless(text) <==> text == "" || EndsLine(text) || '\n' !in text
    ensures EndsLine(text) ==> '\n' in text
  {
    if EndsLine(text) { assert text[|text| - 1] in text; }
  }

  lemma AccountedIsNaming(anchors: Anchors, doc: string, p: nat)
    requires p <= |doc|
    ensures AccountedFor(anchors, doc, p) == Naming(Get(anchors, p), LineText(doc, p))
  {
  }

  /** The line the replaced text's end comes to lie on. */
  lemma EndLine(doc: string, c: Change)
    requires Fits(doc, c)
    ensures c.from + |c.text| <= |Apply(doc, c)|
    ensures var l, e := LineFrom(Apply(doc, c), c.from + |c.text|), LineFrom(doc, c.from);
            if '\n' !in c.text then l == e else c.from < l && (l == c.from + |c.text| <==> EndsLine(c.text))
  {
    var after, n := Apply(doc, c), c.from + |c.text|;
    Applied(doc, c);
    if '\n' !in c.text {
      OneFrom(after, LineFrom(doc, c.from), n);
    } else {
      var i :| 0 <= i < |c.text| && c.text[i] == '\n';
      assert after[c.from + i] == '\n';
      if EndsLine(c.text) { OneFrom(after, n, n); }
    }
  }

  /** Where the start of a line comes to lie. */
  lemma ThereFrom(doc: string, c: Change, p: nat)
    requires Fits(doc, c) && IsStart(doc, p)
    ensures There(doc, c, p) ==
            if p < c.from || (p == c.from && c.from < c.to) then Some(p)
            else if p < c.to then None
            else if p == c.to then Some(LineFrom(Apply(doc, c), c.from + |c.text|))
            else Some(Shifted(c, p))
  {
    var after := Apply(doc, c);
    Applied(doc, c);
    if p < c.from || (p == c.from && c.from < c.to) {
      OneFrom(after, p, p);
    } else if p > c.to {
      LineBehind(doc, c, p);
      OneFrom(after, Shifted(c, p), Shifted(c, p));
    }
  }

  /** And where the start of a line of the edited document goes when the edit is taken back. */
  lemma BackThere(doc: string, c: Change, q: nat)
    requires Fits(doc, c) && IsStart(Apply(doc, c), q)
    ensures Back(doc, c, q) ==
            if q < c.from || (q == c.from && c.text != "") then Some(q)
            else if q < c.from + |c.text| then None
            else if q == c.from + |c.text| then Some(LineFrom(doc, c.to))
            else Some(q - |c.text| - c.from + c.to)
  {
    var after, back := Apply(doc, c), Inverse(doc, c);
    BackIsThere(doc, c, q);
    InverseEnds(doc, c);
    ThereFrom(after, back, q);
  }

  lemma BackIsThere(doc: string, c: Change, q: nat)
    requires Fits(doc, c)
    ensures Fits(Apply(doc, c), Inverse(doc, c)) && Apply(Apply(doc, c), Inverse(doc, c)) == doc
    ensures Back(doc, c, q) == There(Apply(doc, c), Inverse(doc, c), q)
  {
    InverseUndoes(doc, c);
  }

  lemma InverseEnds(doc: string, c: Change)
    requires Fits(doc, c)
    ensures var back := Inverse(doc, c);
            back.from == c.from && back.to == c.from + |c.text| && back.from + |back.text| == c.to && (back.from < back.to <==> c.text != "")
  {
  }

  /** No line of the document starts between where the edit's ends lie and the ends themselves. */
  lemma EndsApart(doc: string, c: Change, p: nat)
    requires Fits(doc, c) && IsStart(doc, p)
    ensures var e, z := LineFrom(doc, c.from), LineFrom(doc, c.to);
            && e <= z && e <= c.from && z <= c.to
            && (p < e ==> LineEnd(doc, p) < c.from) && (z < p ==> c.to < p)
            && (e < p ==> c.from < p)
            && (e < z ==> c.from < z) && (e == c.from <==> IsStart(doc, c.from)) && (z == c.to <==> IsStart(doc, c.to))
  {
    LineFromMonotone(doc, c.from, c.to);
    var e, z := LineFrom(doc, c.from), LineFrom(doc, c.to);
    if p < e { assert doc[e - 1] == '\n'; }
    if IsStart(doc, c.from) { OneFrom(doc, c.from, c.from); }
    if IsStart(doc, c.to) { OneFrom(doc, c.to, c.to); }
  }

  /** The line the edit begins on starts where it did. */
  lemma StartIsKept(doc: string, c: Change)
    requires Fits(doc, c)
    ensures LineFrom(doc, c.from) <= |Apply(doc, c)| && IsStart(Apply(doc, c), LineFrom(doc, c.from))
  {
    Applied(doc, c);
  }

  // ---------------------------------------------------------------- once the edit is made

  function Mid(s: State, c: Change): State
    requires Fits(s.doc, c)
  {
    s.(doc := Apply(s.doc, c), anchors := Moved(s.anchors, s.doc, c))
  }

  lemma MidIsSound(s: State, c: Change)
    requires Inv(s) && Fits(s.doc, c)
    ensures Inv(Mid(s, c)) && Fits(Mid(s, c).doc, Inverse(s.doc, c))
    ensures Apply(Mid(s, c).doc, Inverse(s.doc, c)) == s.doc
  {
    InverseUndoes(s.doc, c);
    InvKept(s, Transaction(Some(c), None));
  }

  lemma NoPinOffStart(s: State, p: nat)
    requires Inv(s)
    ensures Get(s.anchors, p).Some? ==> IsStart(s.doc, p)
  {
    if Get(s.anchors, p).Some? {
      GetIsPin(s.anchors, p);
      assert Pinned(s.doc, s.origin, Pin(p, Get(s.anchors, p).value));
    }
  }

  /** The anchor the line an edit begins on holds if the edit joins it to the line it ends on. */
  function Joined(s: State, c: Change): Option<Anchor>
    requires Fits(s.doc, c)
  {
    StartIsKept(s.doc, c);
    var e := LineFrom(s.doc, c.from);
    Kept(Get(s.anchors, e), Get(s.anchors, c.to), LineText(Apply(s.doc, c), e))
  }

  /** What the line the edit begins on holds, unless text is typed at its very start. */
  lemma HeldAtTheStart(s: State, c: Change)
    requires Inv(s) && Fits(s.doc, c) && LineFrom(s.doc, c.from) < c.to
    ensures Get(Mid(s, c).anchors, LineFrom(s.doc, c.from)) ==
            if '\n' in c.text then Get(s.anchors, LineFrom(s.doc, c.from)) else Joined(s, c)
  {
    var e := LineFrom(s.doc, c.from);
    StartIsKept(s.doc, c);
    EndLine(s.doc, c);
    forall pin | pin in s.anchors
      ensures Landing(pin.at, s.doc, c) == Some(e) <==> pin.at == e || (pin.at == c.to && '\n' !in c.text)
    {
      assert Pinned(s.doc, s.origin, pin);
      ThereFrom(s.doc, c, pin.at);
      EndsApart(s.doc, c, pin.at);
    }
    if '\n' in c.text { HeldByOne(s.anchors, s.doc, c, e, e); } else { HeldByTwo(s.anchors, s.doc, c, e, e, c.to); }
  }

  lemma HeldWhereTyped(s: State, c: Change)
    requires Inv(s) && Fits(s.doc, c) && LineFrom(s.doc, c.from) == c.from == c.to
    ensures Get(Mid(s, c).anchors, c.from) == if '\n' in c.text then None else Get(s.anchors, c.from)
  {
    EndLine(s.doc, c);
    forall pin | pin in s.anchors
      ensures Landing(pin.at, s.doc, c) == Some(c.from) <==> pin.at == c.from && '\n' !in c.text
    {
      assert Pinned(s.doc, s.origin, pin);
      ThereFrom(s.doc, c, pin.at);
    }
    if '\n' in c.text { HeldByNone(s.anchors, s.doc, c, c.from); } else { HeldByOne(s.anchors, s.doc, c, c.from, c.from); }
  }

  /** What the place behind the new text holds. */
  lemma HeldAtTheEnd(s: State, c: Change)
    requires Inv(s) && Fits(s.doc, c) && c.text != ""
    ensures Get(Mid(s, c).anchors, c.from + |c.text|) == if EndsLine(c.text) then Get(s.anchors, c.to) else None
  {
    if EndsLine(c.text) {
      HeldBehindABreak(s, c, c.from + |c.text|);
    } else {
      Applied(s.doc, c);
      MidIsSound(s, c);
      NoPinOffStart(Mid(s, c), c.from + |c.text|);
    }
  }

  lemma HeldBehindABreak(s: State, c: Change, q: nat)
    requires Inv(s) && Fits(s.doc, c) && EndsLine(c.text) && q == c.from + |c.text|
    ensures Get(Mid(s, c).anchors, q) == Get(s.anchors, c.to)
  {
    EndLine(s.doc, c);
    HarmlessIs(c.text);
    forall pin | pin in s.anchors ensures Landing(pin.at, s.doc, c) == Some(q) <==> pin.at == c.to {
      assert Pinned(s.doc, s.origin, pin);
      ThereFrom(s.doc, c, pin.at);
    }
    HeldByOne(s.anchors, s.doc, c, q, c.to);
  }

  // ---------------------------------------------------------------- once it is undone

  function NameNow(s: State, c: Change, p: nat): Option<Commit>
    requires Fits(s.doc, c) && p <= |s.doc|
  {
    InverseUndoes(s.doc, c);
    AccountedFor(Undone(s, c).anchors, s.doc, p)
  }

  lemma NameIsFirst(s: State, c: Change, p: nat)
    requires Inv(s) && Fits(s.doc, c) && p <= |s.doc|
    ensures Fits(Mid(s, c).doc, Inverse(s.doc, c)) && Apply(Mid(s, c).doc, Inverse(s.doc, c)) == s.doc
    ensures NameNow(s, c, p) == FirstMatch(Mid(s, c).anchors, Mid(s, c).doc, Inverse(s.doc, c), p)
  {
    MidIsSound(s, c);
    UndoneIs(s, c);
    MovedNamesFirstMatch(Mid(s, c).anchors, Mid(s, c).doc, Inverse(s.doc, c), p);
  }

  lemma NameIsAfter(s: State, c: Change, p: nat)
    requires Inv(s) && Fits(s.doc, c) && p <= |s.doc|
    ensures Fits(Mid(s, c).doc, Inverse(s.doc, c)) && Apply(Mid(s, c).doc, Inverse(s.doc, c)) == s.doc
    ensures NameNow(s, c, p) == NamedAfter(Mid(s, c), Inverse(s.doc, c), p)
  {
    MidIsSound(s, c);
    UndoneIs(s, c);
  }

  /** A line to which no anchor, one, or two come back. */
  lemma NamedByNone(s: State, c: Change, p: nat)
    requires Inv(s) && Fits(s.doc, c) && p <= |s.doc| && Fits(Mid(s, c).doc, Inverse(s.doc, c))
    requires forall pin | pin in Mid(s, c).anchors :: Landing(pin.at, Mid(s, c).doc, Inverse(s.doc, c)) != Some(p)
    ensures NameNow(s, c, p) == None
  {
    NameIsFirst(s, c, p);
    NobodyMatches(Mid(s, c).anchors, Mid(s, c).doc, Inverse(s.doc, c), p);
  }

  lemma NamedByOne(s: State, c: Change, p: nat, q: nat)
    requires Inv(s) && Fits(s.doc, c) && p <= |s.doc| && Fits(Mid(s, c).doc, Inverse(s.doc, c))
    requires forall pin | pin in Mid(s, c).anchors :: Landing(pin.at, Mid(s, c).doc, Inverse(s.doc, c)) == Some(p) <==> pin.at == q
    ensures NameNow(s, c, p) == Naming(Get(Mid(s, c).anchors, q), LineText(s.doc, p))
  {
    NameIsFirst(s, c, p);
    MidIsSound(s, c);
    FirstOfOne(Mid(s, c).anchors, Mid(s, c).doc, Inverse(s.doc, c), p, q);
  }

  lemma NamedByTwo(s: State, c: Change, p: nat, lo: nat, hi: nat)
    requires Inv(s) && Fits(s.doc, c) && p <= |s.doc| && Fits(Mid(s, c).doc, Inverse(s.doc, c)) && lo < hi
    requires forall pin | pin in Mid(s, c).anchors ::
               Landing(pin.at, Mid(s, c).doc, Inverse(s.doc, c)) == Some(p) <==> pin.at == lo || pin.at == hi
    ensures var first := Naming(Get(Mid(s, c).anchors, lo), LineText(s.doc, p));
            NameNow(s, c, p) == if first.Some? then first else Naming(Get(Mid(s, c).anchors, hi), LineText(s.doc, p))
  {
    NameIsFirst(s, c, p);
    MidIsSound(s, c);
    FirstOfTwo(Mid(s, c).anchors, Mid(s, c).doc, Inverse(s.doc, c), p, lo, hi);
  }

  /** Which anchors come back to a line the edit touches: the one its first line still holds, and the
      one behind the new text. */
  lemma ComesBack(s: State, c: Change, p: nat, pin: Pin)
    requires Inv(s) && Fits(s.doc, c) && IsStart(s.doc, p) && pin in Mid(s, c).anchors
    requires LineFrom(s.doc, c.from) <= p <= LineFrom(s.doc, c.to)
    ensures Fits(Mid(s, c).doc, Inverse(s.doc, c))
    ensures var e, z := LineFrom(s.doc, c.from), LineFrom(s.doc, c.to);
            Landing(pin.at, Mid(s, c).doc, Inverse(s.doc, c)) == Some(p) <==>
              (p == e && pin.at == e && (e < c.from || c.text != "")) || (p == z && pin.at == c.from + |c.text|)
  {
    MidIsSound(s, c);
    assert Pinned(Mid(s, c).doc, s.origin, pin);
    BackThere(s.doc, c, pin.at);
    EndsApart(s.doc, c, p);
    Applied(s.doc, c);
    if pin.at <= c.from {
      assert IsStart(s.doc, pin.at);
      EndsApart(s.doc, c, pin.at);
    }
  }

  lemma BehindKeepsName(s: State, c: Change, p: nat)
    requires Inv(s) && Fits(s.doc, c) && IsStart(s.doc, p) && c.to < p
    ensures Shifted(c, p) <= |Apply(s.doc, c)| && IsStart(Apply(s.doc, c), Shifted(c, p))
    ensures NamedAfter(s, c, Shifted(c, p)) == AccountedFor(s.anchors, s.doc, p)
  {
    LineBehind(s.doc, c, p);
    BehindNames(s, c, p);
  }

  lemma NamedMidway(s: State, c: Change, q: nat)
    requires Fits(s.doc, c) && q <= |Apply(s.doc, c)|
    ensures NamedAfter(s, c, q) == AccountedFor(Mid(s, c).anchors, Mid(s, c).doc, q)
  {
  }

  lemma BehindIsUntouched(s: State, c: Change, p: nat)
    requires Inv(s) && Fits(s.doc, c) && IsStart(s.doc, p) && c.to < p
    ensures NameNow(s, c, p) == AccountedFor(s.anchors, s.doc, p)
  {
    var q, back := Shifted(c, p), Inverse(s.doc, c);
    MidIsSound(s, c);
    NameIsAfter(s, c, p);
    BehindKeepsName(s, c, p);
    NamedMidway(s, c, q);
    assert Shifted(back, q) == p;
    BehindKeepsName(Mid(s, c), back, q);
  }

  lemma BeforeIsUntouched(s: State, c: Change, p: nat)
    requires Inv(s) && Fits(s.doc, c) && IsStart(s.doc, p) && LineEnd(s.doc, p) < c.from
    ensures NameNow(s, c, p) == AccountedFor(s.anchors, s.doc, p)
  {
    MidIsSound(s, c);
    NameIsAfter(s, c, p);
    LineBefore(s.doc, c, p);
    BeforeNames(s, c, p);
    BeforeNames(Mid(s, c), Inverse(s.doc, c), p);
  }

  /** The line the edit begins on, when it ends on another. */
  lemma StartNames(s: State, c: Change)
    requires Inv(s) && Fits(s.doc, c) && LineFrom(s.doc, c.from) < LineFrom(s.doc, c.to)
    ensures var e := LineFrom(s.doc, c.from);
            NameNow(s, c, e) ==
            if c.text == "" && e == c.from then None
            else Naming(if '\n' in c.text then Get(s.anchors, e) else Joined(s, c), LineText(s.doc, e))
  {
    var e, mid, back := LineFrom(s.doc, c.from), Mid(s, c), Inverse(s.doc, c);
    MidIsSound(s, c);
    EndsApart(s.doc, c, e);
    forall pin | pin in mid.anchors
      ensures Landing(pin.at, mid.doc, back) == Some(e) <==> pin.at == e && (e < c.from || c.text != "")
    {
      ComesBack(s, c, e, pin);
    }
    if c.text == "" && e == c.from {
      NamedByNone(s, c, e);
    } else {
      NamedByOne(s, c, e, e);
      HeldAtTheStart(s, c);
    }
  }

  /** The anchor behind the new text, of an edit across lines. */
  function BehindTheText(s: State, c: Change, e: nat, z: nat): Option<Anchor>
    requires Fits(s.doc, c)
  {
    if c.text == "" && e == c.from then Joined(s, c) else if EndsLine(c.text) && z == c.to then Get(s.anchors, z) else None
  }

  /** The line the edit ends on, when it begins on another. */
  lemma EndNames(s: State, c: Change, e: nat, z: nat)
    requires Inv(s) && Fits(s.doc, c) && e == LineFrom(s.doc, c.from) < LineFrom(s.doc, c.to) == z
    ensures NameNow(s, c, z) == Naming(BehindTheText(s, c, e, z), LineText(s.doc, z))
  {
    EndIsNamedByOne(s, c, z, c.from + |c.text|);
    HeldAtTheEndOfMany(s, c, e, z);
  }

  lemma EndIsNamedByOne(s: State, c: Change, z: nat, q: nat)
    requires Inv(s) && Fits(s.doc, c) && LineFrom(s.doc, c.from) < LineFrom(s.doc, c.to) == z && q == c.from + |c.text|
    ensures NameNow(s, c, z) == Naming(Get(Mid(s, c).anchors, q), LineText(s.doc, z))
  {
    MidIsSound(s, c);
    forall pin | pin in Mid(s, c).anchors ensures Landing(pin.at, Mid(s, c).doc, Inverse(s.doc, c)) == Some(z) <==> pin.at == q {
      ComesBack(s, c, z, pin);
    }
    NamedByOne(s, c, z, q);
  }

  lemma HeldAtTheEndOfMany(s: State, c: Change, e: nat, z: nat)
    requires Inv(s) && Fits(s.doc, c) && e == LineFrom(s.doc, c.from) < LineFrom(s.doc, c.to) == z
    ensures Get(Mid(s, c).anchors, c.from + |c.text|) == BehindTheText(s, c, e, z)
  {
    EndsApart(s.doc, c, z);
    if c.text == "" { HeldWhereDeleted(s, c); } else { HeldAtTheEnd(s, c); NoPinOffStart(s, c.to); }
  }

  lemma HeldWhereDeleted(s: State, c: Change)
    requires Inv(s) && Fits(s.doc, c) && LineFrom(s.doc, c.from) < c.to && c.text == ""
    ensures Get(Mid(s, c).anchors, c.from) == if LineFrom(s.doc, c.from) == c.from then Joined(s, c) else None
  {
    EndsApart(s.doc, c, LineFrom(s.doc, c.from));
    if IsStart(s.doc, c.from) {
      HeldAtTheStart(s, c);
    } else {
      HeldWhereNothingStarts(s, c);
    }
  }

  /** A line that lies wholly inside what was replaced. */
  lemma InnerNames(s: State, c: Change, p: nat)
    requires Inv(s) && Fits(s.doc, c) && IsStart(s.doc, p)
    requires LineFrom(s.doc, c.from) < p < LineFrom(s.doc, c.to)
    ensures NameNow(s, c, p) == None
  {
    MidIsSound(s, c);
    forall pin | pin in Mid(s, c).anchors ensures Landing(pin.at, Mid(s, c).doc, Inverse(s.doc, c)) != Some(p) {
      ComesBack(s, c, p, pin);
    }
    NamedByNone(s, c, p);
  }

  /** An edit within one line. */
  lemma OneLineNames(s: State, c: Change)
    requires Inv(s) && Fits(s.doc, c) && LineFrom(s.doc, c.from) == LineFrom(s.doc, c.to)
    ensures var e := LineFrom(s.doc, c.from);
            NameNow(s, c, e) ==
            if c.from == c.to == e && !Harmless(c.text) then None else Naming(Get(s.anchors, e), LineText(s.doc, e))
  {
    var e, q := LineFrom(s.doc, c.from), c.from + |c.text|;
    HeldInOneLine(s, c);
    HarmlessIs(c.text);
    if e < q { OneLineOfTwo(s, c, e, q); } else { OneLineOfOne(s, c, e); }
  }

  lemma OneLineOfTwo(s: State, c: Change, e: nat, q: nat)
    requires Inv(s) && Fits(s.doc, c) && LineFrom(s.doc, c.from) == LineFrom(s.doc, c.to) == e && e < q == c.from + |c.text|
    ensures var first := Naming(Get(Mid(s, c).anchors, e), LineText(s.doc, e));
            NameNow(s, c, e) == if first.Some? then first else Naming(Get(Mid(s, c).anchors, q), LineText(s.doc, e))
  {
    MidIsSound(s, c);
    forall pin | pin in Mid(s, c).anchors
      ensures Landing(pin.at, Mid(s, c).doc, Inverse(s.doc, c)) == Some(e) <==> pin.at == e || pin.at == q
    {
      ComesBack(s, c, e, pin);
    }
    NamedByTwo(s, c, e, e, q);
  }

  lemma OneLineOfOne(s: State, c: Change, e: nat)
    requires Inv(s) && Fits(s.doc, c) && LineFrom(s.doc, c.from) == LineFrom(s.doc, c.to) == e == c.from && c.text == ""
    ensures NameNow(s, c, e) == Naming(Get(Mid(s, c).anchors, e), LineText(s.doc, e))
  {
    MidIsSound(s, c);
    forall pin | pin in Mid(s, c).anchors ensures Landing(pin.at, Mid(s, c).doc, Inverse(s.doc, c)) == Some(e) <==> pin.at == e {
      ComesBack(s, c, e, pin);
    }
    NamedByOne(s, c, e, e);
  }

  /** What that line and the place behind the new text hold. */
  lemma HeldInOneLine(s: State, c: Change)
    requires Inv(s) && Fits(s.doc, c) && LineFrom(s.doc, c.from) == LineFrom(s.doc, c.to)
    ensures var e, q := LineFrom(s.doc, c.from), c.from + |c.text|;
            && Get(Mid(s, c).anchors, e) == (if c.from == c.to == e && '\n' in c.text then None else Get(s.anchors, e))
            && (e < q ==> Get(Mid(s, c).anchors, q) == if c.from == c.to == e && EndsLine(c.text) then Get(s.anchors, e) else None)
  {
    var e, q := LineFrom(s.doc, c.from), c.from + |c.text|;
    HeldByTheLine(s, c, e);
    if e < q { HeldBehindTheText(s, c, e, q); }
  }

  lemma HeldByTheLine(s: State, c: Change, e: nat)
    requires Inv(s) && Fits(s.doc, c) && LineFrom(s.doc, c.from) == LineFrom(s.doc, c.to) == e
    ensures Get(Mid(s, c).anchors, e) == if c.from == c.to == e && '\n' in c.text then None else Get(s.anchors, e)
  {
    EndsApart(s.doc, c, e);
    if e == c.to {
      HeldWhereTyped(s, c);
    } else {
      NoPinOffStart(s, c.to);
      HeldAtTheStart(s, c);
    }
  }

  lemma HeldBehindTheText(s: State, c: Change, e: nat, q: nat)
    requires Inv(s) && Fits(s.doc, c) && LineFrom(s.doc, c.from) == LineFrom(s.doc, c.to) == e < q == c.from + |c.text|
    ensures Get(Mid(s, c).anchors, q) == if c.from == c.to == e && EndsLine(c.text) then Get(s.anchors, e) else None
  {
    if c.text == "" {
      HeldWhereNothingStarts(s, c);
    } else {
      HeldAtTheEnd(s, c);
      if c.to != e { NoStartInside(s, c, e); }
    }
  }

  lemma HeldWhereNothingStarts(s: State, c: Change)
    requires Inv(s) && Fits(s.doc, c) && LineFrom(s.doc, c.from) < c.from
    ensures Get(Mid(s, c).anchors, c.from) == None
  {
    MidIsSound(s, c);
    NotAStart(s.doc, c, LineFrom(s.doc, c.from));
    NoPinOffStart(Mid(s, c), c.from);
  }

  lemma NoStartInside(s: State, c: Change, e: nat)
    requires Inv(s) && Fits(s.doc, c) && LineFrom(s.doc, c.to) == e != c.to
    ensures Get(s.anchors, c.to) == None
  {
    if IsStart(s.doc, c.to) { OneFrom(s.doc, c.to, c.to); }
    NoPinOffStart(s, c.to);
  }

  lemma NotAStart(doc: string, c: Change, e: nat)
    requires Fits(doc, c) && LineFrom(doc, c.from) == e < c.from
    ensures !IsStart(Apply(doc, c), c.from)
  {
    Applied(doc, c);
  }

  // ---------------------------------------------------------------- the law

  /** Whom a line names once an edit is made and undone. */
  function NameUndone(s: State, c: Change, p: nat): Option<Commit>
    requires Fits(s.doc, c) && p <= |s.doc|
  {
    var e, z, own := LineFrom(s.doc, c.from), LineFrom(s.doc, c.to), AccountedFor(s.anchors, s.doc, p);
    if p < e || z < p then own
    else if e == z then (if c.from == c.to == p && !Harmless(c.text) then None else own)
    else if c.text == "" && e == c.from then (if p == z then Naming(Joined(s, c), LineText(s.doc, z)) else None)
    else if p == e then (if '\n' in c.text then own else Naming(Joined(s, c), LineText(s.doc, e)))
    else if p == z == c.to && EndsLine(c.text) then own
    else None
  }

  /** Line by line, for any edit in any run: whom the line names when the edit has been undone. */
  lemma {:induction false} UndoneNames(doc: string, transactions: seq<Transaction>, c: Change, p: nat)
    requires Fits(Run(doc, transactions).doc, c) && IsStart(Run(doc, transactions).doc, p)
    ensures var s := Run(doc, transactions);
            Undone(s, c).doc == s.doc && AccountedFor(Undone(s, c).anchors, s.doc, p) == NameUndone(s, c, p)
  {
    var s := Run(doc, transactions);
    InvAlways(doc, transactions);
    InverseUndoes(s.doc, c);
    AccountedIsNaming(s.anchors, s.doc, p);
    NamesOf(s, c, p);
  }

  lemma NamesOf(s: State, c: Change, p: nat)
    requires Inv(s) && Fits(s.doc, c) && IsStart(s.doc, p)
    ensures NameNow(s, c, p) == NameUndone(s, c, p)
  {
    EndsApart(s.doc, c, p);
    AccountedIsNaming(s.anchors, s.doc, p);
    var e, z := LineFrom(s.doc, c.from), LineFrom(s.doc, c.to);
    if p < e { BeforeIsUntouched(s, c, p); }
    else if z < p { BehindIsUntouched(s, c, p); }
    else if e == z { OneLineNames(s, c); }
    else if p == e { StartNames(s, c); }
    else if p == z { EndNames(s, c, e, z); }
    else { InnerNames(s, c, p); }
  }

  /** A change and the one that takes it back, behind a run. */
  function UndoneBehind(transactions: seq<Transaction>, doc: string, c: Change): seq<Transaction>
    requires Fits(doc, c)
  {
    Edited(Edited(transactions, c), Inverse(doc, c))
  }

  lemma UndoneRun(doc: string, transactions: seq<Transaction>, c: Change)
    requires Fits(Run(doc, transactions).doc, c)
    ensures var s := Run(doc, transactions); Run(doc, UndoneBehind(transactions, s.doc, c)) == Undone(s, c) && Undone(s, c).doc == s.doc
    ensures Undone(Run(doc, transactions), c).installed == Run(doc, transactions).installed
  {
    var s := Run(doc, transactions);
    UndoneIs(s, c);
    InverseUndoes(s.doc, c);
    EditedRun(doc, transactions, c);
    EditedRun(doc, Edited(transactions, c), Inverse(s.doc, c));
  }

  /** In terms of the column: a line's entry is what it was exactly when its name is. */
  lemma {:induction false} UndoKeepsEntry(doc: string, transactions: seq<Transaction>, c: Change, p: nat)
    requires var now := Run(doc, transactions).doc; Fits(now, c) && IsStart(now, p) && p < |now|
    ensures var s := Run(doc, transactions);
            SameEntry(MarksAfter(doc, transactions), p, MarksAfter(doc, UndoneBehind(transactions, s.doc, c)), p)
            <==> !s.installed || NameUndone(s, c, p) == AccountedFor(s.anchors, s.doc, p)
  {
    var s, undone := Run(doc, transactions), UndoneBehind(transactions, Run(doc, transactions).doc, c);
    UndoneNames(doc, transactions, c, p);
    UndoneRun(doc, transactions, c);
    var before, after := MarksAfter(doc, transactions), MarksAfter(doc, undone);
    forall named ensures Entry(p, named) in before.entries <==> s.installed && named == AccountedFor(s.anchors, s.doc, p) {
      EntrySays(doc, transactions, p, named);
    }
    forall named ensures Entry(p, named) in after.entries <==> s.installed && named == NameUndone(s, c, p) {
      EntrySays(doc, undone, p, named);
    }
    if s.installed { assert Entry(p, NameUndone(s, c, p)) in after.entries; }
  }

  /** Every line is named as before. */
  ghost predicate NamesKept(s: State, c: Change)
    requires Fits(s.doc, c)
  {
    forall p | IsStart(s.doc, p) :: NameNow(s, c, p) == AccountedFor(s.anchors, s.doc, p)
  }

  function Own(s: State, p: nat): Option<Commit>
    requires p <= |s.doc|
  {
    AccountedFor(s.anchors, s.doc, p)
  }

  /** Whether an edit can be undone with every name kept. Within one line, unless it breaks a line
      that names somebody at its very start by text that does not end in a break. Across lines, if no
      line inside names anybody and
      - where whole lines go and nothing is put in their place, the first names nobody, and the
        anchors that meet name for the line behind them whom it names now;
      - otherwise, the last line names nobody or a line still starts there, and the anchors that meet,
        if the lines are joined, name for the first line whom it names now. */
  ghost predicate KeepsNames(s: State, c: Change)
    requires Fits(s.doc, c)
  {
    var e, z := LineFrom(s.doc, c.from), LineFrom(s.doc, c.to);
    if e == z then !(c.from == c.to == e && Own(s, e).Some? && !Harmless(c.text))
    else
      && (forall p: nat | e < p < z && IsStart(s.doc, p) :: Own(s, p).None?)
      && if c.text == "" && e == c.from
         then Own(s, e).None? && Naming(Joined(s, c), LineText(s.doc, z)) == Own(s, z)
         else && (Own(s, z).None? || (z == c.to && EndsLine(c.text)))
              && ('\n' in c.text || Naming(Joined(s, c), LineText(s.doc, e)) == Own(s, e))
  }

  /** For any edit in any run: undoing it brings every name back exactly when that is so. */
  lemma {:induction false} UndoKeepsNames(doc: string, transactions: seq<Transaction>, c: Change)
    requires Fits(Run(doc, transactions).doc, c)
    ensures NamesKept(Run(doc, transactions), c) <==> KeepsNames(Run(doc, transactions), c)
  {
    var s := Run(doc, transactions);
    forall p | IsStart(s.doc, p) ensures NameNow(s, c, p) == NameUndone(s, c, p) { UndoneNames(doc, transactions, c, p); }
    EndsApart(s.doc, c, LineFrom(s.doc, c.from));
    if KeepsNames(s, c) { KeptEverywhere(s, c); }
    if NamesKept(s, c) { KeptAtEach(s, c); }
  }

  lemma KeptEverywhere(s: State, c: Change)
    requires Fits(s.doc, c) && KeepsNames(s, c) && LineFrom(s.doc, c.from) <= LineFrom(s.doc, c.to)
    ensures forall p | IsStart(s.doc, p) :: NameUndone(s, c, p) == Own(s, p)
  {
  }

  lemma KeptAtEach(s: State, c: Change)
    requires Fits(s.doc, c) && LineFrom(s.doc, c.from) <= LineFrom(s.doc, c.to)
    requires forall p | IsStart(s.doc, p) :: NameUndone(s, c, p) == Own(s, p)
    ensures KeepsNames(s, c)
  {
    var e, z := LineFrom(s.doc, c.from), LineFrom(s.doc, c.to);
    assert NameUndone(s, c, e) == Own(s, e) && NameUndone(s, c, z) == Own(s, z);
  }

  /** Typing text and taking it away again keeps every name, exactly unless the text breaks a line
      that names somebody at its very start without ending in a break. */
  lemma {:induction false} TypingKeepsNames(doc: string, transactions: seq<Transaction>, a: nat, text: string)
    requires a <= |Run(doc, transactions).doc|
    ensures var s := Run(doc, transactions);
            NamesKept(s, Change(a, a, text)) <==> AccountedFor(s.anchors, s.doc, a).None? || Harmless(text)
  {
    var s := Run(doc, transactions);
    UndoKeepsNames(doc, transactions, Change(a, a, text));
    InvAlways(doc, transactions);
    NoPinOffStart(s, a);
    EndsApart(s.doc, Change(a, a, text), LineFrom(s.doc, a));
  }

  // ---------------------------------------------------------------- an anchor lost, no name lost

  /** One named line, typed into at its start: its anchor stays and names nobody. */
  function Overtyped(x: Commit): seq<Transaction> {
    Edited(Single(x), Change(0, 0, "x"))
  }

  /** Breaking it now loses the anchor for good, and no name. */
  lemma AnchorLostWithoutAName(x: Commit)
    requires !x.uncommitted
    ensures var s, c := Run("a\n", Overtyped(x)), Change(0, 0, "b\nc"); Undone(s, c) != s && NamesKept(s, c)
  {
    var doc, ts, typed := "a\n", Single(x), Change(0, 0, "x");
    SingleInstalled(x);
    EditedRun(doc, ts, typed);
    var s, c := Run(doc, Overtyped(x)), Change(0, 0, "b\nc");
    OneFrom("xa\n", 0, 1);
    OneEnd("xa\n", 0, 2);
    MovedSingle(Pin(0, Anchor("a", x)), doc, typed);
    assert s.doc == "xa\n" && Get(s.anchors, 0) == Some(Anchor("a", x));
    TypingRestores(doc, Overtyped(x), 0, "b\nc");
    TypingKeepsNames(doc, Overtyped(x), 0, "b\nc");
  }
}
