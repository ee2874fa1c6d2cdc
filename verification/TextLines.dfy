/** A document as an editor sees it: one string, its lines, and what a single replacement does
    to a position in it (CodeMirror's change mapping with forward association, dropping
    positions inside a deletion). */
module TextLines {
  import opened Sequences

  predicate IsStart(doc: string, p: nat) {
    p <= |doc| && (p == 0 || doc[p - 1] == '\n')
  }

  predicate IsEnd(doc: string, p: nat) {
    p <= |doc| && (p == |doc| || doc[p] == '\n')
  }

  /** No line break in this part of the document. */
  predicate Unbroken(doc: string, from: nat, to: nat) {
    from <= to <= |doc| && forall i | from <= i < to :: doc[i] != '\n'
  }

  function LineEnd(doc: string, p: nat): (e: nat)
    requires p <= |doc|
    ensures IsEnd(doc, e) && Unbroken(doc, p, e)
    decreases |doc| - p
  {
    if p == |doc| || doc[p] == '\n' then p else LineEnd(doc, p + 1)
  }

  /** `lineAt(p).from`. */
  function LineFrom(doc: string, p: nat): (from: nat)
    requires p <= |doc|
    ensures IsStart(doc, from) && Unbroken(doc, from, p)
  {
    if p == 0 || doc[p - 1] == '\n' then p else LineFrom(doc, p - 1)
  }

  function LineText(doc: string, from: nat): string
    requires from <= |doc|
  {
    doc[from..LineEnd(doc, from)]
  }

  lemma OneEnd(doc: string, p: nat, e: nat)
    requires Unbroken(doc, p, e) && IsEnd(doc, e)
    ensures LineEnd(doc, p) == e
  {
  }

  lemma OneFrom(doc: string, from: nat, p: nat)
    requires Unbroken(doc, from, p) && IsStart(doc, from)
    ensures LineFrom(doc, p) == from
  {
  }

  /** The position is on the line that starts here. */
  lemma OnLine(doc: string, from: nat, p: nat)
    requires p <= |doc| && IsStart(doc, from)
    ensures LineFrom(doc, p) == from <==> from <= p <= LineEnd(doc, from)
  {
    if from <= p <= LineEnd(doc, from) { OneFrom(doc, from, p); }
  }

  /** Where the document's lines start, in order. */
  function Starts(doc: string): (starts: seq<nat>)
    ensures |starts| > 0
    ensures forall p :: p in starts <==> IsStart(doc, p)
    ensures forall i, j | 0 <= i < j < |starts| :: starts[i] < starts[j]
  {
    if doc == "" then [0] else
    var front, n := Starts(doc[..|doc| - 1]), |doc|;
    assert forall p: nat | p < n :: IsStart(doc, p) <==> IsStart(doc[..n - 1], p);
    assert forall i | 0 <= i < |front| :: front[i] in front;
    if doc[n - 1] == '\n' then front + [n] else front
  }

  // ---------------------------------------------------------------- one replacement

  datatype Change = Change(from: nat, to: nat, text: string)

  predicate Fits(doc: string, c: Change) {
    c.from <= c.to <= |doc|
  }

  function Apply(doc: string, c: Change): string
    requires Fits(doc, c)
  {
    doc[..c.from] + c.text + doc[c.to..]
  }

  /** `mapPos(p, 1, MapMode.TrackDel)`. */
  function MapPos(c: Change, p: nat): Option<nat>
    requires c.from <= c.to
  {
    if p < c.from then Some(p)
    else if c.from < p < c.to then None
    else if p == c.from && c.from < c.to then Some(p)
    else Some(p - c.to + c.from + |c.text|)
  }

  /** Where text behind the replacement has moved. */
  function Shifted(c: Change, p: nat): nat
    requires c.from <= c.to <= p
  {
    p - c.to + c.from + |c.text|
  }

  lemma MapPosInside(doc: string, c: Change, p: nat)
    requires Fits(doc, c) && p <= |doc|
    ensures MapPos(c, p).Some? ==> MapPos(c, p).value <= |Apply(doc, c)|
  {
  }

  /** Everything ahead of a replacement is where it was, and everything behind it has moved. */
  lemma Applied(doc: string, c: Change)
    requires Fits(doc, c)
    ensures var after, behind := Apply(doc, c), c.from + |c.text|;
            && |after| == |doc| - (c.to - c.from) + |c.text|
            && (forall i | 0 <= i < c.from :: after[i] == doc[i])
            && (forall i | c.from <= i < behind :: after[i] == c.text[i - c.from])
            && (forall i | behind <= i < |after| :: after[i] == doc[i - behind + c.to])
  {
  }

  /** Whether a line that ends where a replacement begins still ends there. */
  predicate EndStays(doc: string, c: Change)
    requires Fits(doc, c)
  {
    if c.text == "" then IsEnd(doc, c.to) else c.text[0] == '\n'
  }

  /** A line that ends before the replacement is where it was and reads as it did; one that ends
      exactly where it begins does so exactly when a line still ends there. */
  lemma LineBefore(doc: string, c: Change, p: nat)
    requires Fits(doc, c) && IsStart(doc, p) && LineEnd(doc, p) <= c.from
    ensures IsStart(Apply(doc, c), p)
    ensures IsEnd(Apply(doc, c), LineEnd(doc, p)) <==> LineEnd(doc, p) < c.from || EndStays(doc, c)
    ensures LineEnd(doc, p) < c.from || EndStays(doc, c) ==>
              LineEnd(Apply(doc, c), p) == LineEnd(doc, p) && LineText(Apply(doc, c), p) == LineText(doc, p)
  {
    var e, after := LineEnd(doc, p), Apply(doc, c);
    Applied(doc, c);
    assert Unbroken(after, p, e);
    if IsEnd(after, e) { OneEnd(after, p, e); }
  }

  /** Whether a line that starts where a replacement ends still starts there. */
  predicate StartStays(doc: string, c: Change)
    requires Fits(doc, c)
  {
    if c.text == "" then IsStart(doc, c.from) else c.text[|c.text| - 1] == '\n'
  }

  /** What stands behind the replacement has moved with it and reads as it did; a line that starts
      exactly where it ends is still a line exactly when one still starts there. */
  lemma LineBehind(doc: string, c: Change, p: nat)
    requires Fits(doc, c) && IsStart(doc, p) && c.to <= p
    ensures var q := Shifted(c, p);
            && q <= |Apply(doc, c)|
            && (IsStart(Apply(doc, c), q) <==> c.to < p || StartStays(doc, c))
            && LineEnd(Apply(doc, c), q) == Shifted(c, LineEnd(doc, p))
            && LineText(Apply(doc, c), q) == LineText(doc, p)
            && (q == |Apply(doc, c)| <==> p == |doc|)
  {
    TextBehind(doc, c, p);
    StartBehind(doc, c, p);
    Applied(doc, c);
  }

  lemma StartBehind(doc: string, c: Change, p: nat)
    requires Fits(doc, c) && IsStart(doc, p) && c.to <= p
    ensures IsStart(Apply(doc, c), Shifted(c, p)) <==> c.to < p || StartStays(doc, c)
  {
    Applied(doc, c);
  }

  /** Two documents that read alike from here on have the same line here. */
  lemma {:induction false} SameTail(a: string, q: nat, b: string, p: nat)
    requires q <= |a| && p <= |b| && a[q..] == b[p..]
    ensures LineEnd(a, q) - q == LineEnd(b, p) - p
    decreases |a| - q
  {
    assert |a| - q == |b| - p;
    if q < |a| {
      assert a[q] == a[q..][0] == b[p];
      assert a[q + 1..] == a[q..][1..] == b[p + 1..];
      SameTail(a, q + 1, b, p + 1);
    }
  }

  lemma AppliedTail(doc: string, c: Change, p: nat)
    requires Fits(doc, c) && c.to <= p <= |doc|
    ensures Shifted(c, p) <= |Apply(doc, c)| && Apply(doc, c)[Shifted(c, p)..] == doc[p..]
  {
    assert Apply(doc, c)[c.from + |c.text|..] == doc[c.to..];
  }

  lemma TextBehind(doc: string, c: Change, p: nat)
    requires Fits(doc, c) && c.to <= p <= |doc|
    ensures Shifted(c, p) <= |Apply(doc, c)|
    ensures LineEnd(Apply(doc, c), Shifted(c, p)) == Shifted(c, LineEnd(doc, p))
    ensures LineText(Apply(doc, c), Shifted(c, p)) == LineText(doc, p)
  {
    var q, after := Shifted(c, p), Apply(doc, c);
    AppliedTail(doc, c, p);
    SameTail(after, q, doc, p);
    assert after[q..LineEnd(after, q)] == after[q..][..LineEnd(after, q) - q];
    assert doc[p..LineEnd(doc, p)] == doc[p..][..LineEnd(doc, p) - p];
  }

  /** A later position is on the same line or a later one. */
  lemma LineFromMonotone(doc: string, p: nat, q: nat)
    requires p <= q <= |doc|
    ensures LineFrom(doc, p) <= LineFrom(doc, q)
  {
  }
}
