/** Strings as the Go and TypeScript sources take them apart: splitting, cutting, trimming and
    decimal numbers. Strings are sequences of characters. */
module Strings {
  import opened Sequences

  // ---------------------------------------------------------------- splitting and joining

  /** `strings.Split` at a single separator. */
  function Split(s: string, sep: char): (r: seq<string>)
    ensures |r| > 0
    ensures forall i | 0 <= i < |r| :: sep !in r[i]
  {
    if s == "" then [""] else Extend(Split(s[..|s| - 1], sep), s[|s| - 1], sep)
  }

  /** One more character: a separator opens a segment, anything else lengthens the last. */
  function Extend(r: seq<string>, c: char, sep: char): seq<string>
    requires r != []
  {
    if c == sep then r + [""] else r[..|r| - 1] + [r[|r| - 1] + [c]]
  }

  lemma ExtendRight(a: seq<string>, b: seq<string>, c: char, sep: char)
    requires b != []
    ensures Extend(a + b, c, sep) == a + Extend(b, c, sep)
  {
    assert (a + b)[|a + b| - 1] == b[|b| - 1];
  }

  function Join(segments: seq<string>, sep: char): string {
    if segments == [] then ""
    else if |segments| == 1 then segments[0]
    else Join(segments[..|segments| - 1], sep) + [sep] + segments[|segments| - 1]
  }

  lemma JoinSnoc(segments: seq<string>, last: string, sep: char)
    ensures Join(segments + [last], sep) == if segments == [] then last else Join(segments, sep) + [sep] + last
  {
    assert (segments + [last])[..|segments|] == segments;
  }

  lemma JoinGrow(segments: seq<string>, last: string, more: string, sep: char)
    ensures Join(segments + [last + more], sep) == Join(segments + [last], sep) + more
  {
    JoinSnoc(segments, last, sep);
    JoinSnoc(segments, last + more, sep);
    if segments != [] { Assoc(Join(segments, sep) + [sep], last, more); }
  }

  lemma {:induction false} JoinSplit(s: string, sep: char)
    ensures Join(Split(s, sep), sep) == s
  {
    if s != "" {
      var front, c := s[..|s| - 1], s[|s| - 1];
      assert front + [c] == s;
      JoinSplit(front, sep);
      var r := Split(front, sep);
      if c == sep {
        JoinSnoc(r, "", sep);
        assert Join(r, sep) + [sep] + "" == Join(r, sep) + [sep];
      } else {
        var init, last := r[..|r| - 1], r[|r| - 1];
        assert r == init + [last];
        JoinGrow(init, last, [c], sep);
      }
    }
  }

  lemma SplitSnoc(s: string, c: char, sep: char)
    ensures Split(s + [c], sep) == Extend(Split(s, sep), c, sep)
  {
    assert (s + [c])[..|s|] == s;
  }

  /** A separator splits what stands before it from what stands after. */
  lemma {:induction false} SplitAround(a: string, b: string, sep: char)
    ensures Split(a + [sep] + b, sep) == Split(a, sep) + Split(b, sep)
  {
    if b == "" {
      SplitSnoc(a, sep, sep);
      assert a + [sep] + b == a + [sep];
    } else {
      var front, c := b[..|b| - 1], b[|b| - 1];
      SplitAround(a, front, sep);
      assert b == front + [c];
      SplitSnoc(a + [sep] + front, c, sep);
      Assoc(a + [sep], front, [c]);
      ExtendRight(Split(a, sep), Split(front, sep), c, sep);
    }
  }

  lemma {:induction false} SplitUnbroken(s: string, sep: char)
    requires sep !in s
    ensures Split(s, sep) == [s]
  {
    if s != "" {
      var front, c := s[..|s| - 1], s[|s| - 1];
      assert front + [c] == s;
      SplitUnbroken(front, sep);
      SplitSnoc(front, c, sep);
    }
  }

  lemma {:induction false} SplitJoin(segments: seq<string>, sep: char)
    requires segments != [] && forall i | 0 <= i < |segments| :: sep !in segments[i]
    ensures Split(Join(segments, sep), sep) == segments
  {
    var front, last := segments[..|segments| - 1], segments[|segments| - 1];
    assert segments == front + [last];
    JoinSnoc(front, last, sep);
    SplitUnbroken(last, sep);
    if front != [] {
      SplitJoin(front, sep);
      SplitAround(Join(front, sep), last, sep);
    }
  }

  lemma JoinAssoc(a: string, b: string, c: string, sep: char)
    ensures (a + [sep] + b) + [sep] + c == a + [sep] + (b + [sep] + c)
  {
    Assoc(a + [sep] + b, [sep], c);
    Assoc(a + [sep], b, [sep] + c);
    Assoc(b, [sep], c);
  }

  lemma {:induction false} JoinConcat(a: seq<string>, b: seq<string>, sep: char)
    requires a != [] && b != []
    ensures Join(a + b, sep) == Join(a, sep) + [sep] + Join(b, sep)
  {
    var front, last := b[..|b| - 1], b[|b| - 1];
    assert b == front + [last];
    JoinSnoc(front, last, sep);
    if front == [] {
      assert a + b == a + [last];
      JoinSnoc(a, last, sep);
    } else {
      Assoc(a, front, [last]);
      JoinSnoc(a + front, last, sep);
      JoinConcat(a, front, sep);
      JoinAssoc(Join(a, sep), Join(front, sep), last, sep);
    }
  }

  lemma {:induction false} SplitKeepsOut(s: string, c: char, sep: char)
    requires c !in s
    ensures forall i | 0 <= i < |Split(s, sep)| :: c !in Split(s, sep)[i]
  {
    if s != "" { SplitKeepsOut(s[..|s| - 1], c, sep); }
  }


  /** Every piece with a separator behind it. */
  function Terminated(pieces: seq<string>, sep: char): string {
    if pieces == [] then "" else Terminated(pieces[..|pieces| - 1], sep) + pieces[|pieces| - 1] + [sep]
  }

  lemma {:induction false} TerminatedIsJoined(pieces: seq<string>, sep: char)
    requires pieces != []
    ensures Terminated(pieces, sep) == Join(pieces, sep) + [sep]
  {
    var front, last := pieces[..|pieces| - 1], pieces[|pieces| - 1];
    assert pieces == front + [last];
    JoinSnoc(front, last, sep);
    if front == [] {
      assert Terminated(front, sep) == "";
      assert "" + last == last;
    } else {
      TerminatedIsJoined(front, sep);
    }
  }

  /** What a stream of terminated pieces splits into: the pieces, and an empty tail. */
  lemma TerminatedSplits(pieces: seq<string>, sep: char)
    requires forall i | 0 <= i < |pieces| :: sep !in pieces[i]
    ensures Split(Terminated(pieces, sep), sep) == pieces + [""]
  {
    if pieces != [] {
      TerminatedIsJoined(pieces, sep);
      SplitJoin(pieces, sep);
      SplitSnoc(Join(pieces, sep), sep, sep);
    }
  }

  function Count(s: string, c: char): nat {
    if s == "" then 0 else Count(s[..|s| - 1], c) + if s[|s| - 1] == c then 1 else 0
  }

  lemma {:induction false} SplitCounts(s: string, sep: char)
    ensures |Split(s, sep)| == Count(s, sep) + 1
  {
    if s != "" { SplitCounts(s[..|s| - 1], sep); }
  }

  // ---------------------------------------------------------------- spaces

  /** `unicode.IsSpace`. */
  predicate IsSpace(c: char) {
    || c == ' ' || '\t' <= c <= '\r' || c == '\U{85}' || c == '\U{A0}' || c == '\U{1680}'
    || '\U{2000}' <= c <= '\U{200A}' || c == '\U{2028}' || c == '\U{2029}' || c == '\U{202F}'
    || c == '\U{205F}' || c == '\U{3000}'
  }

  function TrimLeft(s: string): string {
    if s != "" && IsSpace(s[0]) then TrimLeft(s[1..]) else s
  }

  function TrimRight(s: string): string {
    if s != "" && IsSpace(s[|s| - 1]) then TrimRight(s[..|s| - 1]) else s
  }

  /** `strings.TrimSpace`. */
  function Trim(s: string): string {
    TrimRight(TrimLeft(s))
  }

  lemma {:induction false} TrimRightBare(s: string)
    ensures TrimRight(s) <= s
    ensures TrimRight(s) != "" ==> !IsSpace(TrimRight(s)[|TrimRight(s)| - 1])
  {
    if s != "" && IsSpace(s[|s| - 1]) { TrimRightBare(s[..|s| - 1]); }
  }

  lemma {:induction false} TrimLeftBare(s: string)
    ensures |TrimLeft(s)| <= |s| && TrimLeft(s) == s[|s| - |TrimLeft(s)|..]
    ensures TrimLeft(s) != "" ==> !IsSpace(TrimLeft(s)[0])
  {
    if s != "" && IsSpace(s[0]) { TrimLeftBare(s[1..]); }
  }

  /** Neither end of the string is a space. */
  predicate Bare(s: string) {
    s != "" ==> !IsSpace(s[0]) && !IsSpace(s[|s| - 1])
  }

  lemma TrimmedLessUnlessBare(s: string)
    ensures Bare(Trim(s))
    ensures if Bare(s) then Trim(s) == s else |Trim(s)| < |s|
  {
    var left := TrimLeft(s);
    var both := TrimRight(left);
    TrimLeftBare(s);
    TrimRightBare(left);
    if both != "" { assert both[0] == left[0]; }
    if |both| == |s| { assert both == s; }
  }

  lemma TrimmedIsInside(s: string)
    ensures '\\' !in s ==> '\\' !in Trim(s)
  {
    TrimLeftBare(s);
    TrimRightBare(TrimLeft(s));
  }


  /** `strings.Fields`: what stands between runs of spaces. */
  function Fields(s: string): (r: seq<string>)
    ensures forall i | 0 <= i < |r| :: r[i] != ""
    ensures s != "" && !IsSpace(s[|s| - 1]) ==> r != []
  {
    if s == "" then [] else
    var front, c := s[..|s| - 1], s[|s| - 1];
    if IsSpace(c) then Fields(front)
    else if front == "" || IsSpace(front[|front| - 1]) then Fields(front) + [[c]]
    else
      var r := Fields(front);
      r[..|r| - 1] + [r[|r| - 1] + [c]]
  }

  predicate Word(s: string) {
    s != "" && forall i | 0 <= i < |s| :: !IsSpace(s[i])
  }

  /** A word behind a space is one more field. */
  lemma {:induction false} FieldsSnoc(s: string, word: string)
    requires Word(word)
    ensures Fields(s + " " + word) == Fields(s) + [word]
  {
    var all := s + " " + word;
    var front, c := word[..|word| - 1], word[|word| - 1];
    assert word == front + [c];
    if front == "" {
      assert all[..|all| - 1] == s + " ";
      assert (s + " ")[..|s|] == s;
    } else {
      FieldsSnoc(s, front);
      assert all[..|all| - 1] == s + " " + front;
    }
  }

  lemma {:induction false} FieldsOfWord(word: string)
    requires Word(word)
    ensures Fields(word) == [word]
  {
    var front, c := word[..|word| - 1], word[|word| - 1];
    assert word == front + [c];
    if front != "" { FieldsOfWord(front); }
  }

  // ---------------------------------------------------------------- cutting

  function IndexOf(s: string, c: char): (i: nat)
    ensures i <= |s| && c !in s[..i] && (i < |s| ==> s[i] == c)
  {
    if s == "" then 0 else
    var i := IndexOf(s[..|s| - 1], c);
    assert s[..|s| - 1][..i] == s[..i];
    if i < |s| - 1 || s[i] == c then i else
    assert s == s[..i] + [s[i]];
    |s|
  }

  datatype Halves = Halves(before: string, after: string)

  /** `strings.Cut` around the first separator, if there is one. */
  function Cut(s: string, sep: char): Option<Halves> {
    var i := IndexOf(s, sep);
    if i < |s| then Some(Halves(s[..i], s[i + 1..])) else None
  }

  lemma CutAround(a: string, b: string, sep: char)
    requires sep !in a
    ensures Cut(a + [sep] + b, sep) == Some(Halves(a, b))
  {
    var s := a + [sep] + b;
    var i := IndexOf(s, sep);
    assert s[|a|] == sep;
    assert s[..|a|] == a && s[|a| + 1..] == b;
  }

  /** `strings.SplitN`: at most n pieces, the last of them whole. */
  function SplitN(s: string, sep: char, n: nat): seq<string>
    requires n > 0
  {
    var cut := Cut(s, sep);
    if n == 1 || cut.None? then [s] else [cut.value.before] + SplitN(cut.value.after, sep, n - 1)
  }

  /** Fields with a space behind each, then whatever follows. */
  function Spaced(fields: seq<string>, tail: string): string {
    if fields == [] then tail else fields[0] + " " + Spaced(fields[1..], tail)
  }

  lemma {:induction false} SplitNSpaced(fields: seq<string>, tail: string)
    requires forall i | 0 <= i < |fields| :: ' ' !in fields[i]
    ensures SplitN(Spaced(fields, tail), ' ', |fields| + 1) == fields + [tail]
  {
    if fields != [] {
      CutAround(fields[0], Spaced(fields[1..], tail), ' ');
      SplitNSpaced(fields[1..], tail);
      assert fields == [fields[0]] + fields[1..];
    }
  }

  lemma {:induction false} SpacedKeepsOut(fields: seq<string>, tail: string, c: char)
    requires c != ' ' && c !in tail && forall i | 0 <= i < |fields| :: c !in fields[i]
    ensures c !in Spaced(fields, tail)
  {
    if fields != [] { SpacedKeepsOut(fields[1..], tail, c); }
  }

  // ---------------------------------------------------------------- numbers

  predicate AllDigits(s: string) {
    forall i | 0 <= i < |s| :: '0' <= s[i] <= '9'
  }

  function Value(s: string): nat
    requires AllDigits(s)
  {
    if s == "" then 0 else Value(s[..|s| - 1]) * 10 + (s[|s| - 1] as int - '0' as int)
  }

  /** `strconv.Atoi` on a 64-bit machine. */
  function Atoi(s: string): Option<int> {
    var digits := if s != "" && (s[0] == '-' || s[0] == '+') then s[1..] else s;
    if digits == "" || !AllDigits(digits) then None else
    var n: int := if s[0] == '-' then 0 - Value(digits) else Value(digits);
    if InRange(n) then Some(n) else None
  }

  predicate InRange(n: int) {
    -0x8000_0000_0000_0000 <= n < 0x8000_0000_0000_0000
  }

  function Digits(n: nat): (s: string)
    ensures s != "" && AllDigits(s) && Value(s) == n
  {
    var d := ('0' as int + n % 10) as char;
    if n < 10 then
      assert [d][..0] == "";
      [d]
    else
      var s := Digits(n / 10) + [d];
      assert s[..|s| - 1] == Digits(n / 10);
      s
  }

  function IntText(n: int): string {
    if n < 0 then "-" + Digits(-n) else Digits(n)
  }

  /** A printed number is read back if 64 bits hold it, and refused otherwise. */
  lemma AtoiReadsText(n: int)
    ensures Atoi(IntText(n)) == if -0x8000_0000_0000_0000 <= n <= 0x7FFF_FFFF_FFFF_FFFF then Some(n) else None
  {
    if n < 0 { AtoiReadsNegative(-n); } else { AtoiReadsDigits(n); }
  }

  lemma AtoiReadsDigits(n: nat)
    ensures Atoi(Digits(n)) == if InRange(n) then Some(n) else None
  {
    assert '0' <= Digits(n)[0] <= '9';
  }

  lemma AtoiReadsNegative(n: nat)
    requires n > 0
    ensures Atoi("-" + Digits(n)) == if InRange(0 - n) then Some(0 - n) else None
  {
    assert ("-" + Digits(n))[1..] == Digits(n);
  }

  lemma IntTextPlain(n: int)
    ensures Word(IntText(n)) && ' ' !in IntText(n) && '\n' !in IntText(n) && '\0' !in IntText(n)
  {
  }
}
