/** Line endings across an editor's load and save, `internal/watch/content.go`: what is read is
    classified and shown with line feeds alone, and a save puts back what the file used. A file
    is the sequence of its characters. */
module LineEndings {
  import opened Strings

  /** `bytes.Count(raw, "\r\n")`. */
  function Pairs(raw: string): nat {
    if |raw| < 2 then 0
    else Pairs(raw[..|raw| - 1]) + if raw[|raw| - 2] == '\r' && raw[|raw| - 1] == '\n' then 1 else 0
  }

  /** Which line ending a file uses. */
  datatype Style = Feeds | CarriageFeeds | Mixed

  /** `classifyEOL`. */
  function Classify(raw: string): Style {
    if Count(raw, '\r') == 0 then Feeds
    else if Count(raw, '\r') == Pairs(raw) && Count(raw, '\n') == Pairs(raw) then CarriageFeeds
    else Mixed
  }

  /** `strings.ReplaceAll(s, "\r\n", "\n")`. */
  function Collapse(s: string): string {
    if |s| >= 2 && s[0] == '\r' && s[1] == '\n' then "\n" + Collapse(s[2..])
    else if s == "" then "" else [s[0]] + Collapse(s[1..])
  }

  /** `strings.ReplaceAll(s, "\n", "\r\n")`. */
  function Expand(s: string): string {
    if s == "" then "" else (if s[0] == '\n' then "\r\n" else [s[0]]) + Expand(s[1..])
  }

  /** `strings.ReplaceAll(s, "\r", "\n")`. */
  function Uncarry(s: string): string {
    if s == "" then "" else [if s[0] == '\r' then '\n' else s[0]] + Uncarry(s[1..])
  }

  /** `normalizeEOL`: the text an editor shows. */
  function Normalize(raw: string, style: Style): string {
    match style
    case Feeds => raw
    case CarriageFeeds => Collapse(raw)
    case Mixed => Uncarry(Collapse(raw))
  }

  /** What `WriteFile` puts on disk. */
  function Encode(content: string, crlf: bool): string {
    if crlf then Expand(content) else content
  }

  datatype Content = Content(text: string, crlf: bool, readOnly: bool)

  /** The line-ending part of `ReadFile`: a mixed file is shown and never written back. */
  function Load(raw: string): Content {
    var style := Classify(raw);
    Content(Normalize(raw, style), style == CarriageFeeds, style == Mixed)
  }

  // ---------------------------------------------------------------- what the counts say

  predicate EveryCarriagePaired(raw: string) {
    forall i | 0 <= i < |raw| && raw[i] == '\r' :: i + 1 < |raw| && raw[i + 1] == '\n'
  }

  predicate EveryFeedPaired(raw: string) {
    forall i | 0 <= i < |raw| && raw[i] == '\n' :: i > 0 && raw[i - 1] == '\r'
  }

  lemma {:induction false} CountIsZero(s: string, c: char)
    ensures Count(s, c) == 0 <==> c !in s
  {
    if s != "" {
      CountIsZero(s[..|s| - 1], c);
      assert s == s[..|s| - 1] + [s[|s| - 1]];
    }
  }

  lemma {:induction false} PairsCountCarriages(raw: string)
    ensures Pairs(raw) <= Count(raw, '\r')
    ensures Pairs(raw) == Count(raw, '\r') <==> EveryCarriagePaired(raw)
  {
    if raw != "" {
      var front, c := raw[..|raw| - 1], raw[|raw| - 1];
      PairsCountCarriages(front);
      if c == '\n' && front != "" && front[|front| - 1] == '\r' {
        var before := front[..|front| - 1];
        PairsCountCarriages(before);
        assert before == raw[..|raw| - 2];
        assert Pairs(front) == Pairs(before);
        assert EveryCarriagePaired(before) ==> EveryCarriagePaired(raw);
        assert EveryCarriagePaired(raw) ==> EveryCarriagePaired(before) by {
          forall i | 0 <= i < |before| && before[i] == '\r' && EveryCarriagePaired(raw)
            ensures i + 1 < |before| && before[i + 1] == '\n'
          {
            assert raw[i] == '\r' && raw[|before|] == '\r';
          }
        }
      } else {
        assert EveryCarriagePaired(raw) <==> EveryCarriagePaired(front) && c != '\r' by {
          assert forall i | 0 <= i < |front| :: front[i] == raw[i];
        }
      }
    }
  }

  lemma {:induction false} PairsCountFeeds(raw: string)
    ensures Pairs(raw) <= Count(raw, '\n')
    ensures Pairs(raw) == Count(raw, '\n') <==> EveryFeedPaired(raw)
  {
    if raw != "" {
      var front := raw[..|raw| - 1];
      PairsCountFeeds(front);
      assert forall i | 0 <= i < |front| :: front[i] == raw[i];
    }
  }

  /** A file counts as CRLF exactly when it has line endings of that kind and no other: every
      carriage return is followed by a line feed, and every line feed preceded by one. */
  lemma UniformOrMixed(raw: string)
    ensures Classify(raw) == CarriageFeeds <==> '\r' in raw && EveryCarriagePaired(raw) && EveryFeedPaired(raw)
    ensures Classify(raw) == Feeds <==> '\r' !in raw
  {
    CountIsZero(raw, '\r');
    PairsCountCarriages(raw);
    PairsCountFeeds(raw);
  }

  // ---------------------------------------------------------------- round trips

  lemma {:induction false} ExpandUndoesCollapse(raw: string)
    requires EveryCarriagePaired(raw) && EveryFeedPaired(raw)
    ensures Expand(Collapse(raw)) == raw
  {
    if raw != "" {
      if raw[0] == '\r' {
        var rest := raw[2..];
        assert raw == "\r\n" + rest;
        forall i | 0 <= i < |rest| && rest[i] == '\n' ensures i > 0 && rest[i - 1] == '\r' { assert raw[i + 2] == '\n'; assert raw[i + 1] == '\r'; }
        forall i | 0 <= i < |rest| && rest[i] == '\r' ensures i + 1 < |rest| && rest[i + 1] == '\n' { assert raw[i + 2] == '\r'; }
        ExpandUndoesCollapse(rest);
        assert Collapse(raw)[1..] == Collapse(rest);
      } else {
        var rest := raw[1..];
        assert raw == [raw[0]] + rest;
        assert forall i | 0 <= i < |rest| :: rest[i] == raw[i + 1];
        ExpandUndoesCollapse(rest);
        assert Collapse(raw)[1..] == Collapse(rest);
      }
    }
  }

  lemma {:induction false} UncarryLeavesNone(s: string)
    ensures '\r' !in Uncarry(s)
  {
    if s != "" { UncarryLeavesNone(s[1..]); }
  }

  lemma {:induction false} CollapseLeavesNone(raw: string)
    requires EveryCarriagePaired(raw)
    ensures '\r' !in Collapse(raw)
  {
    if raw != "" {
      var n := if raw[0] == '\r' then 2 else 1;
      var rest := raw[n..];
      forall i | 0 <= i < |rest| && rest[i] == '\r' ensures i + 1 < |rest| && rest[i + 1] == '\n' { assert raw[i + n] == '\r'; }
      CollapseLeavesNone(rest);
    }
  }

  /** Whatever the file held, the editor is shown line feeds alone. */
  lemma LoadedTextIsPlain(raw: string)
    ensures '\r' !in Load(raw).text
  {
    UniformOrMixed(raw);
    if Classify(raw) == CarriageFeeds { CollapseLeavesNone(raw); }
    UncarryLeavesNone(Collapse(raw));
  }

  /** The text with every line ending, of whichever kind, read as one line feed. */
  function OnePass(raw: string): string {
    if raw == "" then ""
    else if raw[0] == '\r' then "\n" + OnePass(if |raw| > 1 && raw[1] == '\n' then raw[2..] else raw[1..])
    else [raw[0]] + OnePass(raw[1..])
  }

  lemma {:induction false} TwoPassesAreOne(raw: string)
    ensures Uncarry(Collapse(raw)) == OnePass(raw)
  {
    if raw != "" {
      var paired := |raw| >= 2 && raw[0] == '\r' && raw[1] == '\n';
      var rest := if paired then raw[2..] else raw[1..];
      TwoPassesAreOne(rest);
      assert Collapse(raw) == [if paired then '\n' else raw[0]] + Collapse(rest);
      assert Collapse(raw)[1..] == Collapse(rest);
    }
  }

  lemma {:induction false} UncarryPlain(s: string)
    requires '\r' !in s
    ensures Uncarry(s) == s
  {
    if s != "" {
      assert s == [s[0]] + s[1..];
      UncarryPlain(s[1..]);
    }
  }

  lemma {:induction false} CollapsePlain(s: string)
    requires '\r' !in s
    ensures Collapse(s) == s
  {
    if s != "" {
      assert s == [s[0]] + s[1..];
      CollapsePlain(s[1..]);
    }
  }

  /** What the editor shows is the file's own text, line for line: each of its line endings, whichever
      kind it is, has become one line feed, and nothing else has changed; it is read-only exactly when
      its endings differ. */
  lemma ShownLineForLine(raw: string)
    ensures Load(raw).text == OnePass(raw)
    ensures Load(raw).readOnly <==> '\r' in raw && !(EveryCarriagePaired(raw) && EveryFeedPaired(raw))
    ensures Load(raw).crlf <==> '\r' in raw && EveryCarriagePaired(raw) && EveryFeedPaired(raw)
  {
    UniformOrMixed(raw);
    TwoPassesAreOne(raw);
    match Classify(raw)
    case Feeds => CollapsePlain(raw); UncarryPlain(raw);
    case CarriageFeeds => CollapseLeavesNone(raw); UncarryPlain(Collapse(raw));
    case Mixed =>
  }

  /** Loading a file that is not mixed and saving it unchanged gives back the very same bytes. */
  lemma SaveUndoesLoad(raw: string)
    requires !Load(raw).readOnly
    ensures Encode(Load(raw).text, Load(raw).crlf) == raw
  {
    UniformOrMixed(raw);
    if Classify(raw) == CarriageFeeds { ExpandUndoesCollapse(raw); }
  }

  lemma {:induction false} CollapseUndoesExpand(text: string)
    requires '\r' !in text
    ensures Collapse(Expand(text)) == text
  {
    if text != "" {
      var rest := text[1..];
      assert text == [text[0]] + rest;
      CollapseUndoesExpand(rest);
      if text[0] == '\n' {
        assert Expand(text) == "\r\n" + Expand(rest);
        assert Expand(text)[2..] == Expand(rest);
      } else {
        assert Expand(text)[1..] == Expand(rest);
      }
    }
  }

  lemma {:induction false} ExpandIsUniform(text: string)
    requires '\r' !in text
    ensures EveryCarriagePaired(Expand(text)) && EveryFeedPaired(Expand(text))
    ensures '\r' in Expand(text) <==> '\n' in text
    ensures Expand(text) != "" ==> Expand(text)[0] != '\n'
  {
    if text != "" {
      var rest := text[1..];
      assert text == [text[0]] + rest;
      ExpandIsUniform(rest);
      var tail, head := Expand(rest), if text[0] == '\n' then "\r\n" else [text[0]];
      var all := head + tail;
      assert forall i | |head| <= i < |all| :: all[i] == tail[i - |head|];
      forall i | 0 <= i < |all| && all[i] == '\r' ensures i + 1 < |all| && all[i + 1] == '\n' {
        if i >= |head| { assert tail[i - |head|] == '\r'; assert all[i + 1] == tail[i + 1 - |head|]; }
      }
      forall i | 0 <= i < |all| && all[i] == '\n' ensures i > 0 && all[i - 1] == '\r' {
        if i >= |head| { assert tail[i - |head|] == '\n'; assert i > |head|; assert all[i - 1] == tail[i - 1 - |head|]; }
      }
    }
  }

  /** Text an editor holds, saved as CRLF, reads back as the same text, and as CRLF exactly when
      it has a line break to show it. */
  lemma LoadUndoesSave(text: string)
    requires '\r' !in text
    ensures Load(Encode(text, true)) == Content(text, '\n' in text, false)
    ensures Load(Encode(text, false)) == Content(text, false, false)
  {
    ExpandIsUniform(text);
    UniformOrMixed(Expand(text));
    UniformOrMixed(text);
    CollapseUndoesExpand(text);
    if '\n' !in text { NothingToExpand(text); }
  }

  lemma {:induction false} NothingToExpand(text: string)
    requires '\n' !in text
    ensures Expand(text) == text
  {
    if text != "" {
      assert text == [text[0]] + text[1..];
      NothingToExpand(text[1..]);
    }
  }
}
