// Text handling shared by checkpoint enrichment and the context compiler:
// token estimates, sentence-aware truncation and the escaping of rendered data.
module Text {
  import opened Basics

  const ELLIPSIS: char := '\U{2026}'

  // Bytes a character occupies in UTF-8 (RFC 3629, section 3).
  function Utf8Width(c: char): nat {
    if c as int < 0x80 then 1
    else if c as int < 0x800 then 2
    else if c as int < 0x1_0000 then 3
    else 4
  }

  function ByteLen(s: string): nat {
    if s == "" then 0 else ByteLen(s[..|s| - 1]) + Utf8Width(s[|s| - 1])
  }

  predicate IsAscii(s: string) {
    forall i | 0 <= i < |s| :: s[i] as int < 0x80
  }

  predicate IsStop(c: char) { c == '.' || c == '\n' || c == ';' }

  // Character index of the last sentence stop.
  function LastStop(s: string): (r: Option<nat>)
    ensures r.Some? ==> r.value < |s| && IsStop(s[r.value])
    ensures forall i | (if r.Some? then r.value + 1 else 0) <= i < |s| :: !IsStop(s[i])
  {
    if s == "" then None
    else if IsStop(s[|s| - 1]) then Some(|s| - 1)
    else LastStop(s[..|s| - 1])
  }

  function EstimateTokens(text: string): (tokens: nat)
    ensures tokens >= 1 && 3 * tokens >= |text| && (|text| > 0 ==> 3 * tokens < |text| + 3)
  {
    if (|text| + 2) / 3 == 0 then 1 else (|text| + 2) / 3
  }

  function SaturatingPred(n: nat): nat {
    if n == 0 then 0 else n - 1
  }

  // The ASCII branch measures in bytes, the other one counts characters but
  // compares byte offsets when it decides whether to stop at a sentence.
  function TruncateToTokens(text: string, tokens: nat): string {
    var maxChars := 3 * tokens;
    if IsAscii(text) then
      if |text| <= maxChars then text
      else
        var cut := text[..SaturatingPred(maxChars)];
        var stop := LastStop(cut);
        (if stop.Some? && stop.value >= |cut| / 2 then cut[..stop.value + 1] else cut) + [ELLIPSIS]
    else
      if |text| <= maxChars then text
      else
        var cut := text[..SaturatingPred(maxChars)];
        var stop := LastStop(cut);
        (if stop.Some? && ByteLen(cut[..stop.value]) >= ByteLen(cut) / 2 then cut[..stop.value + 1] else cut)
        + [ELLIPSIS]
  }

  lemma {:induction false} AsciiBytes(s: string)
    requires IsAscii(s)
    ensures ByteLen(s) == |s|
  {
    if s != "" { AsciiBytes(s[..|s| - 1]); }
  }

  lemma {:induction false} ByteLenPrefix(s: string, n: nat)
    requires n <= |s|
    ensures ByteLen(s[..n]) <= ByteLen(s)
  {
    if n == |s| {
      assert s[..n] == s;
    } else {
      ByteLenPrefix(s[..|s| - 1], n);
      assert s[..|s| - 1][..n] == s[..n];
    }
  }

  // How many leading characters survive a truncation, for text longer than the limit.
  function Kept(text: string, tokens: nat): (kept: nat)
    requires |text| > 3 * tokens
    ensures kept <= SaturatingPred(3 * tokens)
  {
    var cut := text[..SaturatingPred(3 * tokens)];
    var stop := LastStop(cut);
    if stop.Some? && ByteLen(cut[..stop.value]) >= ByteLen(cut) / 2 then stop.value + 1 else |cut|
  }

  // Both branches of the truncation are the same function of the text.
  lemma TruncateIsKeptPrefix(text: string, tokens: nat)
    ensures TruncateToTokens(text, tokens)
         == if |text| <= 3 * tokens then text else text[..Kept(text, tokens)] + [ELLIPSIS]
  {
    if |text| > 3 * tokens {
      var cut := text[..SaturatingPred(3 * tokens)];
      var stop := LastStop(cut);
      if IsAscii(text) {
        AsciiBytes(cut);
        if stop.Some? { AsciiBytes(cut[..stop.value]); }
      }
      if stop.Some? { assert cut[..stop.value + 1] == text[..stop.value + 1]; }
    }
  }

  // The last stop of a longer cut is the same one, or lies in the added part.
  lemma LastStopGrows(text: string, m: nat, n: nat)
    requires m <= n <= |text|
    ensures LastStop(text[..n]).Some? && LastStop(text[..n]).value < m ==> LastStop(text[..m]) == LastStop(text[..n])
    ensures LastStop(text[..n]).None? ==> LastStop(text[..m]).None?
  {
    var a, b := LastStop(text[..m]), LastStop(text[..n]);
    assert forall i | 0 <= i < m :: text[..m][i] == text[..n][i];
  }

  // A longer budget never keeps less, despite the sentence rule.
  lemma {:induction false} KeptMonotone(text: string, s: nat, t: nat)
    requires s <= t && |text| > 3 * t
    ensures Kept(text, s) <= Kept(text, t)
  {
    var m, n := SaturatingPred(3 * s), SaturatingPred(3 * t);
    var b := LastStop(text[..n]);
    if b.Some? && b.value < m {
      LastStopGrows(text, m, n);
      assert text[..m][..b.value] == text[..b.value] == text[..n][..b.value];
      assert text[..n][..m] == text[..m];
      ByteLenPrefix(text[..n], m);
    }
  }

  // Cutting the stored text far enough out does not change a truncation, even
  // when the only non-ASCII characters lie beyond the cut.
  lemma TruncateIgnoresTail(text: string, limit: nat, tokens: nat)
    requires limit > 3 * tokens
    ensures TruncateToTokens(if |text| <= limit then text else text[..limit], tokens) == TruncateToTokens(text, tokens)
  {
    if |text| > limit {
      var short := text[..limit];
      TruncateIsKeptPrefix(short, tokens);
      TruncateIsKeptPrefix(text, tokens);
      assert short[..SaturatingPred(3 * tokens)] == text[..SaturatingPred(3 * tokens)];
      assert short[..Kept(text, tokens)] == text[..Kept(text, tokens)];
    }
  }

  // --- escaping ---------------------------------------------------------

  function EscapeChar(c: char): string {
    if c == '&' then "&amp;" else if c == '<' then "&lt;" else if c == '>' then "&gt;" else [c]
  }

  function EscapeEach(text: string): string {
    if text == "" then "" else EscapeEach(text[..|text| - 1]) + EscapeChar(text[|text| - 1])
  }

  predicate NeedsEscape(text: string) {
    '&' in text || '<' in text || '>' in text
  }

  function EscapeRenderedData(text: string): string {
    if !NeedsEscape(text) then text else EscapeEach(text)
  }

  lemma {:induction false} EscapeFastPath(text: string)
    ensures EscapeRenderedData(text) == EscapeEach(text)
  {
    if text != "" && !NeedsEscape(text) {
      var front := text[..|text| - 1];
      assert text == front + [text[|text| - 1]];
      EscapeFastPath(front);
    }
  }

  function ReplaceCrLf(text: string): string {
    var n := |text|;
    if n == 0 then ""
    else if n >= 2 && text[n - 2] == '\r' && text[n - 1] == '\n' then ReplaceCrLf(text[..n - 2]) + "\n"
    else ReplaceCrLf(text[..n - 1]) + [text[n - 1]]
  }

  function ReplaceChar(text: string, from: char, to: string): string {
    if text == "" then ""
    else ReplaceChar(text[..|text| - 1], from, to)
         + if text[|text| - 1] == from then to else [text[|text| - 1]]
  }

  function Lines(text: string): string {
    ReplaceChar(ReplaceChar(text, '\r', "\n"), '\n', "\n  ")
  }

  function RenderBody(body: string): string {
    Lines(ReplaceCrLf(EscapeRenderedData(body)))
  }

  function RenderTitle(title: string): string {
    ReplaceChar(ReplaceChar(EscapeRenderedData(title), '\r', " "), '\n', " ")
  }

  // What one more source character adds to a rendered body.
  function Glyph(c: char): (g: string)
    ensures |g| >= 1
  {
    if c == '\r' || c == '\n' then "\n  " else EscapeChar(c)
  }

  predicate ClosesCrLf(body: string, c: char) {
    c == '\n' && body != "" && body[|body| - 1] == '\r'
  }

  lemma {:induction false} ReplaceCharAppend(a: string, b: string, from: char, to: string)
    ensures ReplaceChar(a + b, from, to) == ReplaceChar(a, from, to) + ReplaceChar(b, from, to)
  {
    if b == "" {
      assert a + b == a;
    } else {
      var front := b[..|b| - 1];
      assert (a + b)[..|a + b| - 1] == a + front;
      ReplaceCharAppend(a, front, from, to);
    }
  }

  lemma LinesAppend(a: string, b: string)
    ensures Lines(a + b) == Lines(a) + Lines(b)
  {
    ReplaceCharAppend(a, b, '\r', "\n");
    ReplaceCharAppend(ReplaceChar(a, '\r', "\n"), ReplaceChar(b, '\r', "\n"), '\n', "\n  ");
  }

  lemma {:induction false} CrLfAppend(a: string, b: string)
    requires forall i | 0 <= i < |b| :: b[i] != '\n'
    ensures ReplaceCrLf(a + b) == ReplaceCrLf(a) + b
  {
    if b == "" {
      assert a + b == a;
    } else {
      var front := b[..|b| - 1];
      assert (a + b)[..|a + b| - 1] == a + front;
      CrLfAppend(a, front);
      assert b == front + [b[|b| - 1]];
    }
  }

  lemma {:induction false} EscapeEnds(text: string)
    ensures text == "" <==> EscapeEach(text) == ""
    ensures text != "" ==> (text[|text| - 1] == '\r' <==> EscapeEach(text)[|EscapeEach(text)| - 1] == '\r')
  {
    if text != "" { EscapeEnds(text[..|text| - 1]); }
  }

  lemma LinesOfGlyph(c: char)
    requires c != '\n'
    ensures Lines(EscapeChar(c)) == Glyph(c)
  {
    var e := EscapeChar(c);
    if c == '\r' {
      assert e == "\r";
      assert ReplaceChar(e, '\r', "\n") == "\n" by { assert e[..0] == ""; }
      assert ReplaceChar("\n", '\n', "\n  ") == "\n  " by { assert "\n"[..0] == ""; }
    } else {
      PlainReplace(e, '\r', "\n");
      PlainReplace(e, '\n', "\n  ");
    }
  }

  lemma {:induction false} PlainReplace(text: string, from: char, to: string)
    requires forall i | 0 <= i < |text| :: text[i] != from
    ensures ReplaceChar(text, from, to) == text
  {
    if text != "" {
      PlainReplace(text[..|text| - 1], from, to);
      assert text == text[..|text| - 1] + [text[|text| - 1]];
    }
  }

  lemma LinesOfLineFeed()
    ensures Lines("\n") == Lines("\r") == "\n  "
  {
    PlainReplace("\n", '\r', "\n");
    assert ReplaceChar("\r", '\r', "\n") == "\n" by { assert "\r"[..0] == ""; }
    assert ReplaceChar("\n", '\n', "\n  ") == "\n  " by { assert "\n"[..0] == ""; }
  }

  lemma PairCollapses(e: string)
    requires e != "" && e[|e| - 1] == '\r'
    ensures ReplaceCrLf(e + "\n") == ReplaceCrLf(e[..|e| - 1]) + "\n"
    ensures ReplaceCrLf(e) == ReplaceCrLf(e[..|e| - 1]) + "\r"
  {
    assert (e + "\n")[..|e| - 1] == e[..|e| - 1];
  }

  lemma SecondHalfOfPair(e: string)
    requires e != "" && e[|e| - 1] == '\r'
    ensures Lines(ReplaceCrLf(e + "\n")) == Lines(ReplaceCrLf(e))
  {
    hide ReplaceCrLf, Lines;
    var front := e[..|e| - 1];
    PairCollapses(e);
    LinesOfLineFeed();
    LinesAppend(ReplaceCrLf(front), "\n");
    LinesAppend(ReplaceCrLf(front), "\r");
  }

  lemma LoneLineFeed(e: string)
    requires e == "" || e[|e| - 1] != '\r'
    ensures Lines(ReplaceCrLf(e + "\n")) == Lines(ReplaceCrLf(e)) + "\n  "
  {
    assert (e + "\n")[..|e|] == e;
    LinesOfLineFeed();
    LinesAppend(ReplaceCrLf(e), "\n");
  }

  lemma PlainGlyph(e: string, c: char)
    requires c != '\n'
    ensures Lines(ReplaceCrLf(e + EscapeChar(c))) == Lines(ReplaceCrLf(e)) + Glyph(c)
  {
    CrLfAppend(e, EscapeChar(c));
    LinesAppend(ReplaceCrLf(e), EscapeChar(c));
    LinesOfGlyph(c);
  }

  lemma EscapeSnoc(body: string, c: char)
    ensures EscapeEach(body + [c]) == EscapeEach(body) + EscapeChar(c)
  {
    assert (body + [c])[..|body|] == body;
  }

  // A rendered body grows by one glyph per source character; only the second
  // half of a carriage-return/line-feed pair adds nothing.
  lemma RenderBodySnoc(body: string, c: char)
    ensures RenderBody(body + [c]) == RenderBody(body) + (if ClosesCrLf(body, c) then "" else Glyph(c))
  {
    EscapeFastPath(body);
    EscapeFastPath(body + [c]);
    EscapeSnoc(body, c);
    EscapeEnds(body);
    if c != '\n' {
      PlainGlyph(EscapeEach(body), c);
    } else if ClosesCrLf(body, c) {
      SecondHalfOfPair(EscapeEach(body));
    } else {
      LoneLineFeed(EscapeEach(body));
    }
  }

  // The same rendering read off the source one character at a time.
  function GlyphRun(body: string): string {
    if body == "" then ""
    else
      var front, last := body[..|body| - 1], body[|body| - 1];
      GlyphRun(front) + (if ClosesCrLf(front, last) then "" else Glyph(last))
  }

  lemma NothingToRender()
    ensures RenderBody("") == ""
  {
  }

  lemma {:induction false} RenderBodyIsGlyphRun(body: string)
    ensures RenderBody(body) == GlyphRun(body)
  {
    hide RenderBody, ClosesCrLf, Glyph;
    if body == "" {
      assert RenderBody("") == "" by { NothingToRender(); }
    } else {
      var front, last := body[..|body| - 1], body[|body| - 1];
      RenderBodyIsGlyphRun(front);
      RenderBodySnoc(front, last);
      assert body == front + [last];
    }
  }

  // Rendering preserves prefixes.
  lemma {:induction false} GlyphRunPrefix(body: string, n: nat)
    requires n <= |body|
    ensures GlyphRun(body[..n]) <= GlyphRun(body)
  {
    if n == |body| {
      assert body[..n] == body;
    } else {
      var front := body[..|body| - 1];
      GlyphRunPrefix(front, n);
      assert front[..n] == body[..n];
    }
  }

  // Two more source characters always show.
  lemma GlyphRunGrows(body: string, n: nat)
    requires n + 2 <= |body|
    ensures |GlyphRun(body[..n])| < |GlyphRun(body)|
  {
    GlyphRunPrefix(body, n + 2);
    assert body[..n + 2][..n + 1] == body[..n + 1];
    assert body[..n + 1][..n] == body[..n];
  }

  // A rendered body is never shorter than its source.
  lemma {:induction false} GlyphRunLength(body: string)
    ensures |body| <= |GlyphRun(body)|
    decreases |body|
  {
    if body != "" {
      var front, last := body[..|body| - 1], body[|body| - 1];
      GlyphRunLength(front);
      if ClosesCrLf(front, last) { GlyphRunLength(front[..|front| - 1]); }
    }
  }
}
