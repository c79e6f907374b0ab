// Rendered text holds no markup of its own, and nothing of the stored text is
// lost in it.
module Markup {
  import opened Basics
  import opened Strings
  import opened Text

  predicate EntityAt(text: string, i: nat)
    requires i <= |text|
  {
    "&amp;" <= text[i..] || "&lt;" <= text[i..] || "&gt;" <= text[i..]
  }

  // No angle brackets, and ampersands only where one of three entities starts.
  predicate NoMarkup(text: string) {
    forall i | 0 <= i < |text| :: text[i] != '<' && text[i] != '>' && (text[i] == '&' ==> EntityAt(text, i))
  }

  // The length of the entity a text starts with, or of its first character.
  function Unit(text: string): (n: nat)
    requires text != ""
    ensures 1 <= n <= |text|
  {
    if "&amp;" <= text then 5 else if "&lt;" <= text || "&gt;" <= text then 4 else 1
  }

  function Meaning(text: string): char
    requires text != ""
  {
    if "&amp;" <= text then '&' else if "&lt;" <= text then '<' else if "&gt;" <= text then '>' else text[0]
  }

  // Reads the three entities back.
  function Unescape(text: string): string {
    if text == "" then "" else [Meaning(text)] + Unescape(text[Unit(text)..])
  }

  lemma EntityKept(a: string, b: string, i: nat)
    requires i <= |a| && EntityAt(a, i)
    ensures EntityAt(a + b, i)
  {
    assert (a + b)[i..] == a[i..] + b;
  }

  lemma NoMarkupAppend(a: string, b: string)
    requires NoMarkup(a) && NoMarkup(b)
    ensures NoMarkup(a + b)
  {
    hide EntityAt;
    var text := a + b;
    forall i | 0 <= i < |text| ensures text[i] != '<' && text[i] != '>' && (text[i] == '&' ==> EntityAt(text, i)) {
      if i < |a| {
        if a[i] == '&' { EntityKept(a, b, i); }
      } else {
        assert text[i..] == b[i - |a|..] && text[i] == b[i - |a|];
        if b[i - |a|] == '&' { SameTail(text, i, b, i - |a|); }
      }
    }
  }

  lemma SameTail(s: string, i: nat, t: string, j: nat)
    requires i <= |s| && j <= |t| && s[i..] == t[j..] && EntityAt(t, j)
    ensures EntityAt(s, i)
  {
  }

  lemma PlainHasNoMarkup(text: string)
    requires '&' !in text && '<' !in text && '>' !in text
    ensures NoMarkup(text)
  {
  }

  lemma PlainUnit(text: string)
    requires text != "" && text[0] != '&'
    ensures Unit(text) == 1 && Meaning(text) == text[0]
  {
  }

  lemma {:induction false} PlainReadsBack(text: string)
    requires '&' !in text
    ensures Unescape(text) == text
  {
    if text != "" {
      PlainUnit(text);
      PlainReadsBack(text[1..]);
      assert text == [text[0]] + text[1..];
    }
  }

  lemma UnitKept(a: string, b: string)
    requires a != "" && NoMarkup(a)
    ensures Unit(a + b) == Unit(a) && Meaning(a + b) == Meaning(a)
  {
    assert (a + b)[0] == a[0];
    if a[0] == '&' {
      assert EntityAt(a, 0) && a[0..] == a;
      var n := Unit(a);
      assert (a + b)[..n] == a[..n];
      assert (a + b)[1] == a[1];
    }
  }

  // What no entity straddles reads back in two parts.
  lemma {:induction false} UnescapeAppend(a: string, b: string)
    requires NoMarkup(a)
    ensures Unescape(a + b) == Unescape(a) + Unescape(b)
    decreases |a|
  {
    hide NoMarkup, Unit, Meaning;
    if a == "" {
      assert a + b == b;
    } else {
      var n := Unit(a);
      UnitKept(a, b);
      TailHasNoMarkup(a, n);
      UnescapeAppend(a[n..], b);
      assert (a + b)[n..] == a[n..] + b;
    }
  }

  lemma TailHasNoMarkup(text: string, n: nat)
    requires NoMarkup(text) && n <= |text|
    ensures NoMarkup(text[n..])
  {
    var tail := text[n..];
    forall i | 0 <= i < |tail| && tail[i] == '&' ensures EntityAt(tail, i) {
      assert text[n + i] == '&' && tail[i..] == text[n + i..];
    }
  }

  // --- escaping ---------------------------------------------------------

  lemma OneUnit(text: string, n: nat, c: char)
    requires text != "" && Unit(text) == n == |text| && Meaning(text) == c
    ensures Unescape(text) == [c]
  {
    assert text[n..] == "";
    assert Unescape("") == "";
  }

  lemma EntityReadsBack(entity: string)
    requires entity == "&amp;" || entity == "&lt;" || entity == "&gt;"
    ensures NoMarkup(entity)
    ensures Unescape(entity) == [if entity == "&amp;" then '&' else if entity == "&lt;" then '<' else '>']
  {
    hide Unescape;
    assert entity[0..] == entity;
    assert entity[1] == if entity == "&amp;" then 'a' else if entity == "&lt;" then 'l' else 'g';
    OneUnit(entity, |entity|, Meaning(entity));
  }

  lemma PlainChar(c: char)
    requires c != '&'
    ensures Unescape([c]) == [c] && (c != '<' && c != '>' ==> NoMarkup([c]))
  {
    OneUnit([c], 1, c);
  }

  lemma EscapedChar(c: char)
    ensures NoMarkup(EscapeChar(c)) && Unescape(EscapeChar(c)) == [c]
  {
    hide Unescape, NoMarkup;
    if c == '&' || c == '<' || c == '>' { EntityReadsBack(EscapeChar(c)); } else { PlainChar(c); }
  }

  lemma {:induction false} EscapedEach(text: string)
    ensures NoMarkup(EscapeEach(text)) && Unescape(EscapeEach(text)) == text
  {
    if text != "" {
      var front, last := text[..|text| - 1], text[|text| - 1];
      EscapedEach(front);
      EscapedChar(last);
      NoMarkupAppend(EscapeEach(front), EscapeChar(last));
      UnescapeAppend(EscapeEach(front), EscapeChar(last));
    }
  }

  // Escaping leaves no markup and loses nothing.
  lemma EscapedReadsBack(text: string)
    ensures NoMarkup(EscapeRenderedData(text)) && Unescape(EscapeRenderedData(text)) == text
  {
    EscapeFastPath(text);
    EscapedEach(text);
  }

  // --- titles -----------------------------------------------------------

  // Line breaks become spaces.
  function OneLine(title: string): string {
    seq(|title|, i requires 0 <= i < |title| => if title[i] == '\r' || title[i] == '\n' then ' ' else title[i])
  }

  lemma TitleSnoc(title: string, c: char)
    ensures RenderTitle(title + [c]) == RenderTitle(title) + RenderTitle([c])
  {
    hide EscapeEach, EscapeChar, ReplaceChar;
    EscapeFastPath(title);
    EscapeFastPath([c]);
    EscapeFastPath(title + [c]);
    EscapeSnoc(title, c);
    EscapeSnoc("", c);
    NothingEscaped();
    assert "" + [c] == [c] && "" + EscapeChar(c) == EscapeChar(c);
    var a, b := EscapeEach(title), EscapeEach([c]);
    ReplaceCharAppend(a, b, '\r', " ");
    ReplaceCharAppend(ReplaceChar(a, '\r', " "), ReplaceChar(b, '\r', " "), '\n', " ");
  }

  lemma NothingEscaped()
    ensures EscapeEach("") == "" && RenderTitle("") == ""
  {
  }

  lemma BreakBecomesSpace(c: char)
    requires c == '\r' || c == '\n'
    ensures ReplaceChar(ReplaceChar([c], '\r', " "), '\n', " ") == " "
  {
    assert [c][..0] == "" && " "[..0] == "";
    assert ReplaceChar("", '\r', " ") == "" && ReplaceChar("", '\n', " ") == "";
  }

  lemma TitleChar(c: char)
    ensures var shown := RenderTitle([c]);
            && NoMarkup(shown) && Unescape(shown) == [if c == '\r' || c == '\n' then ' ' else c]
            && '\r' !in shown && '\n' !in shown
  {
    hide NoMarkup, Unescape, ReplaceChar;
    EscapeFastPath([c]);
    EscapeSnoc("", c);
    assert "" + [c] == [c] && EscapeEach([c]) == EscapeChar(c) by { assert EscapeEach("") == ""; }
    EscapedChar(c);
    if c == '\r' || c == '\n' {
      BreakBecomesSpace(c);
      PlainChar(' ');
    } else {
      PlainReplace(EscapeChar(c), '\r', " ");
      PlainReplace(EscapeChar(c), '\n', " ");
    }
  }

  lemma {:induction false} TitleReadsBack(title: string)
    ensures var shown := RenderTitle(title);
            && NoMarkup(shown) && Unescape(shown) == OneLine(title)
            && '\r' !in shown && '\n' !in shown
  {
    hide RenderTitle, NoMarkup, Unescape;
    if title == "" {
      NothingEscaped();
      PlainHasNoMarkup("");
      PlainReadsBack("");
    } else {
      var front, last := title[..|title| - 1], title[|title| - 1];
      assert title == front + [last];
      TitleReadsBack(front);
      TitleSnoc(front, last);
      TitleChar(last);
      NoMarkupAppend(RenderTitle(front), RenderTitle([last]));
      UnescapeAppend(RenderTitle(front), RenderTitle([last]));
      assert OneLine(title) == OneLine(front) + OneLine([last]);
    }
  }

  // --- bodies -----------------------------------------------------------

  // Every line break, of any of the three kinds, starts a line indented by two.
  function Indented(body: string): string {
    if body == "" then ""
    else
      var n := |body| - 1;
      if body[n] == '\n' && n > 0 && body[n - 1] == '\r' then Indented(body[..n])
      else Indented(body[..n]) + if body[n] == '\r' || body[n] == '\n' then "\n  " else [body[n]]
  }

  // A line break is always followed by two spaces.
  predicate Nested(text: string) { forall i | 0 <= i < |text| && text[i] == '\n' :: "\n  " <= text[i..] }

  lemma NestedAppend(a: string, b: string)
    requires Nested(a) && Nested(b)
    ensures Nested(a + b)
  {
    var text := a + b;
    forall i | 0 <= i < |text| && text[i] == '\n' ensures "\n  " <= text[i..] {
      if i < |a| {
        assert text[i..] == a[i..] + b;
      } else {
        assert text[i..] == b[i - |a|..];
      }
    }
  }

  lemma BreakReadsBack()
    ensures NoMarkup("\n  ") && Nested("\n  ") && Unescape("\n  ") == "\n  "
  {
    hide Unescape;
    PlainReadsBack("\n  ");
    assert "\n  "[0..] == "\n  ";
  }

  lemma EscapedHasNoBreak(c: char)
    requires c != '\r' && c != '\n'
    ensures Nested(EscapeChar(c)) && '\r' !in EscapeChar(c)
  {
  }

  lemma GlyphReadsBack(c: char)
    ensures NoMarkup(Glyph(c)) && Nested(Glyph(c)) && '\r' !in Glyph(c)
    ensures Unescape(Glyph(c)) == if c == '\r' || c == '\n' then "\n  " else [c]
  {
    hide NoMarkup, Unescape, Nested;
    if c == '\r' || c == '\n' {
      BreakReadsBack();
    } else {
      EscapedChar(c);
      EscapedHasNoBreak(c);
    }
  }

  lemma {:induction false} BodyReadsBack(body: string)
    ensures var shown := RenderBody(body);
            && NoMarkup(shown) && Nested(shown) && '\r' !in shown && Unescape(shown) == Indented(body)
  {
    hide RenderBody, Glyph, NoMarkup, Unescape, Nested;
    if body == "" {
      NothingToRender();
      PlainHasNoMarkup("");
      PlainReadsBack("");
      assert Nested("") by { NothingNested(); }
    } else {
      var front, last := body[..|body| - 1], body[|body| - 1];
      assert body == front + [last];
      BodyReadsBack(front);
      RenderBodySnoc(front, last);
      GlyphReadsBack(last);
      if ClosesCrLf(front, last) {
        assert RenderBody(body) == RenderBody(front);
      } else {
        NoMarkupAppend(RenderBody(front), Glyph(last));
        NestedAppend(RenderBody(front), Glyph(last));
        UnescapeAppend(RenderBody(front), Glyph(last));
      }
    }
  }

  lemma NothingNested()
    ensures Nested("")
  {
  }
}
