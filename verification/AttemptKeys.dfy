// Identities of automatic attempts: two are one attempt when they consist of the
// same words.
module AttemptKeys {
  import opened Strings

  function Words(text: string): (words: seq<string>)
    ensures text != "" && !IsBlank(text[|text| - 1]) ==> words != []
  {
    if text == "" then []
    else
      var n := |text| - 1;
      var words := Words(text[..n]);
      if IsBlank(text[n]) then words
      else if n > 0 && !IsBlank(text[n - 1]) then
        words[..|words| - 1] + [words[|words| - 1] + [text[n]]]
      else words + [[text[n]]]
  }

  // The digest inside the key is represented by the text it is taken over.
  function CanonicalKey(identity: string): string {
    "auto:attempt:v3:" + JoinWith(Words(identity), " ")
  }

  // --- words are the runs between blanks --------------------------------

  datatype Span = Span(start: nat, end: nat)

  predicate Blank(c: char) { c in " \t\n\U{000B}\U{000C}\r" }

  // Characters `start` to `end` hold no blank and cannot be widened.
  predicate IsRun(text: string, span: Span) {
    && span.start < span.end <= |text|
    && (forall i | span.start <= i < span.end :: !Blank(text[i]))
    && (span.start > 0 ==> Blank(text[span.start - 1]))
    && (span.end < |text| ==> Blank(text[span.end]))
  }

  // The words are the runs of the text, in order, and no run is left out.
  ghost predicate AreRuns(text: string, words: seq<string>, spans: seq<Span>) {
    && |spans| == |words|
    && (forall k | 0 <= k < |words| :: IsRun(text, spans[k]) && words[k] == text[spans[k].start..spans[k].end])
    && (forall k, l | 0 <= k < l < |spans| :: spans[k].end < spans[l].start)
    && (forall i | 0 <= i < |text| && !Blank(text[i]) ::
          exists k :: 0 <= k < |spans| && spans[k].start <= i < spans[k].end)
  }

  lemma SameBlank(c: char)
    ensures Blank(c) == IsBlank(c)
  {
  }

  lemma BlankAdded(front: string, c: char, words: seq<string>, spans: seq<Span>)
    requires AreRuns(front, words, spans) && Blank(c)
    ensures AreRuns(front + [c], words, spans)
  {
    hide Blank;
    var text := front + [c];
    forall k | 0 <= k < |words|
      ensures IsRun(text, spans[k]) && words[k] == text[spans[k].start..spans[k].end]
    {
    }
  }

  lemma WordStarted(front: string, c: char, words: seq<string>, spans: seq<Span>)
    requires AreRuns(front, words, spans) && !Blank(c) && (front != "" ==> Blank(front[|front| - 1]))
    ensures AreRuns(front + [c], words + [[c]], spans + [Span(|front|, |front| + 1)])
  {
    hide Blank;
    var text, all := front + [c], spans + [Span(|front|, |front| + 1)];
    forall k | 0 <= k < |words|
      ensures IsRun(text, all[k]) && words[k] == text[all[k].start..all[k].end] && all[k].end < |front|
    {
      assert IsRun(front, spans[k]) && !Blank(front[spans[k].end - 1]);
    }
    forall i | 0 <= i < |text| && !Blank(text[i]) ensures exists k :: 0 <= k < |all| && all[k].start <= i < all[k].end {
      if i < |front| {
        var k :| 0 <= k < |spans| && spans[k].start <= i < spans[k].end;
        assert all[k] == spans[k];
      } else {
        assert all[|spans|].start <= i < all[|spans|].end;
      }
    }
  }

  lemma LastRunEnds(front: string, words: seq<string>, spans: seq<Span>)
    requires AreRuns(front, words, spans) && front != "" && !Blank(front[|front| - 1])
    ensures spans != [] && spans[|spans| - 1].end == |front|
  {
    hide Blank;
    var k :| 0 <= k < |spans| && spans[k].start <= |front| - 1 < spans[k].end;
    assert IsRun(front, spans[|spans| - 1]);
  }

  lemma RunGrown(front: string, c: char, span: Span)
    requires IsRun(front, span) && span.end == |front| && !Blank(c)
    ensures IsRun(front + [c], Span(span.start, |front| + 1))
    ensures (front + [c])[span.start..|front| + 1] == front[span.start..span.end] + [c]
  {
    hide Blank;
    var text := front + [c];
    forall i | span.start <= i < |text| ensures !Blank(text[i]) {
      if i < |front| { assert text[i] == front[i]; }
    }
    if span.start > 0 { assert text[span.start - 1] == front[span.start - 1]; }
  }

  lemma RunKept(front: string, c: char, span: Span)
    requires IsRun(front, span) && span.end < |front|
    ensures IsRun(front + [c], span) && (front + [c])[span.start..span.end] == front[span.start..span.end]
  {
    hide Blank;
  }

  lemma WordGrown(front: string, c: char, words: seq<string>, spans: seq<Span>)
    requires AreRuns(front, words, spans) && !Blank(c) && front != "" && !Blank(front[|front| - 1])
    ensures words != [] && spans != []
    ensures var n := |words| - 1;
            AreRuns(front + [c], words[..n] + [words[n] + [c]], spans[..n] + [Span(spans[n].start, |front| + 1)])
  {
    hide Blank, IsRun;
    LastRunEnds(front, words, spans);
    var n, text := |words| - 1, front + [c];
    var all, grown := spans[..n] + [Span(spans[n].start, |front| + 1)], words[..n] + [words[n] + [c]];
    RunsEnd(front, words, spans);
    forall k | 0 <= k < |words|
      ensures IsRun(text, all[k]) && all[k].start <= all[k].end <= |text| && grown[k] == text[all[k].start..all[k].end]
    {
      if k < n { RunKept(front, c, spans[k]); } else { RunGrown(front, c, spans[n]); }
    }
    forall i | 0 <= i < |text| && !Blank(text[i]) ensures exists k :: 0 <= k < |all| && all[k].start <= i < all[k].end {
      if i < |front| {
        var k :| 0 <= k < |spans| && spans[k].start <= i < spans[k].end;
        assert all[k].start <= i < all[k].end;
      } else {
        assert all[n].start <= i < all[n].end;
      }
    }
  }

  lemma RunsEnd(text: string, words: seq<string>, spans: seq<Span>)
    requires AreRuns(text, words, spans)
    ensures forall k | 0 <= k < |spans| :: spans[k].start < spans[k].end <= |text|
    ensures forall k | 0 <= k < |spans| - 1 :: spans[k].end < |text|
  {
    hide Blank;
    forall k | 0 <= k < |spans| - 1 ensures spans[k].end < |text| {
      assert spans[k].end < spans[k + 1].start && IsRun(text, spans[k + 1]);
    }
  }

  // The words of a text are its runs of characters between blanks.
  lemma {:induction false} WordsAreRuns(text: string) returns (spans: seq<Span>)
    ensures AreRuns(text, Words(text), spans)
  {
    hide AreRuns, IsBlank, Blank;
    if text == "" {
      spans := [];
      assert AreRuns("", [], []) by { NoRuns(); }
    } else {
      var n := |text| - 1;
      var front := text[..n];
      assert text == front + [text[n]];
      SameBlank(text[n]);
      var earlier := WordsAreRuns(front);
      if Blank(text[n]) {
        BlankAdded(front, text[n], Words(front), earlier);
        spans := earlier;
      } else if n > 0 && !Blank(text[n - 1]) {
        SameBlank(text[n - 1]);
        WordGrown(front, text[n], Words(front), earlier);
        spans := earlier[..|earlier| - 1] + [Span(earlier[|earlier| - 1].start, n + 1)];
        assert |earlier| == |Words(front)| by { SameLength(front, Words(front), earlier); }
      } else {
        if n > 0 { SameBlank(text[n - 1]); }
        WordStarted(front, text[n], Words(front), earlier);
        spans := earlier + [Span(n, n + 1)];
      }
    }
  }

  lemma NoRuns()
    ensures AreRuns("", [], [])
  {
  }

  lemma SameLength(text: string, words: seq<string>, spans: seq<Span>)
    requires AreRuns(text, words, spans)
    ensures |spans| == |words|
  {
  }

  // --- keys tell words apart --------------------------------------------

  predicate IsWord(word: string) { word != "" && forall i | 0 <= i < |word| :: !Blank(word[i]) }

  lemma LetterAppended(text: string, c: char)
    requires !Blank(c) && (text != "" ==> Blank(text[|text| - 1]))
    ensures Words(text + [c]) == Words(text) + [[c]]
  {
    SameBlank(c);
    assert (text + [c])[..|text|] == text;
    if text != "" { SameBlank(text[|text| - 1]); }
  }

  lemma LetterGrows(text: string, words: seq<string>, word: string, c: char)
    requires !Blank(c) && text != "" && !Blank(text[|text| - 1]) && Words(text) == words + [word]
    ensures Words(text + [c]) == words + [word + [c]]
  {
    SameBlank(c);
    SameBlank(text[|text| - 1]);
    assert (text + [c])[..|text|] == text;
    assert (words + [word])[..|words|] == words;
  }

  lemma {:induction false} WordAppended(text: string, word: string)
    requires IsWord(word) && (text != "" ==> Blank(text[|text| - 1]))
    ensures Words(text + word) == Words(text) + [word]
  {
    hide Blank, Words;
    var n := |word| - 1;
    if n == 0 {
      assert word == [word[0]];
      LetterAppended(text, word[0]);
    } else {
      var front := word[..n];
      WordAppended(text, front);
      assert (text + front)[|text + front| - 1] == word[n - 1];
      LetterGrows(text + front, Words(text), front, word[n]);
      assert word == front + [word[n]] && text + front + [word[n]] == text + word;
    }
  }

  lemma SpaceAppended(text: string)
    ensures Words(text + " ") == Words(text)
  {
    assert (text + " ")[..|text|] == text;
  }

  // Joined words split into the same words.
  lemma {:induction false} JoinedWords(words: seq<string>)
    requires forall k | 0 <= k < |words| :: IsWord(words[k])
    ensures Words(JoinWith(words, " ")) == words
  {
    hide Words;
    if words == [] {
      assert Words("") == [] by { NoWords(); }
    } else {
      var n := |words| - 1;
      if n == 0 {
        WordAppended("", words[0]);
        NoWords();
        assert "" + words[0] == words[0];
      } else {
        JoinedWords(words[..n]);
        var front := JoinWith(words[..n], " ");
        SpaceAppended(front);
        WordAppended(front + " ", words[n]);
        assert front + " " + words[n] == JoinWith(words, " ");
      }
      assert words == words[..n] + [words[n]];
    }
  }

  lemma NoWords()
    ensures Words("") == []
  {
  }

  lemma WordsAreWords(text: string)
    ensures forall k | 0 <= k < |Words(text)| :: IsWord(Words(text)[k])
  {
    hide Words, Blank;
    var spans := WordsAreRuns(text);
    forall k | 0 <= k < |Words(text)| ensures IsWord(Words(text)[k]) {
      assert IsRun(text, spans[k]);
    }
  }

  // Two identities have one key exactly when they have the same words.
  lemma KeysTellWords(a: string, b: string)
    ensures CanonicalKey(a) == CanonicalKey(b) <==> Words(a) == Words(b)
  {
    hide Words, JoinWith, IsWord;
    WordsAreWords(a);
    WordsAreWords(b);
    JoinedWords(Words(a));
    JoinedWords(Words(b));
    var prefix := "auto:attempt:v3:";
    assert CanonicalKey(a)[|prefix|..] == JoinWith(Words(a), " ");
    assert CanonicalKey(b)[|prefix|..] == JoinWith(Words(b), " ");
  }
}
