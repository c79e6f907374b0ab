// Reading the result of an attempt back from the text that records it.
module ResultBodies {
  import opened Basics
  import opened Database
  import opened Strings
  import opened TimeTravel
  import Domain

  // A text that starts a line and cannot overlap itself.
  predicate StartsLine(mark: string) {
    mark != "" && mark[0] == '\n' && forall i | 0 < i < |mark| :: mark[i] != '\n'
  }

  // The mark stands at this position.
  predicate At(text: string, mark: string, i: nat) { i + |mark| <= |text| && text[i..i + |mark|] == mark }

  lemma ContainsIsAt(text: string, mark: string)
    ensures Contains(text, mark) <==> exists i: nat :: At(text, mark, i)
  {
    forall i | 0 <= i <= |text| ensures mark <= text[i..] <==> At(text, mark, i) {
      if i + |mark| <= |text| { assert text[i..][..|mark|] == text[i..i + |mark|]; }
    }
  }

  lemma ShiftedAt(text: string, mark: string, i: nat)
    requires text != ""
    ensures At(text[1..], mark, i) == At(text, mark, i + 1)
  {
    if i + |mark| < |text| { assert text[1..][i..i + |mark|] == text[i + 1..i + 1 + |mark|]; }
  }

  lemma ShortenedAt(text: string, mark: string, i: nat)
    requires text != ""
    ensures At(text[..|text| - 1], mark, i) == (At(text, mark, i) && i + |mark| < |text|)
  {
    if i + |mark| < |text| { assert text[..|text| - 1][i..i + |mark|] == text[i..i + |mark|]; }
  }

  // The first search finds the smallest position.
  lemma {:induction false} FirstIs(text: string, mark: string)
    requires mark != ""
    ensures var found := FindText(text, mark);
            && (found.Some? ==> At(text, mark, found.value))
            && forall i: nat | At(text, mark, i) :: found.Some? && found.value <= i
  {
    if |text| >= |mark| && text[..|mark|] != mark {
      FirstIs(text[1..], mark);
      forall i: nat ensures At(text[1..], mark, i) == At(text, mark, i + 1) { ShiftedAt(text, mark, i); }
      assert forall i: nat | At(text, mark, i) :: i > 0 && At(text[1..], mark, i - 1);
    }
  }

  // The last search finds the largest position.
  lemma {:induction false} LastIs(text: string, mark: string)
    requires mark != ""
    ensures var found := FindLastText(text, mark);
            && (found.Some? ==> At(text, mark, found.value))
            && forall i: nat | At(text, mark, i) :: found.Some? && i <= found.value
  {
    if |text| >= |mark| && text[|text| - |mark|..] != mark {
      var front := text[..|text| - 1];
      LastIs(front, mark);
      forall i: nat ensures At(front, mark, i) == (At(text, mark, i) && i + |mark| < |text|) {
        ShortenedAt(text, mark, i);
      }
      assert forall i: nat | At(text, mark, i) :: i + |mark| < |text|;
    }
  }

  // Positions at which a mark could overlap the one behind `before` or in front of `rest`.
  lemma NoOverlap(before: string, mark: string, rest: string, i: nat)
    requires StartsLine(mark) && At(before + mark + rest, mark, i)
    ensures i < |before| ==> At(before, mark, i)
    ensures i > |before| ==> i >= |before| + |mark| && At(rest, mark, i - |before| - |mark|)
  {
    var text, n := before + mark + rest, |before|;
    assert text[n..n + |mark|] == mark;
    Lines(text, mark, i);
    Lines(text, mark, n);
    if i < n {
      assert text[i..i + |mark|] == before[i..i + |mark|];
    } else if i > n {
      var j := i - n - |mark|;
      assert text[i..i + |mark|] == rest[j..j + |mark|];
    }
  }

  // Within a mark only its first character ends a line.
  lemma Lines(text: string, mark: string, i: nat)
    requires StartsLine(mark) && At(text, mark, i)
    ensures text[i] == '\n' && forall k | i < k < i + |mark| :: text[k] != '\n'
  {
    assert forall k | i <= k < i + |mark| :: text[k] == mark[k - i];
  }

  // A mark is first found behind a text that does not contain it.
  lemma FirstMark(before: string, mark: string, rest: string)
    requires StartsLine(mark) && !Contains(before, mark)
    ensures FindText(before + mark + rest, mark) == Some(|before|)
  {
    hide Contains, FindText;
    var text := before + mark + rest;
    ContainsIsAt(before, mark);
    FirstIs(text, mark);
    assert At(text, mark, |before|);
    NoOverlap(before, mark, rest, FindText(text, mark).value);
  }

  // A mark is last found in front of a text that does not contain it.
  lemma LastMark(before: string, mark: string, rest: string)
    requires StartsLine(mark) && !Contains(rest, mark)
    ensures FindLastText(before + mark + rest, mark) == Some(|before|)
  {
    hide Contains, FindLastText;
    var text := before + mark + rest;
    ContainsIsAt(rest, mark);
    LastIs(text, mark);
    assert At(text, mark, |before|);
    NoOverlap(before, mark, rest, FindLastText(text, mark).value);
  }

  lemma FoundFirst(text: string, mark: string)
    requires mark != "" && FindText(text, mark).Some?
    ensures !Contains(text[..FindText(text, mark).value], mark)
  {
    hide Contains, FindText;
    var at := FindText(text, mark).value;
    FirstIs(text, mark);
    ContainsIsAt(text[..at], mark);
    assert forall i: nat | At(text[..at], mark, i) :: At(text, mark, i);
  }

  lemma FoundLast(text: string, mark: string)
    requires mark != "" && FindLastText(text, mark).Some?
    ensures var at := FindLastText(text, mark).value;
            text[at..at + |mark|] == mark && !Contains(text[at + |mark|..], mark)
  {
    hide Contains, FindLastText;
    var at := FindLastText(text, mark).value;
    LastIs(text, mark);
    var tail := text[at + |mark|..];
    ContainsIsAt(tail, mark);
    forall i: nat | At(tail, mark, i) ensures At(text, mark, at + |mark| + i) {
      assert tail[i..i + |mark|] == text[at + |mark| + i..at + |mark| + i + |mark|];
    }
  }

  const RESULT_MARK := "\nResult: "
  const SUCCEEDED_MARK := "\nSucceeded: "

  // A recorded body: action, result and ending, told apart by their marks.
  predicate RecordsAs(body: string, action: string, result: string, ending: string) {
    && body == "Attempt: " + (action + RESULT_MARK + (result + SUCCEEDED_MARK + ending))
    && !Contains(action, RESULT_MARK) && !Contains(ending, SUCCEEDED_MARK)
  }

  // The result is recovered exactly from such bodies: it may itself contain both
  // marks, an action may not.
  lemma ResultIsReadBack(body: string, result: string)
    ensures ResultFromBody(body) == Some(result) <==> exists action, ending :: RecordsAs(body, action, result, ending)
  {
    hide Contains, FindText, FindLastText;
    if action, ending :| RecordsAs(body, action, result, ending) { RecordIsRead(body, action, result, ending); }
    if ResultFromBody(body) == Some(result) { var action, ending := ReadIsRecord(body, result); }
  }

  lemma RecordIsRead(body: string, action: string, result: string, ending: string)
    requires RecordsAs(body, action, result, ending)
    ensures ResultFromBody(body) == Some(result)
  {
    hide Contains, FindText, FindLastText;
    var tail := result + SUCCEEDED_MARK + ending;
    var rest := action + RESULT_MARK + tail;
    assert body[..|"Attempt: "|] == "Attempt: " && body[|"Attempt: "|..] == rest;
    FirstMark(action, RESULT_MARK, tail);
    assert rest[|action| + |RESULT_MARK|..] == tail;
    LastMark(result, SUCCEEDED_MARK, ending);
    assert tail[..|result|] == result;
  }

  lemma ReadIsRecord(body: string, result: string) returns (action: string, ending: string)
    requires ResultFromBody(body) == Some(result)
    ensures RecordsAs(body, action, result, ending)
  {
    hide Contains, FindText, FindLastText;
    var rest := body[|"Attempt: "|..];
    var at := FindText(rest, RESULT_MARK).value;
    var tail := rest[at + |RESULT_MARK|..];
    var end := FindLastText(tail, SUCCEEDED_MARK).value;
    action, ending := rest[..at], tail[end + |SUCCEEDED_MARK|..];
    FoundFirst(rest, RESULT_MARK);
    FoundLast(tail, SUCCEEDED_MARK);
    Split(rest, RESULT_MARK, at);
    Split(tail, SUCCEEDED_MARK, end);
    Split(body, "Attempt: ", 0);
    assert body[..0] + "Attempt: " == "Attempt: ";
  }

  lemma Split(text: string, mark: string, at: nat)
    requires at + |mark| <= |text| && text[at..at + |mark|] == mark
    ensures text == text[..at] + mark + text[at + |mark|..]
  {
  }

  // What the lookup tells of a revision: its recorded result, else the one its
  // body records, else the whole body.
  lemma ResultTold(revision: Revision)
    ensures revision.attributes.attemptResult.None? ==>
              forall action, result, ending | RecordsAs(revision.body, action, result, ending) ::
                ResultText(revision) == result
    ensures revision.attributes.attemptResult.Some? ==> ResultText(revision) == revision.attributes.attemptResult.value
    ensures revision.attributes.attemptResult.None?
            && (forall action, result, ending :: !RecordsAs(revision.body, action, result, ending)) ==>
              ResultText(revision) == revision.body
  {
    hide RecordsAs, ResultFromBody;
    if revision.attributes.attemptResult.None? {
      forall action, result, ending | RecordsAs(revision.body, action, result, ending)
        ensures ResultText(revision) == result
      {
        RecordIsRead(revision.body, action, result, ending);
      }
      if ResultFromBody(revision.body).Some? {
        var action, ending := ReadIsRecord(revision.body, ResultFromBody(revision.body).value);
      }
    }
  }
}
