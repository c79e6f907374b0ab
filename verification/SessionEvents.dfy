// What a session checkpoint makes of the events it reads, told from their kinds,
// attributes and contents.
module SessionEvents {
  import opened Basics
  import opened Domain
  import opened Strings
  import opened AttemptKeys
  import opened CheckpointSession
  import opened Database
  import opened Truncation
  import AttemptCoalescing
  import SessionSlice
  import Text
  import TimeTravel

  // --- one event --------------------------------------------------------

  // The outcome an event reports: its flag, else its error flag, else its exit code.
  predicate Failed(event: Event) {
    match event.attributes.succeeded
    case Some(flag) => !flag
    case None =>
      match event.attributes.isError
      case Some(flag) => flag
      case None =>
        match event.attributes.exitCode
        case Some(code) => code != 0
        case None => false
  }

  // The event reports a command or a tool that ran.
  predicate Ran(event: Event) {
    event.kind == CommandResult || event.kind == ToolResult || event.kind == EventKind.Verification
  }

  predicate Verifies(event: Event) {
    event.kind == EventKind.Verification || event.attributes.verification == Some(true)
  }

  predicate NamesCommand(event: Event) {
    && event.attributes.command.Some?
    && exists i | 0 <= i < |event.attributes.command.value| :: !Blank(event.attributes.command.value[i])
  }

  // The word is this program, by name or by path.
  predicate Invokes(word: string, program: string) {
    || word == program
    || (|word| > |program| && word[|word| - |program|..] == program
        && (word[|word| - |program| - 1] == '/' || word[|word| - |program| - 1] == '\\'))
  }

  // A search that found nothing, or a quiet diff that found something.
  predicate SearchesOrCompares(words: seq<string>) {
    && words != []
    && (|| Invokes(words[0], "rg") || Invokes(words[0], "grep")
        || (Invokes(words[0], "git") && |words| > 1 && words[1] == "diff" && "--quiet" in words))
  }

  predicate ReportsTrouble(text: string) {
    var folded := AsciiLower(text);
    || Contains(folded, "error:") || Contains(folded, "fatal:") || Contains(folded, "panic")
    || Contains(folded, "exception") || Contains(folded, "traceback") || Contains(folded, "segmentation fault")
  }

  // An exit code of one that is an answer, not a failure.
  predicate Answers(event: Event) {
    && event.kind == CommandResult && event.attributes.exitCode == Some(1) && event.attributes.command.Some?
    && SearchesOrCompares(Words(event.attributes.command.value)) && !ReportsTrouble(event.content)
  }

  // Why an event is worth remembering on its own.
  predicate WorthFor(event: Event, reason: AttemptCoalescing.PromotionReason) {
    match reason
    case VerificationReason => Verifies(event)
    case FailedExecution => !Verifies(event) && Failed(event) && Ran(event) && !Answers(event)
    case ExplicitSalience =>
      !Verifies(event) && !(Failed(event) && Ran(event) && !Answers(event))
      && event.attributes.memorySalient == Some(true)
  }

  // Verifications, failed runs, salient results, and successes that may close an
  // earlier failure.
  predicate Worth(event: Event) {
    || Verifies(event) || event.attributes.memorySalient == Some(true)
    || (Ran(event) && Failed(event) && !Answers(event))
    || (Ran(event) && !Failed(event) && NamesCommand(event))
  }

  // --- the model's reading is this reading ------------------------------

  lemma BaseNameStep(path: string)
    requires path != "" && path[|path| - 1] != '/' && path[|path| - 1] != '\\'
    ensures BaseName(path) == BaseName(path[..|path| - 1]) + [path[|path| - 1]]
  {
  }

  lemma {:induction false} BaseNameIs(word: string, program: string)
    requires forall i | 0 <= i < |program| :: program[i] != '/' && program[i] != '\\'
    ensures BaseName(word) == program <==>
              || word == program
              || (|word| > |program| && word[|word| - |program|..] == program
                  && (word[|word| - |program| - 1] == '/' || word[|word| - |program| - 1] == '\\'))
              || (program == "" && word == "")
  {
    if word == "" || word[|word| - 1] == '/' || word[|word| - 1] == '\\' {
      if |program| > 0 && |word| >= |program| {
        assert word[|word| - |program|..][|program| - 1] == word[|word| - 1];
      }
      if program == "" && word != "" { assert word[|word|..] == ""; }
    } else if program == "" {
      BaseNameStep(word);
      assert word[|word|..] == "";
    } else {
      var front, last := word[..|word| - 1], word[|word| - 1];
      var stem, end := program[..|program| - 1], program[|program| - 1];
      BaseNameStep(word);
      BaseNameIs(front, stem);
      assert program == stem + [end] && word == front + [last];
      SplitEnd(BaseName(front), last, stem, end);
      SplitEnd(front, last, stem, end);
      if |word| >= |program| {
        assert word[|word| - |program|..] == front[|front| - |stem|..] + [last];
        SplitEnd(front[|front| - |stem|..], last, stem, end);
      }
    }
  }

  lemma SplitEnd(a: string, x: char, b: string, y: char)
    ensures a + [x] == b + [y] <==> a == b && x == y
  {
    if a + [x] == b + [y] {
      assert (a + [x])[..|a|] == a && (b + [y])[..|b|] == b;
      assert (a + [x])[|a|] == x && (b + [y])[|b|] == y;
    }
  }

  lemma InvokesIs(word: string)
    ensures BaseName(word) == "rg" <==> Invokes(word, "rg")
    ensures BaseName(word) == "grep" <==> Invokes(word, "grep")
    ensures BaseName(word) == "git" <==> Invokes(word, "git")
  {
    hide BaseName;
    BaseNameIs(word, "rg");
    BaseNameIs(word, "grep");
    BaseNameIs(word, "git");
  }

  lemma {:induction false} FoundIsContained(text: string, pattern: string)
    ensures TimeTravel.FindText(text, pattern).Some? <==> Contains(text, pattern)
  {
    if |text| < |pattern| {
    } else if text[..|pattern|] == pattern {
      assert text[0..] == text && pattern <= text[0..];
    } else {
      FoundIsContained(text[1..], pattern);
      if i :| 0 <= i <= |text| && pattern <= text[i..] {
        assert i > 0 by { assert text[0..] == text; }
        assert text[1..][i - 1..] == text[i..];
      }
      if i :| 0 <= i <= |text[1..]| && pattern <= text[1..][i..] {
        assert text[i + 1..] == text[1..][i..];
      }
    }
  }

  lemma TroubleIs(text: string)
    ensures (forall i | 0 <= i < |FAILURE_MARKERS| ::
               TimeTravel.FindText(AsciiLower(text), FAILURE_MARKERS[i]).None?) == !ReportsTrouble(text)
  {
    hide TimeTravel.FindText, Contains, AsciiLower;
    var folded, m := AsciiLower(text), FAILURE_MARKERS;
    forall i | 0 <= i < |m| ensures TimeTravel.FindText(folded, m[i]).None? == !Contains(folded, m[i]) {
      FoundIsContained(folded, m[i]);
    }
    assert m[0] == "error:" && m[1] == "fatal:" && m[2] == "panic" && m[3] == "exception" && m[4] == "traceback"
        && m[5] == "segmentation fault";
  }

  lemma AnswersIs(event: Event)
    ensures NeutralProbe(event) == Answers(event)
  {
    hide BaseName, Invokes, TimeTravel.FindText, ReportsTrouble, Words, AsciiLower;
    if event.attributes.command.Some? {
      var words := Words(event.attributes.command.value);
      TroubleIs(event.content);
      if words != [] { InvokesIs(words[0]); } else { EmptyBaseName(); }
    }
  }

  lemma EmptyBaseName()
    ensures BaseName("") == ""
  {
  }

  lemma {:induction false} BlankEnd(text: string)
    ensures TrimEnd(text) != "" <==> exists i | 0 <= i < |text| :: !IsBlank(text[i])
    ensures TrimEnd(text) != "" ==> !IsBlank(TrimEnd(text)[|TrimEnd(text)| - 1])
  {
    if text != "" && IsBlank(text[|text| - 1]) {
      var front := text[..|text| - 1];
      BlankEnd(front);
      assert forall i | 0 <= i < |front| :: front[i] == text[i];
    }
  }

  lemma {:induction false} BlankStart(text: string)
    requires text != "" ==> !IsBlank(text[|text| - 1])
    ensures TrimStart(text) == "" <==> text == ""
  {
    if text != "" && IsBlank(text[0]) { BlankStart(text[1..]); }
  }

  lemma CommandIs(event: Event)
    ensures HasCommand(event) == NamesCommand(event)
  {
    hide TrimStart, TrimEnd;
    if event.attributes.command.Some? {
      var text := event.attributes.command.value;
      BlankEnd(text);
      BlankStart(TrimEnd(text));
      forall i | 0 <= i < |text| ensures Blank(text[i]) == IsBlank(text[i]) { SameBlank(text[i]); }
    }
  }

  lemma ReadingIs(event: Event)
    ensures Succeeded(event) == !Failed(event)
    ensures forall reason :: ClassifyEvent(event) == Some(reason) <==> WorthFor(event, reason)
    ensures ClassifyEvent(event).Some? || ClosesFailure(event) <==> Worth(event)
    ensures HasCommand(event) == NamesCommand(event)
  {
    hide NeutralProbe, Answers, HasCommand, NamesCommand;
    AnswersIs(event);
    CommandIs(event);
  }

  // --- the attempt an event describes -----------------------------------

  function ToolOf(event: Event): string {
    match event.attributes.toolName
    case Some(name) => name
    case None => if event.kind == CommandResult then "command" else "tool"
  }

  // What was done, how it ended and what it is called, each text within its budget.
  ghost predicate Describes(event: Event, attempt: AttemptCoalescing.AutomaticAttempt) {
    && (if NamesCommand(event) then
          Shortened(ToolOf(event) + ": " + event.attributes.command.value, 256, attempt.action)
        else Shortened(ToolOf(event), 256, attempt.action))
    && Shortened(event.content, 768, attempt.result)
    && attempt.succeeded == !Failed(event) && attempt.fingerprint == event.attributes.errorFingerprint
    && (attempt.reason.Some? ==> WorthFor(event, attempt.reason.value))
    && (attempt.reason.None? ==> forall reason :: !WorthFor(event, reason))
    && attempt.identity ==
       if NamesCommand(event) then "command:" + event.attributes.command.value
       else if Failed(event) && event.attributes.errorFingerprint.Some? then
         "diagnostic:" + event.attributes.errorFingerprint.value
       else "event:" + Decimal(event.id)
  }

  lemma AttemptDescribes(event: Event)
    ensures Describes(event, AttemptOf(event))
  {
    hide HasCommand, Succeeded, Failed, ClassifyEvent, WorthFor, Text.TruncateToTokens, Shortened;
    ReadingIs(event);
    TruncationMeans(event.content, 768);
    TruncationMeans(ToolOf(event), 256);
    if event.attributes.command.Some? { TruncationMeans(ToolOf(event) + ": " + event.attributes.command.value, 256); }
  }

  // --- all events -------------------------------------------------------

  // The attempts are those of the worthy events, in order.
  ghost predicate Gathers(
    events: seq<Event>, runs: seq<AttemptCoalescing.AutomaticAttempt>, which: seq<nat>)
  {
    && |which| == |runs|
    && (forall i | 0 <= i < |which| :: which[i] < |events| && Describes(events[which[i]], runs[i]))
    && (forall i, j | 0 <= i < j < |which| :: which[i] < which[j])
    && (forall k: nat :: k in which <==> k < |events| && Worth(events[k]))
  }

  lemma GatherStep(g: Gathering, event: Event)
    ensures GatherEvent(g, event).attempts == if Worth(event) then g.attempts + [AttemptOf(event)] else g.attempts
  {
    hide Worth, ClassifyEvent, ClosesFailure, AttemptOf, EvidenceEvents, IsUserPrompt, IsGenericGoal,
      Text.TruncateToTokens;
    ReadingIs(event);
  }

  lemma {:induction false} GatheredRuns(g: Gathering, events: seq<Event>)
    returns (runs: seq<AttemptCoalescing.AutomaticAttempt>, which: seq<nat>)
    ensures Gather(g, events).attempts == g.attempts + runs && Gathers(events, runs, which)
  {
    hide Worth, GatherEvent, AttemptOf, Describes;
    if events == [] {
      runs, which := [], [];
    } else {
      var n := |events| - 1;
      var front, last := events[..n], events[n];
      runs, which := GatheredRuns(g, front);
      GatherStep(Gather(g, front), last);
      AttemptDescribes(last);
      GathersMore(front, last, runs, which);
      assert events == front + [last];
      if Worth(last) {
        assert g.attempts + runs + [AttemptOf(last)] == g.attempts + (runs + [AttemptOf(last)]);
        runs, which := runs + [AttemptOf(last)], which + [n];
      }
    }
  }

  lemma GathersMore(
    events: seq<Event>, last: Event, runs: seq<AttemptCoalescing.AutomaticAttempt>, which: seq<nat>)
    requires Gathers(events, runs, which)
    ensures !Worth(last) ==> Gathers(events + [last], runs, which)
    ensures forall run | Worth(last) && Describes(last, run) ::
              Gathers(events + [last], runs + [run], which + [|events|])
  {
    hide Worth, Describes;
    var all := events + [last];
    assert forall i | 0 <= i < |which| :: which[i] in which;
    forall k: nat ensures k in which + [|events|] <==> k in which || k == |events| {}
  }

  // --- evidence, verification and goal ----------------------------------

  // What an event is cited as.
  predicate CitedAs(kind: EventKind, relation: string) {
    match kind
    case ConversationTurn => relation == "session_prompt"
    case CommandResult => relation == "command_evidence"
    case Verification => relation == "verification_evidence"
    case FileChange => relation == "file_evidence"
    case ToolCall => relation == "tool_evidence"
    case ToolResult => relation == "tool_evidence"
    case ExplicitMemory => relation == "tool_evidence"
    case Checkpoint => relation == "tool_evidence"
    case ManualNote => relation == "tool_evidence"
    case Lifecycle => relation == "tool_evidence"
  }

  predicate CitesEvent(evidence: seq<Evidence>, event: EventId) {
    exists i | 0 <= i < |evidence| :: evidence[i].event == event
  }

  ghost predicate IsCitation(event: Event, source: Evidence) {
    && source.event == event.id && CitedAs(event.kind, source.relation)
    && source.spanStart.None? && source.spanEnd.None?
  }

  // The given evidence, then citations of these events, in order.
  ghost predicate CitesInOrder(given: seq<Evidence>, events: seq<Event>, after: seq<Evidence>, which: seq<nat>) {
    && |after| == |given| + |which| && given <= after
    && (forall i | 0 <= i < |which| :: which[i] < |events| && IsCitation(events[which[i]], after[|given| + i]))
    && (forall i, j | 0 <= i < j < |which| :: which[i] < which[j])
  }

  // Each event that was not cited yet is, once.
  ghost predicate CitesEvents(given: seq<Evidence>, events: seq<Event>, after: seq<Evidence>, which: seq<nat>) {
    && CitesInOrder(given, events, after, which)
    && forall k: nat :: k in which <==> FirstSeen(given, events, k)
  }

  // An event that is not cited yet, and not read before either.
  predicate FirstSeen(given: seq<Evidence>, events: seq<Event>, k: nat) {
    && k < |events| && !CitesEvent(given, events[k].id)
    && forall j | 0 <= j < k :: events[j].id != events[k].id
  }

  lemma EvidenceStep(g: Gathering, event: Event)
    ensures CitesEvent(g.evidence, event.id) ==> GatherEvent(g, event).evidence == g.evidence
    ensures !CitesEvent(g.evidence, event.id) ==>
              exists relation | CitedAs(event.kind, relation) ::
                GatherEvent(g, event).evidence == g.evidence + [Evidence(event.id, relation)]
  {
    hide ClassifyEvent, ClosesFailure, AttemptOf, IsUserPrompt, IsGenericGoal, Text.TruncateToTokens;
    assert CitesEvent(g.evidence, event.id) == (event.id in EvidenceEvents(g.evidence));
    assert CitedAs(event.kind, RelationOf(event.kind));
  }

  lemma CitesFew(given: seq<Evidence>, events: seq<Event>, after: seq<Evidence>, which: seq<nat>, id: EventId)
    requires CitesEvents(given, events, after, which)
    ensures CitesEvent(after, id) <==>
              CitesEvent(given, id) || exists k | 0 <= k < |events| :: events[k].id == id
  {
    hide CitedAs;
    if !CitesEvent(given, id) {
      if k: nat :| k < |events| && events[k].id == id {
        var first := FirstWith(events, id);
        assert FirstSeen(given, events, first);
        assert first in which;
        var i :| 0 <= i < |which| && which[i] == first;
        assert after[|given| + i].event == id;
      }
      if i :| 0 <= i < |after| && after[i].event == id {
        assert i >= |given|;
        assert after[|given| + (i - |given|)].event == events[which[i - |given|]].id;
      }
    } else {
      var i :| 0 <= i < |given| && given[i].event == id;
      assert after[i].event == id;
    }
  }

  lemma {:induction false} FirstWith(events: seq<Event>, id: EventId) returns (first: nat)
    requires exists k | 0 <= k < |events| :: events[k].id == id
    ensures first < |events| && events[first].id == id && forall j | 0 <= j < first :: events[j].id != id
  {
    var n := |events| - 1;
    if k :| 0 <= k < n && events[k].id == id {
      assert events[..n][k].id == id;
      first := FirstWith(events[..n], id);
      assert forall j | 0 <= j < first :: events[j] == events[..n][j];
    } else {
      first := n;
    }
  }

  lemma {:induction false} GatheredEvidence(g: Gathering, events: seq<Event>) returns (which: seq<nat>)
    ensures CitesEvents(g.evidence, events, Gather(g, events).evidence, which)
  {
    hide GatherEvent, CitedAs, CitesEvent;
    if events == [] {
      which := [];
    } else {
      var n := |events| - 1;
      var front, last := events[..n], events[n];
      which := GatheredEvidence(g, front);
      var before := Gather(g, front);
      EvidenceStep(before, last);
      CitesFew(g.evidence, front, before.evidence, which, last.id);
      assert events == front + [last];
      CitesMore(g.evidence, front, last, before.evidence, Gather(g, events).evidence, which);
      if !CitesEvent(before.evidence, last.id) { which := which + [n]; }
    }
  }

  lemma CitesMore(given: seq<Evidence>, events: seq<Event>, last: Event, before: seq<Evidence>, after: seq<Evidence>,
      which: seq<nat>)
    requires CitesEvents(given, events, before, which)
    requires CitesEvent(before, last.id) <==>
               CitesEvent(given, last.id) || exists k | 0 <= k < |events| :: events[k].id == last.id
    requires CitesEvent(before, last.id) ==> after == before
    requires !CitesEvent(before, last.id) ==>
               exists relation | CitedAs(last.kind, relation) :: after == before + [Evidence(last.id, relation)]
    ensures CitesEvents(given, events + [last], after,
                        if CitesEvent(before, last.id) then which else which + [|events|])
  {
    hide CitesEvent, FirstSeen, IsCitation, CitesInOrder;
    var all, n := events + [last], |events|;
    forall k: nat
      ensures FirstSeen(given, all, k) <==> FirstSeen(given, events, k) || (k == n && !CitesEvent(before, last.id))
    {
      SeenInLonger(given, events, last, k);
    }
    StillInOrder(given, events, last, before, which);
    if !CitesEvent(before, last.id) {
      var relation :| CitedAs(last.kind, relation) && after == before + [Evidence(last.id, relation)];
      assert IsCitation(last, Evidence(last.id, relation)) by { JustCited(last, relation); }
      OneMoreInOrder(given, events, last, before, which, Evidence(last.id, relation));
      assert forall k: nat :: k in which + [n] <==> k in which || k == n;
    }
  }

  lemma JustCited(event: Event, relation: string)
    requires CitedAs(event.kind, relation)
    ensures IsCitation(event, Evidence(event.id, relation))
  {
  }

  lemma StillInOrder(given: seq<Evidence>, events: seq<Event>, last: Event, after: seq<Evidence>, which: seq<nat>)
    requires CitesInOrder(given, events, after, which)
    ensures CitesInOrder(given, events + [last], after, which)
  {
    hide IsCitation;
  }

  lemma OneMoreInOrder(given: seq<Evidence>, events: seq<Event>, last: Event, after: seq<Evidence>, which: seq<nat>,
      source: Evidence)
    requires CitesInOrder(given, events, after, which) && IsCitation(last, source)
    ensures CitesInOrder(given, events + [last], after + [source], which + [|events|])
  {
    hide IsCitation;
    var all, more, longer := events + [last], which + [|events|], after + [source];
    forall i | 0 <= i < |more| ensures more[i] < |all| && IsCitation(all[more[i]], longer[|given| + i]) {
      if i < |which| { assert longer[|given| + i] == after[|given| + i] && all[more[i]] == events[which[i]]; }
    }
  }

  lemma SeenInLonger(given: seq<Evidence>, events: seq<Event>, last: Event, k: nat)
    ensures FirstSeen(given, events + [last], k) <==>
              || FirstSeen(given, events, k)
              || (&& k == |events| && !CitesEvent(given, last.id)
                  && !exists j | 0 <= j < |events| :: events[j].id == last.id)
  {
    hide CitesEvent;
    var all := events + [last];
    assert forall j | 0 <= j < |events| :: all[j] == events[j];
    if k == |events| {
      assert all[k] == last;
      assert (forall j | 0 <= j < k :: all[j].id != last.id)
          == !exists j | 0 <= j < |events| :: events[j].id == last.id;
    }
  }

  // Notes of verifying runs, each once, behind the given ones.
  ghost predicate NotesRuns(
    given: seq<string>, runs: seq<AttemptCoalescing.AutomaticAttempt>, after: seq<string>)
  {
    && given <= after
    && (forall note :: note in after <==>
          || note in given
          || exists i | 0 <= i < |runs| ::
               runs[i].reason == Some(AttemptCoalescing.VerificationReason)
               && note == runs[i].action + ": " + runs[i].result)
    && (forall i, j | |given| <= i < |after| && 0 <= j < i :: after[i] != after[j])
  }

  lemma NoteStep(g: Gathering, event: Event)
    ensures var run, after := AttemptOf(event), GatherEvent(g, event).verification;
            var note := run.action + ": " + run.result;
            if Worth(event) && run.reason == Some(AttemptCoalescing.VerificationReason) && note !in g.verification
            then after == g.verification + [note] else after == g.verification
  {
    hide Worth, ClassifyEvent, ClosesFailure, EvidenceEvents, IsUserPrompt, IsGenericGoal, Text.TruncateToTokens,
      ActionOf, IdentityOf, Succeeded;
    ReadingIs(event);
  }

  lemma {:induction false} GatheredNotes(g: Gathering, events: seq<Event>)
    requires g.attempts == []
    ensures NotesRuns(g.verification, Gather(g, events).attempts, Gather(g, events).verification)
  {
    hide GatherEvent, AttemptOf, Worth;
    if events != [] {
      var n := |events| - 1;
      var before := Gather(g, events[..n]);
      GatheredNotes(g, events[..n]);
      GatherStep(before, events[n]);
      NoteStep(before, events[n]);
      NotesMore(g.verification, before.attempts, before.verification, AttemptOf(events[n]));
    }
  }

  lemma NotesMore(given: seq<string>, runs: seq<AttemptCoalescing.AutomaticAttempt>, notes: seq<string>,
      run: AttemptCoalescing.AutomaticAttempt)
    requires NotesRuns(given, runs, notes)
    ensures var note := run.action + ": " + run.result;
            NotesRuns(given, runs + [run],
              if run.reason == Some(AttemptCoalescing.VerificationReason) && note !in notes then notes + [note]
              else notes)
  {
    var note, all := run.action + ": " + run.result, runs + [run];
    var after := if run.reason == Some(AttemptCoalescing.VerificationReason) && note !in notes then notes + [note]
      else notes;
    forall other
      ensures other in after <==>
        || other in given
        || exists i | 0 <= i < |all| ::
             all[i].reason == Some(AttemptCoalescing.VerificationReason)
             && other == all[i].action + ": " + all[i].result
    {
      assert forall i | 0 <= i < |runs| :: all[i] == runs[i];
      assert all[|runs|] == run;
    }
  }

  // --- the goal ---------------------------------------------------------

  predicate GenericGoal(goal: string) {
    var folded := AsciiLower(Trim(goal));
    || folded == "coding task" || folded == "complete the current coding turn"
    || folded == "complete the delegated coding task" || folded == "complete the current opencode coding turn"
    || folded == "complete the current pi coding turn"
  }

  lemma GoalStep(g: Gathering, event: Event)
    ensures GatherEvent(g, event).goal
         == if SessionSlice.Prompts(event) && GenericGoal(g.goal) then Text.TruncateToTokens(event.content, 256)
            else g.goal
  {
    hide ClassifyEvent, ClosesFailure, AttemptOf, EvidenceEvents, Text.TruncateToTokens, AsciiLower, Trim;
    var folded, goals := AsciiLower(Trim(g.goal)), GENERIC_GOALS;
    assert folded in goals <==> exists i | 0 <= i < |goals| :: goals[i] == folded;
  }

  lemma {:induction false} PromptsDecideGoal(g: Gathering, events: seq<Event>)
    requires forall i | 0 < i < |events| :: !SessionSlice.Prompts(events[i])
    ensures Gather(g, events).goal
         == if events != [] && SessionSlice.Prompts(events[0]) && GenericGoal(g.goal)
            then Text.TruncateToTokens(events[0].content, 256) else g.goal
  {
    hide GatherEvent, SessionSlice.Prompts, GenericGoal, Text.TruncateToTokens;
    if events != [] {
      var n := |events| - 1;
      PromptsDecideGoal(g, events[..n]);
      GoalStep(Gather(g, events[..n]), events[n]);
    }
  }

  // A generic goal gives way to the prompt that started the turn, shortened.
  ghost predicate GoalTold(given: string, slice: seq<Event>, goal: string) {
    if slice != [] && SessionSlice.Prompts(slice[0]) && GenericGoal(given) then Shortened(slice[0].content, 256, goal)
    else goal == given
  }

  lemma GatheredGoal(request: CheckpointRequest, events: seq<Event>, session: string)
    ensures GoalTold(request.goal, Ambient(events, request.scope, session), Gathered(request, events, session).goal)
  {
    hide Ambient, Gather, Text.TruncateToTokens, Shortened, GenericGoal, SessionSlice.Prompts;
    var slice := Ambient(events, request.scope, session);
    AmbientSlice(events, request.scope, session);
    forall event: Event ensures IsUserPrompt(event) == SessionSlice.Prompts(event) { SamePrompt(event); }
    PromptsDecideGoal(Start(request), slice);
    if slice != [] { TruncationMeans(slice[0].content, 256); }
  }

  lemma SamePrompt(event: Event)
    ensures IsUserPrompt(event) == SessionSlice.Prompts(event)
  {
  }

  // --- the whole enrichment ---------------------------------------------

  // What was read: these positions of the log, their runs, and what is cited.
  datatype Reading = Reading(
    at: seq<nat>, runs: seq<AttemptCoalescing.AutomaticAttempt>, worthy: seq<nat>, cited: seq<nat>)

  ghost predicate ReadingOf(
    events: seq<Event>, request: CheckpointRequest, session: string, slice: seq<Event>, reading: Reading,
    goal: string, evidence: seq<Evidence>, verification: seq<string>)
  {
    && SessionSlice.Picks(events, reading.at, slice)
    && (forall i: nat :: i in reading.at <==> SessionSlice.Read(events, request.scope, session, i))
    && Gathers(slice, reading.runs, reading.worthy)
    && CitesEvents(request.evidence, slice, evidence, reading.cited)
    && NotesRuns(request.verification, reading.runs, verification)
    && GoalTold(request.goal, slice, goal)
  }

  // The enriched request holds what the session's events since its last
  // checkpoint or prompt tell: their citations, the notes of its verifications,
  // the goal of its prompt, and its attempts, coalesced behind the given ones.
  lemma EnrichmentTells(
    db: Db, request: CheckpointRequest, session: string, before: Option<nat>)
    returns (slice: seq<Event>, reading: Reading, prior: AttemptCoalescing.Priors)
    ensures var enriched := Enriched(db, request, session, before);
            && ReadingOf(Visible(db, before), request, session, slice, reading, enriched.goal, enriched.evidence,
                         enriched.verification)
            && enriched.attempts == request.attempts + AttemptCoalescing.Coalesced(reading.runs, prior)
            && enriched == request.(goal := enriched.goal, evidence := enriched.evidence,
                                    verification := enriched.verification, attempts := enriched.attempts)
    ensures prior == PreviousFailures(db, request.scope, AttemptCoalescing.AutomaticKeys(reading.runs), before)
  {
    hide Ambient, Gather, PreviousFailures, AttemptCoalescing.Coalesced, AttemptCoalescing.AutomaticKeys, Gathers,
      CitesEvents, NotesRuns, GoalTold, Visible, SessionSlice.Read, SessionSlice.Picks;
    var events := Visible(db, before);
    slice := Ambient(events, request.scope, session);
    var at := SessionSlice.SliceExact(events, request.scope, session);
    var runs, worthy := GatheredRuns(Start(request), slice);
    assert [] + runs == runs;
    var cited := GatheredEvidence(Start(request), slice);
    GatheredNotes(Start(request), slice);
    GatheredGoal(request, events, session);
    reading := Reading(at, runs, worthy, cited);
    prior := PreviousFailures(db, request.scope, AttemptCoalescing.AutomaticKeys(runs), before);
  }
}
