// What an accepted checkpoint leaves behind, told from the request alone: every
// text it was given, under the identifiers of its receipt.
module CheckpointContents {
  import opened Basics
  import opened Domain
  import opened Database
  import opened Ledger
  import opened AttachmentContents
  import opened AttachmentTables
  import opened FailedAttempts
  import opened MemberHeads
  import opened ReadBack
  import opened Strings
  import CheckpointAcceptance

  // --- what every member holds ------------------------------------------

  // A revision of this event with these texts, as the redactor leaves them.
  ghost predicate HoldsAt(db: Db, redactor: Redactor, at: RevisionId, scope: Scope, kind: MemoryKind,
      key: Option<string>, title: string, body: string, attributes: Attributes)
  {
    && at in db.revisions && at in db.metadata
    && db.revisions[at].recordedSeq == |db.events| && db.revisions[at].scope == scope
    && db.revisions[at].title == redactor.text(title) && db.revisions[at].body == redactor.text(body)
    && db.revisions[at].attributes == redactor.attributes(attributes)
    && db.metadata[at].kind == kind && db.metadata[at].key == key
  }

  // It belongs to the episode through a link of this relation and weight.
  predicate LinkedTo(db: Db, at: RevisionId, episode: MemoryId, relation: string, weight: nat, event: EventId) {
    LinkRow(at.memory, at.revision, episode, relation, weight, event) in db.links
  }

  predicate Ranked(db: Db, at: RevisionId, importance: nat, confidence: nat, trust: nat) {
    at in db.metadata && db.metadata[at].ranking == Ranking(importance, confidence, trust, None, None, None)
  }

  ghost predicate EpisodeTold(db: Db, redactor: Redactor, request: CheckpointRequest, id: MemoryId) {
    exists revision: nat :: EpisodeToldAt(db, redactor, request, RevisionId(id, revision))
  }

  function OutcomeWord(outcome: CheckpointOutcome): string {
    match outcome
    case SuccessOutcome => "success"
    case PartialOutcome => "partial"
    case FailureOutcome => "failure"
  }

  function EachRedacted(redactor: Redactor, texts: seq<string>): seq<string> {
    seq(|texts|, i requires 0 <= i < |texts| => redactor.text(texts[i]))
  }

  ghost predicate EpisodeToldAt(db: Db, redactor: Redactor, request: CheckpointRequest, at: RevisionId) {
    && HoldsAt(db, redactor, at, request.scope, Episode, None, "Task checkpoint: " + redactor.text(request.goal),
         "Goal: " + redactor.text(request.goal)
         + "\nOutcome: " + OutcomeWord(request.outcome) + "\nSummary: " + redactor.text(request.summary)
         + "\nVerification: "
         + (if request.verification == [] then "not supplied"
            else JoinWith(EachRedacted(redactor, request.verification), "; ")),
         NO_ATTRIBUTES.(extra := OutcomeWord(request.outcome) + "\n" + redactor.text(request.goal)))
    && Ranked(db, at, 72, if request.verification == [] then 65 else 85, request.trust)
  }

  ghost predicate DecisionTold(db: Db, redactor: Redactor, request: CheckpointRequest, decision: CheckpointDecision,
      id: MemoryId, episode: MemoryId, event: EventId)
  {
    exists revision: nat :: DecisionToldAt(db, redactor, request, decision, RevisionId(id, revision), episode, event)
  }

  ghost predicate DecisionToldAt(db: Db, redactor: Redactor, request: CheckpointRequest, decision: CheckpointDecision,
      at: RevisionId, episode: MemoryId, event: EventId)
  {
    && HoldsAt(db, redactor, at, request.scope, Decision, StoredKey(redactor, decision.key),
         "Decision: " + redactor.text(decision.summary),
         match decision.rationale
         case None => redactor.text(decision.summary)
         case Some(why) => redactor.text(decision.summary) + "\nRationale: " + redactor.text(why),
         NO_ATTRIBUTES)
    && Ranked(db, at, 82, 80, request.trust) && LinkedTo(db, at, episode, "belongs_to", 900, event)
  }

  ghost predicate AttemptTold(db: Db, redactor: Redactor, request: CheckpointRequest, attempt: CheckpointAttempt,
      id: MemoryId, episode: MemoryId, event: EventId)
  {
    exists revision: nat :: AttemptToldAt(db, redactor, request, attempt, RevisionId(id, revision), episode, event)
  }

  ghost predicate AttemptToldAt(db: Db, redactor: Redactor, request: CheckpointRequest, attempt: CheckpointAttempt,
      at: RevisionId, episode: MemoryId, event: EventId)
  {
    var text := "Attempt: " + redactor.text(attempt.action) + "\nResult: " + redactor.text(attempt.result);
    && (match attempt.succeeded
        case true =>
          && HoldsAt(db, redactor, at, request.scope, Outcome, StoredKey(redactor, attempt.key),
               "Successful approach: " + redactor.text(attempt.action), text + "\nSucceeded: true",
               AttemptAttributes(redactor, request, attempt))
          && Ranked(db, at, 72, 88, request.trust)
        case false =>
          && HoldsAt(db, redactor, at, request.scope, Outcome, StoredKey(redactor, attempt.key),
               "Failed approach: " + redactor.text(attempt.action), text + "\nSucceeded: false",
               AttemptAttributes(redactor, request, attempt))
          && Ranked(db, at, 78, 88, request.trust))
    && LinkedTo(db, at, episode, "attempted_for", 900, event)
  }

  // What a later lookup reads of an attempt, next to the goal and its reason.
  function AttemptAttributes(redactor: Redactor, request: CheckpointRequest, attempt: CheckpointAttempt): Attributes {
    Attributes(
      None, None, None,
      match attempt.fingerprint { case None => None case Some(text) => Some(redactor.text(text)) },
      Some(redactor.text(attempt.result)), Some(attempt.succeeded), None, None, None, None,
      match attempt.promotionReason {
        case None => redactor.text(request.goal)
        case Some(text) => redactor.text(request.goal) + "\n" + redactor.text(text)
      })
  }

  ghost predicate TaskTold(db: Db, redactor: Redactor, request: CheckpointRequest, task: string, id: MemoryId,
      episode: MemoryId, event: EventId)
  {
    exists revision: nat :: TaskToldAt(db, redactor, request, task, RevisionId(id, revision), episode, event)
  }

  ghost predicate TaskToldAt(db: Db, redactor: Redactor, request: CheckpointRequest, task: string, at: RevisionId,
      episode: MemoryId, event: EventId)
  {
    && HoldsAt(db, redactor, at, request.scope, Task, None, "Open task: " + redactor.text(task), redactor.text(task),
         NO_ATTRIBUTES)
    && Ranked(db, at, 68, 90, request.trust) && LinkedTo(db, at, episode, "belongs_to", 850, event)
  }

  // Where the members of a checkpoint stand in its receipt: the episode, the
  // decisions, the attempts and the open tasks, each in request order.
  ghost predicate CheckpointTold(db: Db, redactor: Redactor, request: CheckpointRequest, ids: seq<MemoryId>,
      event: EventId)
  {
    var d, a := |request.decisions|, |request.attempts|;
    && |ids| == 1 + d + a + |request.openTasks|
    && EpisodeTold(db, redactor, request, ids[0])
    && (forall i | 0 <= i < d :: DecisionTold(db, redactor, request, request.decisions[i], ids[1 + i], ids[0], event))
    && (forall i | 0 <= i < a ::
          AttemptTold(db, redactor, request, request.attempts[i], ids[1 + d + i], ids[0], event))
    && (forall i | 0 <= i < |request.openTasks| ::
          TaskTold(db, redactor, request, request.openTasks[i], ids[1 + d + a + i], ids[0], event))
  }

  lemma RecordedEpisode(db: Db, redactor: Redactor, request: CheckpointRequest, id: MemoryId, event: EventId)
    requires Recorded(db, id, PrepareMemory(redactor, EpisodeRequest(RedactCheckpoint(redactor, request))), event)
    ensures EpisodeTold(db, redactor, request, id)
  {
    hide StoreAll, Stored, LinkRows, JoinWith;
    var safe := RedactCheckpoint(redactor, request);
    var revision :| RecordedAt(db, RevisionId(id, revision), PrepareMemory(redactor, EpisodeRequest(safe)), event);
    assert safe.verification == EachRedacted(redactor, request.verification);
    assert EpisodeToldAt(db, redactor, request, RevisionId(id, revision));
  }

  lemma Joined(a: string, b: string, c: string)
    ensures a + b + c == a + (b + c)
  {
  }

  lemma LinkOf(db: Db, at: RevisionId, links: seq<LinkInput>, event: EventId)
    requires LinkRows(at.memory, at.revision, links, event) <= db.links && |links| == 1
    ensures LinkedTo(db, at, links[0].target, links[0].relation, CapWeight(links[0].weight), event)
  {
    assert LinkRow(at.memory, at.revision, links[0].target, links[0].relation, CapWeight(links[0].weight), event)
        in LinkRows(at.memory, at.revision, links, event);
  }

  lemma RecordedDecision(db: Db, redactor: Redactor, request: CheckpointRequest, i: nat, id: MemoryId,
      episode: MemoryId, event: EventId)
    requires i < |request.decisions|
    requires var safe := RedactCheckpoint(redactor, request);
             Recorded(db, id, PrepareMemory(redactor, DecisionRequest(safe, safe.decisions[i], episode)), event)
    ensures DecisionTold(db, redactor, request, request.decisions[i], id, episode, event)
  {
    hide StoreAll, Stored, LinkRows, Trim;
    var safe := RedactCheckpoint(redactor, request);
    var prepared := PrepareMemory(redactor, DecisionRequest(safe, safe.decisions[i], episode));
    var revision :| RecordedAt(db, RevisionId(id, revision), prepared, event);
    LinkOf(db, RevisionId(id, revision), prepared.links, event);
    StructuralRelations();
    assert safe.decisions[i].summary + "" == safe.decisions[i].summary;
    if safe.decisions[i].rationale.Some? {
      Joined(safe.decisions[i].summary, "\nRationale: ", safe.decisions[i].rationale.value);
    }
    assert DecisionToldAt(db, redactor, request, request.decisions[i], RevisionId(id, revision), episode, event);
  }

  lemma SuccessTold(text: string)
    ensures text + "\nSucceeded: " + "true" == text + "\nSucceeded: true"
    ensures text + "\nSucceeded: " + "false" == text + "\nSucceeded: false"
  {
    Joined(text, "\nSucceeded: ", "true");
    Joined(text, "\nSucceeded: ", "false");
    assert "\nSucceeded: " + "true" == "\nSucceeded: true" && "\nSucceeded: " + "false" == "\nSucceeded: false";
  }

  lemma RecordedAttempt(db: Db, redactor: Redactor, request: CheckpointRequest, i: nat, id: MemoryId,
      episode: MemoryId, event: EventId)
    requires i < |request.attempts|
    requires var safe := RedactCheckpoint(redactor, request);
             Recorded(db, id, PrepareMemory(redactor, AttemptRequest(safe, safe.attempts[i], episode)), event)
    ensures AttemptTold(db, redactor, request, request.attempts[i], id, episode, event)
  {
    hide StoreAll, Stored, LinkRows, Trim;
    var safe := RedactCheckpoint(redactor, request);
    var prepared := PrepareMemory(redactor, AttemptRequest(safe, safe.attempts[i], episode));
    var revision :| RecordedAt(db, RevisionId(id, revision), prepared, event);
    LinkOf(db, RevisionId(id, revision), prepared.links, event);
    StructuralRelations();
    assert safe.goal + "" == safe.goal;
    if safe.attempts[i].promotionReason.Some? { Joined(safe.goal, "\n", safe.attempts[i].promotionReason.value); }
    assert AttemptRequest(safe, safe.attempts[i], episode).attributes
        == AttemptAttributes(redactor, request, request.attempts[i]);
    SuccessTold("Attempt: " + safe.attempts[i].action + "\nResult: " + safe.attempts[i].result);
    assert AttemptToldAt(db, redactor, request, request.attempts[i], RevisionId(id, revision), episode, event);
  }

  lemma RecordedTask(db: Db, redactor: Redactor, request: CheckpointRequest, i: nat, id: MemoryId,
      episode: MemoryId, event: EventId)
    requires i < |request.openTasks|
    requires var safe := RedactCheckpoint(redactor, request);
             Recorded(db, id, PrepareMemory(redactor, TaskRequest(safe, safe.openTasks[i], episode)), event)
    ensures TaskTold(db, redactor, request, request.openTasks[i], id, episode, event)
  {
    hide StoreAll, Stored, LinkRows, Trim;
    var safe := RedactCheckpoint(redactor, request);
    var prepared := PrepareMemory(redactor, TaskRequest(safe, safe.openTasks[i], episode));
    var revision :| RecordedAt(db, RevisionId(id, revision), prepared, event);
    LinkOf(db, RevisionId(id, revision), prepared.links, event);
    StructuralRelations();
    assert TaskToldAt(db, redactor, request, request.openTasks[i], RevisionId(id, revision), episode, event);
  }

  // An accepted checkpoint logs its redacted summary and holds every text it was
  // given, redacted, under the identifiers of its receipt.
  lemma CheckpointText(
    db: Db, redactor: Redactor, request: CheckpointRequest, event: EventId, draws: nat -> MemoryId, reply: Reply)
    requires Inv(db) && reply == CheckpointStep(db, redactor, request, event, draws) && reply.db != db
    ensures reply.result.Ok?
    ensures reply.result == Ok(Receipt(event, reply.result.value.memoryIds, |db.events| + 1, false))
    ensures |reply.db.events| == |db.events| + 1 && reply.db.events[..|db.events|] == db.events
    ensures var logged := reply.db.events[|db.events|];
            && logged.id == event && logged.kind == Checkpoint && logged.scope == request.scope
            && logged.content == redactor.text(request.summary)
            && logged.attributes == redactor.attributes(NO_ATTRIBUTES.(extra :=
                 redactor.text(request.goal) + "\n" + OutcomeWord(request.outcome) + "\n"
                 + JoinWith(EachRedacted(redactor, request.verification), "; ")))
    ensures CheckpointTold(reply.db, redactor, request, reply.result.value.memoryIds, event)
  {
    hide Inv, CheckpointStep, RedactCheckpoint, PrepareMemory, EpisodeRequest, DecisionRequest, AttemptRequest,
      TaskRequest, Recorded, GetIdempotent, CheckpointFingerprintOf, EpisodeTold, DecisionTold, AttemptTold, TaskTold,
      CheckpointWrites, Scope.Durable;
    CommittedCheckpoint(db, redactor, request, event, draws);
    CheckpointRecordsEverything(db, redactor, request, event, draws);
    SafeFields(redactor, request);
    var safe, ids := RedactCheckpoint(redactor, request), reply.result.value.memoryIds;
    EpisodeAndMembersLog(db, redactor, safe, event, draws);
    LoggedAttributes(redactor, request);
    RecordedEpisode(reply.db, redactor, request, ids[0], event);
    var d, a := |request.decisions|, |request.attempts|;
    forall i | 0 <= i < d
      ensures DecisionTold(reply.db, redactor, request, request.decisions[i], ids[1 + i], ids[0], event)
    {
      RecordedDecision(reply.db, redactor, request, i, ids[1 + i], ids[0], event);
    }
    forall i | 0 <= i < a
      ensures AttemptTold(reply.db, redactor, request, request.attempts[i], ids[1 + d + i], ids[0], event)
    {
      RecordedAttempt(reply.db, redactor, request, i, ids[1 + d + i], ids[0], event);
    }
    forall i | 0 <= i < |request.openTasks|
      ensures TaskTold(reply.db, redactor, request, request.openTasks[i], ids[1 + d + a + i], ids[0], event)
    {
      RecordedTask(reply.db, redactor, request, i, ids[1 + d + a + i], ids[0], event);
    }
  }

  lemma LoggedAttributes(redactor: Redactor, request: CheckpointRequest)
    ensures CheckpointAttributes(redactor, RedactCheckpoint(redactor, request))
         == redactor.attributes(NO_ATTRIBUTES.(extra :=
              redactor.text(request.goal) + "\n" + OutcomeWord(request.outcome) + "\n"
              + JoinWith(EachRedacted(redactor, request.verification), "; ")))
  {
    hide JoinWith;
    assert RedactCheckpoint(redactor, request).verification == EachRedacted(redactor, request.verification);
  }

  lemma SafeFields(redactor: Redactor, request: CheckpointRequest)
    ensures var safe := RedactCheckpoint(redactor, request);
            && safe.scope == request.scope && safe.summary == redactor.text(request.summary)
            && |safe.decisions| == |request.decisions| && |safe.attempts| == |request.attempts|
            && |safe.openTasks| == |request.openTasks|
  {
  }

  lemma EpisodeAndMembersLog(
    db: Db, redactor: Redactor, safe: CheckpointRequest, event: EventId, draws: nat -> MemoryId)
    requires Inv(db) && CheckpointWrites(db, redactor, safe, event, draws).Ok?
    ensures CheckpointWrites(db, redactor, safe, event, draws).value.db.events
         == db.events + [Event(event, Checkpoint, safe.scope, safe.summary, CheckpointAttributes(redactor, safe))]
  {
    hide Inv, CheckpointWrites, Upsert, PrepareMemory, EpisodeRequest, MemberRequests, CheckpointAttributes, Tells,
      BatchTells, OnlyOne, OneCurrent, Prepared;
    EpisodeAndMembers(db, redactor, safe, event, draws);
  }

  // --- with redaction switched off --------------------------------------

  // A revision of this event, of this kind, whose body mentions the text.
  ghost predicate Mentions(db: Db, id: MemoryId, kind: MemoryKind, text: string) {
    exists revision: nat :: MentionsAt(db, RevisionId(id, revision), kind, text)
  }

  ghost predicate MentionsAt(db: Db, at: RevisionId, kind: MemoryKind, text: string) {
    && at in db.revisions && at in db.metadata && db.revisions[at].recordedSeq == |db.events|
    && db.metadata[at].kind == kind && Contains(db.revisions[at].body, text)
  }

  lemma ContainsMore(text: string, part: string, more: string)
    requires Contains(text, part)
    ensures Contains(text + more, part)
  {
    var i :| 0 <= i <= |text| && part <= text[i..];
    assert (text + more)[i..] == text[i..] + more;
  }

  lemma ContainsLast(before: string, part: string)
    ensures Contains(before + part, part)
  {
    ContainsMiddle(before, part, "");
    assert before + part + "" == before + part;
  }

  lemma {:induction false} JoinContains(texts: seq<string>, separator: string, i: nat)
    requires i < |texts|
    ensures Contains(JoinWith(texts, separator), texts[i])
  {
    if |texts| == 1 {
      ContainsLast("", texts[0]);
      assert "" + texts[0] == texts[0];
    } else if i == |texts| - 1 {
      ContainsLast(JoinWith(texts[..i], separator) + separator, texts[i]);
    } else {
      var front := texts[..|texts| - 1];
      JoinContains(front, separator, i);
      ContainsMore(JoinWith(front, separator), texts[i], separator);
      ContainsMore(JoinWith(front, separator) + separator, texts[i], texts[|texts| - 1]);
    }
  }

  lemma EpisodeMentions(db: Db, request: CheckpointRequest, id: MemoryId)
    requires EpisodeTold(db, PLAIN, request, id)
    ensures Mentions(db, id, Episode, request.goal) && Mentions(db, id, Episode, request.summary)
    ensures forall i | 0 <= i < |request.verification| :: Mentions(db, id, Episode, request.verification[i])
  {
    hide Contains, JoinWith, Ranked;
    var revision: nat :| EpisodeToldAt(db, PLAIN, request, RevisionId(id, revision));
    var at := RevisionId(id, revision);
    var outcome := OutcomeWord(request.outcome);
    var lines := EachRedacted(PLAIN, request.verification);
    assert lines == request.verification;
    var goal := "Goal: " + request.goal;
    var summary := goal + "\nOutcome: " + outcome + "\nSummary: " + request.summary;
    var checks := if lines == [] then "not supplied" else JoinWith(lines, "; ");
    assert db.revisions[at].body == summary + "\nVerification: " + checks;
    ContainsLast("Goal: ", request.goal);
    ContainsMore(goal, request.goal, "\nOutcome: ");
    ContainsMore(goal + "\nOutcome: ", request.goal, outcome);
    ContainsMore(goal + "\nOutcome: " + outcome, request.goal, "\nSummary: ");
    ContainsMore(goal + "\nOutcome: " + outcome + "\nSummary: ", request.goal, request.summary);
    ContainsMore(summary, request.goal, "\nVerification: ");
    ContainsMore(summary + "\nVerification: ", request.goal, checks);
    assert MentionsAt(db, at, Episode, request.goal);
    ContainsLast(goal + "\nOutcome: " + outcome + "\nSummary: ", request.summary);
    ContainsMore(summary, request.summary, "\nVerification: ");
    ContainsMore(summary + "\nVerification: ", request.summary, checks);
    assert MentionsAt(db, at, Episode, request.summary);
    forall i | 0 <= i < |lines| ensures Mentions(db, id, Episode, lines[i]) {
      JoinContains(lines, "; ", i);
      ContainsBehind(summary + "\nVerification: ", checks, lines[i]);
      assert MentionsAt(db, at, Episode, lines[i]);
    }
  }

  lemma ContainsBehind(before: string, text: string, part: string)
    requires Contains(text, part)
    ensures Contains(before + text, part)
  {
    var i :| 0 <= i <= |text| && part <= text[i..];
    assert (before + text)[|before| + i..] == text[i..];
  }

  lemma DecisionMentions(db: Db, request: CheckpointRequest, decision: CheckpointDecision, id: MemoryId,
      episode: MemoryId, event: EventId)
    requires DecisionTold(db, PLAIN, request, decision, id, episode, event)
    ensures Mentions(db, id, Decision, decision.summary)
    ensures decision.rationale.Some? ==> Mentions(db, id, Decision, decision.rationale.value)
  {
    hide Contains, Ranked, LinkedTo;
    var revision: nat :| DecisionToldAt(db, PLAIN, request, decision, RevisionId(id, revision), episode, event);
    var at := RevisionId(id, revision);
    ContainsLast("", decision.summary);
    assert "" + decision.summary == decision.summary;
    if decision.rationale.Some? {
      ContainsMore(decision.summary, decision.summary, "\nRationale: " + decision.rationale.value);
      Joined(decision.summary, "\nRationale: ", decision.rationale.value);
      ContainsLast(decision.summary + "\nRationale: ", decision.rationale.value);
      assert MentionsAt(db, at, Decision, decision.rationale.value);
    }
    assert MentionsAt(db, at, Decision, decision.summary);
  }

  lemma AttemptMentions(db: Db, request: CheckpointRequest, attempt: CheckpointAttempt, id: MemoryId,
      episode: MemoryId, event: EventId)
    requires AttemptTold(db, PLAIN, request, attempt, id, episode, event)
    ensures Mentions(db, id, Outcome, attempt.action) && Mentions(db, id, Outcome, attempt.result)
  {
    hide Contains, Ranked, LinkedTo;
    var revision: nat :| AttemptToldAt(db, PLAIN, request, attempt, RevisionId(id, revision), episode, event);
    var at := RevisionId(id, revision);
    var action := "Attempt: " + attempt.action;
    var text := action + "\nResult: " + attempt.result;
    var ending := if attempt.succeeded then "\nSucceeded: true" else "\nSucceeded: false";
    assert db.revisions[at].body == text + ending;
    ContainsLast("Attempt: ", attempt.action);
    ContainsMore(action, attempt.action, "\nResult: ");
    ContainsMore(action + "\nResult: ", attempt.action, attempt.result);
    ContainsMore(text, attempt.action, ending);
    assert MentionsAt(db, at, Outcome, attempt.action);
    ContainsLast(action + "\nResult: ", attempt.result);
    ContainsMore(text, attempt.result, ending);
    assert MentionsAt(db, at, Outcome, attempt.result);
  }

  lemma TaskMentions(
    db: Db, request: CheckpointRequest, task: string, id: MemoryId, episode: MemoryId, event: EventId)
    requires TaskTold(db, PLAIN, request, task, id, episode, event)
    ensures Mentions(db, id, Task, task)
  {
    hide Contains, Ranked, LinkedTo;
    var revision: nat :| TaskToldAt(db, PLAIN, request, task, RevisionId(id, revision), episode, event);
    ContainsLast("", task);
    assert "" + task == task;
    assert MentionsAt(db, RevisionId(id, revision), Task, task);
  }

  // Nothing an accepted checkpoint was told is lost: each text is mentioned by
  // the memory that stands for it in the receipt.
  lemma EverythingIsMentioned(
    db: Db, request: CheckpointRequest, event: EventId, draws: nat -> MemoryId, reply: Reply)
    requires Inv(db) && reply == CheckpointStep(db, PLAIN, request, event, draws) && reply.db != db
    ensures reply.result.Ok?
    ensures var ids, d, a := reply.result.value.memoryIds, |request.decisions|, |request.attempts|;
            && |ids| == 1 + d + a + |request.openTasks|
            && Mentions(reply.db, ids[0], Episode, request.goal) && Mentions(reply.db, ids[0], Episode, request.summary)
            && (forall i | 0 <= i < |request.verification| ::
                  Mentions(reply.db, ids[0], Episode, request.verification[i]))
            && (forall i | 0 <= i < d ::
                  && Mentions(reply.db, ids[1 + i], Decision, request.decisions[i].summary)
                  && (request.decisions[i].rationale.Some? ==>
                        Mentions(reply.db, ids[1 + i], Decision, request.decisions[i].rationale.value)))
            && (forall i | 0 <= i < a ::
                  && Mentions(reply.db, ids[1 + d + i], Outcome, request.attempts[i].action)
                  && Mentions(reply.db, ids[1 + d + i], Outcome, request.attempts[i].result))
            && (forall i | 0 <= i < |request.openTasks| ::
                  Mentions(reply.db, ids[1 + d + a + i], Task, request.openTasks[i]))
  {
    hide Inv, CheckpointStep, EpisodeTold, DecisionTold, AttemptTold, TaskTold, Mentions;
    CheckpointText(db, PLAIN, request, event, draws, reply);
    var ids, d, a := reply.result.value.memoryIds, |request.decisions|, |request.attempts|;
    EpisodeMentions(reply.db, request, ids[0]);
    forall i | 0 <= i < d
      ensures Mentions(reply.db, ids[1 + i], Decision, request.decisions[i].summary)
      ensures request.decisions[i].rationale.Some? ==>
                Mentions(reply.db, ids[1 + i], Decision, request.decisions[i].rationale.value)
    {
      DecisionMentions(reply.db, request, request.decisions[i], ids[1 + i], ids[0], event);
    }
    forall i | 0 <= i < a
      ensures Mentions(reply.db, ids[1 + d + i], Outcome, request.attempts[i].action)
      ensures Mentions(reply.db, ids[1 + d + i], Outcome, request.attempts[i].result)
    {
      AttemptMentions(reply.db, request, request.attempts[i], ids[1 + d + i], ids[0], event);
    }
    forall i | 0 <= i < |request.openTasks|
      ensures Mentions(reply.db, ids[1 + d + a + i], Task, request.openTasks[i])
    {
      TaskMentions(reply.db, request, request.openTasks[i], ids[1 + d + a + i], ids[0], event);
    }
  }

  // --- what every member cites ------------------------------------------

  // A revision of this event with these tags and the checkpoint's artifacts and evidence.
  ghost predicate Carries(db: Db, id: MemoryId, tags: seq<string>, request: CheckpointRequest, event: EventId) {
    exists revision: nat :: CarriesAt(db, RevisionId(id, revision), tags, request, event)
  }

  ghost predicate CarriesAt(db: Db, at: RevisionId, tags: seq<string>, request: CheckpointRequest, event: EventId) {
    && at in db.revisions && at in db.attachments && db.revisions[at].recordedSeq == |db.events|
    && TagsTold(PLAIN, tags, db.attachments[at].tags)
    && (forall entity :: entity !in db.attachments[at].entities)
    && ArtifactsTold(PLAIN, request.artifacts, db.attachments[at].artifacts)
    && EvidenceTold(request.evidence, event, db.attachments[at].evidence)
  }

  lemma PlainArtifacts(artifacts: seq<ArtifactRef>)
    ensures RedactArtifacts(PLAIN, artifacts) == artifacts
  {
  }

  lemma PlainFields(request: CheckpointRequest)
    ensures var safe := RedactCheckpoint(PLAIN, request);
            && safe.artifacts == request.artifacts && safe.tags == request.tags
            && safe.evidence == TrimEvidence(request.evidence)
  {
    hide Trim;
    PlainArtifacts(request.artifacts);
    assert RedactCheckpoint(PLAIN, request).artifacts == RedactArtifacts(PLAIN, request.artifacts);
    assert RedactAll(PLAIN, request.tags) == request.tags;
  }

  lemma TrimmedIsTold(evidence: seq<Evidence>, event: EventId, stored: seq<Evidence>)
    requires EvidenceTold(TrimEvidence(evidence), event, stored)
    ensures EvidenceTold(evidence, event, stored)
  {
    hide Trim;
    var trimmed := TrimEvidence(evidence);
    forall i | 0 <= i < |evidence| ensures Trim(trimmed[i].relation) == Trim(evidence[i].relation) {
      CheckpointAcceptance.TrimTwice(evidence[i].relation);
    }
    assert forall i | 0 <= i < |evidence| ::
        FirstCitation(trimmed, i, event) == FirstCitation(evidence, i, event);
  }

  lemma RecordedCarries(
    db: Db, request: CheckpointRequest, member: MemoryRequest, id: MemoryId, event: EventId)
    requires Recorded(db, id, PrepareMemory(PLAIN, member), event)
    requires var safe := RedactCheckpoint(PLAIN, request);
             member.artifacts == safe.artifacts && member.evidence == safe.evidence && member.entities == []
    ensures Carries(db, id, member.tags, request, event)
  {
    hide Stored, StoreAll, Trim, TagsTold, ArtifactsTold, EvidenceTold, LinkRows, RedactArtifact;
    var prepared := PrepareMemory(PLAIN, member);
    var revision :| RecordedAt(db, RevisionId(id, revision), prepared, event);
    StoredIsTold(PLAIN, member, event);
    PlainFields(request);
    var stored := db.attachments[RevisionId(id, revision)];
    TrimmedIsTold(request.evidence, event, stored.evidence);
    assert CarriesAt(db, RevisionId(id, revision), member.tags, request, event);
  }

  // Every memory of a checkpoint carries its artifacts and evidence, and the
  // episode carries its tags.
  lemma EverythingIsCited(
    db: Db, request: CheckpointRequest, event: EventId, draws: nat -> MemoryId, reply: Reply)
    requires Inv(db) && reply == CheckpointStep(db, PLAIN, request, event, draws) && reply.db != db
    ensures reply.result.Ok?
    ensures var ids := reply.result.value.memoryIds;
            && |ids| > 0 && Carries(reply.db, ids[0], request.tags, request, event)
            && forall j | 0 < j < |ids| :: Carries(reply.db, ids[j], [], request, event)
  {
    hide Inv, CheckpointStep, RedactCheckpoint, PrepareMemory, EpisodeRequest, DecisionRequest, AttemptRequest,
      TaskRequest, Recorded, GetIdempotent, CheckpointFingerprintOf, CheckpointWrites, Scope.Durable, Carries;
    CommittedCheckpoint(db, PLAIN, request, event, draws);
    CheckpointRecordsEverything(db, PLAIN, request, event, draws);
    PlainFields(request);
    var safe, ids := RedactCheckpoint(PLAIN, request), reply.result.value.memoryIds;
    var d, a := |safe.decisions|, |safe.attempts|;
    MemberAttachments(safe, ids[0]);
    RecordedCarries(reply.db, request, EpisodeRequest(safe), ids[0], event);
    forall j | 0 < j < |ids| ensures Carries(reply.db, ids[j], [], request, event) {
      var member :=
        if j <= d then DecisionRequest(safe, safe.decisions[j - 1], ids[0])
        else if j <= d + a then AttemptRequest(safe, safe.attempts[j - 1 - d], ids[0])
        else TaskRequest(safe, safe.openTasks[j - 1 - d - a], ids[0]);
      assert Recorded(reply.db, ids[j], PrepareMemory(PLAIN, member), event);
      RecordedCarries(reply.db, request, member, ids[j], event);
    }
  }

  lemma MemberAttachments(safe: CheckpointRequest, episode: MemoryId)
    ensures var member := EpisodeRequest(safe);
            && member.artifacts == safe.artifacts && member.evidence == safe.evidence && member.entities == []
            && member.tags == safe.tags
    ensures forall decision :: var member := DecisionRequest(safe, decision, episode);
              && member.artifacts == safe.artifacts && member.evidence == safe.evidence && member.entities == []
              && member.tags == []
    ensures forall attempt :: var member := AttemptRequest(safe, attempt, episode);
              && member.artifacts == safe.artifacts && member.evidence == safe.evidence && member.entities == []
              && member.tags == []
    ensures forall task :: var member := TaskRequest(safe, task, episode);
              && member.artifacts == safe.artifacts && member.evidence == safe.evidence && member.entities == []
              && member.tags == []
  {
  }
}
