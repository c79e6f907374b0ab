// A concrete run in which explicit identifiers let two live failures share the
// key of an automatic attempt, and a contest makes the retry of a session
// checkpoint prefer the other one: the identical retry is refused.
module SharedKeyExample {
  import opened Basics
  import opened Domain
  import opened Strings
  import opened Database
  import opened Ledger
  import opened Extension
  import opened TimeTravel
  import opened CheckpointSession
  import opened SessionRetry
  import opened CheckpointAcceptance
  import opened CheckpointLimits
  import AttemptCoalescing
  import AttemptKeys
  import Text

  const PLACE: Scope := Scope("n", None, None, None)
  const NEUTRAL: Ranking := Ranking(50, 50, 0, None, None, None)
  const HERE: Scope := Scope("n", None, Some("s"), None)

  // The key of an attempt that runs the command `x`.
  const KEY: string := AttemptKeys.CanonicalKey("command:x")

  // The command fails in the session.
  const FAILED: ObserveRequest :=
    ObserveRequest(None, Some(104), CommandResult, HERE, "boom",
        NO_ATTRIBUTES.(command := Some("x"), exitCode := Some(2)))

  const LOGGED: Event := Event(104, CommandResult, HERE, "boom", FAILED.attributes)

  const REQUEST: CheckpointRequest :=
    CheckpointRequest(Some("retry-key"), HERE, "goal", "summary", FailureOutcome, [], [], [], [], [], [], 0, [])

  const DRAWS: nat -> MemoryId := i => 200 + i

  function Attempt(id: MemoryId, key: Option<string>, result: string, links: seq<LinkInput>): MemoryRequest {
    MemoryRequest(Some(id), PLACE, Outcome, key, "t", "b", NEUTRAL,
                  NO_ATTRIBUTES.(succeeded := Some(false), attemptResult := Some(result)), [], [], [], [], links)
  }

  const CONTEST: seq<LinkInput> := [LinkInput(1, "contests", 1)]

  // Two memories under one key, a third that contests the first, and a session
  // in which the command fails again.
  const STORY: seq<Op> := [
    RememberOp(RememberRequest(None, Attempt(1, Some(KEY), "one", [])), 101, 0),
    RememberOp(RememberRequest(None, Attempt(2, Some(KEY), "two", [])), 102, 0),
    RememberOp(RememberRequest(None, Attempt(3, None, "three", CONTEST)), 103, 0),
    ObserveOp(FAILED, 0)]

  lemma PlainPreparation(id: MemoryId, key: Option<string>, result: string, links: seq<LinkInput>)
    requires links == [] || links == CONTEST
    ensures PrepareMemory(PLAIN, Attempt(id, key, result, links)) == Attempt(id, key, result, links)
  {
    assert Trim("contests") == "contests";
    var prepared := PrepareMemory(PLAIN, Attempt(id, key, result, links));
    assert prepared.links == links;
    assert prepared.tags == [] && prepared.entities == [] && prepared.artifacts == [] && prepared.evidence == [];
  }

  // Remembering an attempt under an unused identifier simply writes it.
  lemma RememberAttempt(db: Db, id: MemoryId, key: Option<string>, result: string, links: seq<LinkInput>,
      event: EventId)
    requires id !in db.heads && !HasEvent(db, event)
    requires links == [] || (links == CONTEST && 1 in db.heads && id != 1 && db.heads[1].durable == PLACE.Durable())
    ensures var request := Attempt(id, key, result, links);
            var entry := Event(event, ExplicitMemory, PLACE, "b", request.attributes);
            Apply(db, PLAIN, RememberOp(RememberRequest(None, request), event, 0))
              == Written(Logged(db, entry), id, request, event)
  {
    hide Written, PrepareMemory, HasEvent, RememberFingerprintOf, Effect;
    PlainPreparation(id, key, result, links);
    var request := Attempt(id, key, result, links);
    var logged := Logged(db, Event(event, ExplicitMemory, PLACE, "b", request.attributes));
    assert ValidateEvidence(db, [], PLACE) == Ok(()) && ValidateEvidence(logged, [], PLACE) == Ok(());
    LinksAccepted(db, links, id);
    LinksAccepted(logged, links, id);
  }

  lemma LinksAccepted(db: Db, links: seq<LinkInput>, id: MemoryId)
    requires links == [] || (links == CONTEST && 1 in db.heads && id != 1 && db.heads[1].durable == PLACE.Durable())
    ensures ValidateLinks(db, links, PLACE) == Ok(()) && CheckLinks(links, id, |links|) == Ok(())
  {
    if links == CONTEST {
      assert ValidRelation("contests") by {
        assert Trim("contests") == "contests";
        Text.AsciiBytes("contests");
      }
      assert links[1..] == [];
      assert CheckLinks(links, id, 0) == Ok(());
    }
  }

  lemma QuietWrite(db: Db, id: MemoryId, key: Option<string>, result: string, event: EventId)
    requires id !in db.heads
    ensures var request := Attempt(id, key, result, []);
            var after := Written(db, id, request, event);
            && after.heads == db.heads[id := Head(PLACE.Durable(), Outcome, Active, key, 1, NEUTRAL, |db.events|,
                  |db.events|)]
            && after.revisions == db.revisions[RevisionId(id, 1) :=
                 Revision("t", "b", request.attributes, PLACE, |db.events|)]
            && after.events == db.events && after.idempotency == db.idempotency
  {
    var request := Attempt(id, key, result, []);
    var after := Written(db, id, request, event);
    assert forall m :: !Affects([], m, Supersedes) && !Affects([], m, Contests);
    assert after.heads == db.heads[id := RevisedHead(db, id, request)];
  }

  lemma ContestWrite(db: Db, event: EventId)
    requires 3 !in db.heads && 1 in db.heads && 2 in db.heads && db.heads[1].state == Active
    ensures var request := Attempt(3, None, "three", CONTEST);
            var after := Written(db, 3, request, event);
            && after.heads.Keys == db.heads.Keys + {3}
            && after.heads[1] == db.heads[1].(state := Contested, updatedSeq := |db.events|)
            && after.heads[2] == db.heads[2] && after.heads[3].key == None
            && after.revisions == db.revisions[RevisionId(3, 1) :=
                 Revision("t", "b", request.attributes, PLACE, |db.events|)]
            && after.events == db.events && after.idempotency == db.idempotency
  {
    hide Scope.Durable, LinkRows, TargetAssociations;
    var links := CONTEST;
    assert Effect("contests") == Contests by { assert AsciiLower("contests") == "contests"; }
    assert links[0].target == 1 && Effect(links[0].relation) == Contests;
    assert Affects(links, 1, Contests) && !Affects(links, 1, Supersedes);
    assert !Affects(links, 2, Contests) && !Affects(links, 2, Supersedes);
  }

  lemma AfterOne() returns (db: Db)
    ensures db == Run(EMPTY, PLAIN, STORY[..1])
    ensures |db.events| == 1 && db.events[0].id == 101 && db.events[0].scope == PLACE && db.idempotency == map[]
    ensures db.heads == map[1 := Head(PLACE.Durable(), Outcome, Active, Some(KEY), 1, NEUTRAL, 1, 1)]
    ensures db.revisions == map[RevisionId(1, 1) :=
              Revision("t", "b", Attempt(1, Some(KEY), "one", []).attributes, PLACE, 1)]
  {
    hide Apply, Written, Scope.Durable, AttemptKeys.CanonicalKey;
    var one := Attempt(1, Some(KEY), "one", []);
    var logged := Logged(EMPTY, Event(101, ExplicitMemory, PLACE, "b", one.attributes));
    RememberAttempt(EMPTY, 1, Some(KEY), "one", [], 101);
    QuietWrite(logged, 1, Some(KEY), "one", 101);
    db := Run(EMPTY, PLAIN, STORY[..1]);
    RunStep(EMPTY, PLAIN, [], STORY[0]);
    assert STORY[..1] == [] + [STORY[0]];
  }

  lemma AfterTwo() returns (db: Db)
    ensures db == Run(EMPTY, PLAIN, STORY[..2])
    ensures |db.events| == 2 && !HasEvent(db, 103) && db.idempotency == map[]
    ensures forall i | 0 <= i < 2 :: db.events[i].scope == PLACE && db.events[i].id < 103
    ensures db.heads == map[
              1 := Head(PLACE.Durable(), Outcome, Active, Some(KEY), 1, NEUTRAL, 1, 1),
              2 := Head(PLACE.Durable(), Outcome, Active, Some(KEY), 1, NEUTRAL, 2, 2)]
    ensures db.revisions.Keys == {RevisionId(1, 1), RevisionId(2, 1)}
    ensures db.revisions[RevisionId(1, 1)].recordedSeq == 1 && db.revisions[RevisionId(2, 1)].recordedSeq == 2
    ensures db.revisions[RevisionId(1, 1)].attributes == Attempt(1, Some(KEY), "one", []).attributes
    ensures db.revisions[RevisionId(2, 1)].attributes == Attempt(2, Some(KEY), "two", []).attributes
  {
    hide Apply, Written, Scope.Durable, SeqOf, AttemptKeys.CanonicalKey;
    var before := AfterOne();
    var two := Attempt(2, Some(KEY), "two", []);
    var logged := Logged(before, Event(102, ExplicitMemory, PLACE, "b", two.attributes));
    UnusedId(before.events, 102);
    RememberAttempt(before, 2, Some(KEY), "two", [], 102);
    QuietWrite(logged, 2, Some(KEY), "two", 102);
    db := Run(EMPTY, PLAIN, STORY[..2]);
    RunStep(EMPTY, PLAIN, STORY[..1], STORY[1]);
    assert STORY[..2] == STORY[..1] + [STORY[1]];
    UnusedId(db.events, 103);
  }

  lemma AfterThree() returns (db: Db)
    ensures db == Run(EMPTY, PLAIN, STORY[..3])
    ensures |db.events| == 3 && db.idempotency == map[]
    ensures forall i | 0 <= i < 3 :: db.events[i].scope == PLACE && db.events[i].id < 104
    ensures db.heads.Keys == {1, 2, 3} && db.heads[3].key == None
    ensures db.heads[1] == Head(PLACE.Durable(), Outcome, Contested, Some(KEY), 1, NEUTRAL, 1, 3)
    ensures db.heads[2] == Head(PLACE.Durable(), Outcome, Active, Some(KEY), 1, NEUTRAL, 2, 2)
    ensures db.revisions.Keys == {RevisionId(1, 1), RevisionId(2, 1), RevisionId(3, 1)}
    ensures db.revisions[RevisionId(1, 1)].recordedSeq == 1 && db.revisions[RevisionId(2, 1)].recordedSeq == 2
    ensures db.revisions[RevisionId(1, 1)].attributes == Attempt(1, Some(KEY), "one", []).attributes
    ensures db.revisions[RevisionId(2, 1)].attributes == Attempt(2, Some(KEY), "two", []).attributes
  {
    hide Apply, Written, Scope.Durable, HasEvent, AttemptKeys.CanonicalKey;
    var before := AfterTwo();
    var three := Attempt(3, None, "three", CONTEST);
    var logged := Logged(before, Event(103, ExplicitMemory, PLACE, "b", three.attributes));
    RememberAttempt(before, 3, None, "three", CONTEST, 103);
    ContestWrite(logged, 103);
    db := Run(EMPTY, PLAIN, STORY[..3]);
    RunStep(EMPTY, PLAIN, STORY[..2], STORY[2]);
    assert STORY[..3] == STORY[..2] + [STORY[2]];
    assert db == Written(logged, 3, three, 103);
  }

  lemma ObserveFailure(db: Db)
    requires !HasEvent(db, 104)
    ensures Apply(db, PLAIN, ObserveOp(FAILED, 0)) == Logged(db, LOGGED)
  {
    hide HasEvent;
  }

  lemma UnusedId(events: seq<Event>, id: EventId)
    requires forall i | 0 <= i < |events| :: events[i].id != id
    ensures SeqOf(events, id) == 0
  {
  }

  lemma AfterFour() returns (db: Db)
    ensures db == Run(EMPTY, PLAIN, STORY) && TwoUnderOneKey(db)
    ensures StoryLog(db)
  {
    hide Apply, Written, Scope.Durable, SeqOf;
    var before := AfterThree();
    UnusedId(before.events, 104);
    ObserveFailure(before);
    db := Run(EMPTY, PLAIN, STORY);
    RunStep(EMPTY, PLAIN, STORY[..3], STORY[3]);
    assert STORY == STORY[..3] + [STORY[3]];
  }

  // What the retry needs to know of the log.
  ghost predicate StoryLog(db: Db) {
    && |db.events| == 4 && db.events[3] == LOGGED && db.idempotency == map[]
    && forall i | 0 <= i < 3 :: db.events[i].scope == PLACE && db.events[i].id < 104
  }

  // What the disagreement needs to know of the tables.
  ghost predicate TwoUnderOneKey(db: Db) {
    && db.heads.Keys == {1, 2, 3} && db.heads[3].key == None
    && db.heads[1] == Head(PLACE.Durable(), Outcome, Contested, Some(KEY), 1, NEUTRAL, 1, 3)
    && db.heads[2] == Head(PLACE.Durable(), Outcome, Active, Some(KEY), 1, NEUTRAL, 2, 2)
    && db.revisions.Keys == {RevisionId(1, 1), RevisionId(2, 1), RevisionId(3, 1)}
    && db.revisions[RevisionId(1, 1)].recordedSeq == 1 && db.revisions[RevisionId(2, 1)].recordedSeq == 2
    && db.revisions[RevisionId(1, 1)].attributes == Attempt(1, Some(KEY), "one", []).attributes
    && db.revisions[RevisionId(2, 1)].attributes == Attempt(2, Some(KEY), "two", []).attributes
  }

  lemma BothRows(db: Db)
    requires TwoUnderOneKey(db)
    ensures LiveKeyed(db, PLACE.Durable(), KEY) == {RevisionId(1, 1), RevisionId(2, 1)}
    ensures ResultText(db.revisions[RevisionId(1, 1)]) == "one" && ResultText(db.revisions[RevisionId(2, 1)]) == "two"
    ensures !UniqueLive(db)
  {
    hide Scope.Durable;
    assert Live(db.heads[1].state) && Live(db.heads[2].state);
  }

  lemma LiveChoice(db: Db)
    requires TwoUnderOneKey(db)
    ensures LiveResult(db, PLACE.Durable(), KEY) == Some("one")
  {
    hide Scope.Durable, LiveKeyed, ResultText;
    var a, b := RevisionId(1, 1), RevisionId(2, 1);
    BothRows(db);
    assert IsFirst(LiveRank(db), a, {a, b});
    FirstUnique(LiveRank(db), a, First(LiveRank(db), {a, b}), {a, b});
  }

  lemma RecordedChoice(db: Db)
    requires TwoUnderOneKey(db)
    ensures RecordedResult(db, PLACE.Durable(), KEY) == Some("two")
  {
    hide Scope.Durable, LiveKeyed, ResultText;
    var a, b := RevisionId(1, 1), RevisionId(2, 1);
    BothRows(db);
    assert IsFirst(HistoricalRank(db), b, {a, b});
    FirstUnique(HistoricalRank(db), b, First(HistoricalRank(db), {a, b}), {a, b});
  }

  // --- the session ------------------------------------------------------

  lemma {:induction false} NoSessionRows(events: seq<Event>, limit: nat)
    requires forall i | 0 <= i < |events| :: events[i].scope == PLACE
    ensures SessionRows(events, HERE, "s", limit) == []
  {
    if limit > 0 && events != [] { NoSessionRows(events[..|events| - 1], limit); }
  }

  lemma SessionSlice(db: Db)
    requires StoryLog(db)
    ensures Ambient(db.events, HERE, "s") == [LOGGED]
  {
    NoSessionRows(db.events[..3], SESSION_LIMIT - 1);
    assert InSession(LOGGED, HERE, "s");
    var rows := SessionRows(db.events, HERE, "s", SESSION_LIMIT);
    assert rows == [LOGGED];
    assert CutAtPrompt(rows) == [LOGGED] by { assert rows[1..] == []; }
    assert Reversed([LOGGED]) == [LOGGED] by { assert [LOGGED][1..] == []; }
  }

  lemma FailureIsAttempt()
    ensures ClassifyEvent(LOGGED) == Some(AttemptCoalescing.FailedExecution)
    ensures AttemptOf(LOGGED).identity == "command:x"
    ensures !IsUserPrompt(LOGGED)
  {
    hide Text.TruncateToTokens;
    assert Trim("x") == "x";
  }

  // What the session adds to the request: the failing command as evidence and
  // as an attempt under the shared key.
  lemma SessionGathered(db: Db)
    requires Ambient(db.events, HERE, "s") == [LOGGED]
    ensures var g := Gathered(REQUEST, db.events, "s");
            && AttemptCoalescing.AutomaticKeys(g.attempts) == {KEY}
            && g.evidence == [Evidence(104, "command_evidence")]
  {
    hide ClassifyEvent, AttemptOf, IsUserPrompt, Ambient, AttemptKeys.CanonicalKey;
    FailureIsAttempt();
    var g := Gathered(REQUEST, db.events, "s");
    assert [LOGGED][..0] == [];
    assert Gather(Start(REQUEST), []) == Start(REQUEST);
    assert g == GatherEvent(Start(REQUEST), LOGGED);
    assert g.attempts == [AttemptOf(LOGGED)];
    OneKey(g.attempts);
  }

  lemma OneKey(attempts: seq<AttemptCoalescing.AutomaticAttempt>)
    requires |attempts| == 1 && attempts[0].identity == "command:x"
    ensures AttemptCoalescing.AutomaticKeys(attempts) == {KEY}
  {
    hide AttemptKeys.CanonicalKey;
    assert AttemptKeys.CanonicalKey(attempts[0].identity) in AttemptCoalescing.AutomaticKeys(attempts);
  }

  lemma EvidenceAccepted(db: Db, evidence: seq<Evidence>)
    requires evidence == [Evidence(104, "command_evidence")]
    requires |db.events| == 4 && db.events[3] == LOGGED
    ensures ValidateEvidence(db, evidence, HERE) == Ok(())
  {
    assert ValidRelation("command_evidence") by {
      assert Trim("command_evidence") == "command_evidence";
      Text.AsciiBytes("command_evidence");
    }
    assert SeqOf(db.events, 104) == 4;
    assert ValidateSource(db, evidence[0], HERE) == Ok(());
    assert evidence[1..] == [];
  }

  lemma PlainEvidence(request: CheckpointRequest)
    requires request.evidence == [Evidence(104, "command_evidence")]
    ensures RedactCheckpoint(PLAIN, request).evidence == request.evidence
  {
    assert Trim("command_evidence") == "command_evidence";
    var safe := RedactCheckpoint(PLAIN, request);
    assert |safe.evidence| == 1 && safe.evidence[0] == request.evidence[0];
  }

  lemma FreshDraws(db: Db)
    requires db.heads.Keys == {1, 2, 3}
    ensures forall n :: Drawable(db, DRAWS, n)
  {
  }

  // A request that cites the failing command is accepted.
  lemma CitingIsAccepted(db: Db, sent: CheckpointRequest)
    requires Inv(db) && TwoUnderOneKey(db) && StoryLog(db)
    requires CheckpointFits(sent) && sent.tags == [] && sent.scope == HERE
    requires sent.evidence == [Evidence(104, "command_evidence")]
    ensures CheckpointStep(db, PLAIN, sent, 105, DRAWS).result.Ok?
  {
    hide Inv, CheckpointStep, RedactCheckpoint, ValidateEvidence, SeqOf, Drawable, CheckpointFits;
    PlainEvidence(sent);
    EvidenceAccepted(db, sent.evidence);
    UnusedId(db.events, 105);
    FreshDraws(db);
    CheckpointIsAccepted(db, PLAIN, sent, 105, DRAWS);
  }

  lemma CheckpointAccepted(db: Db)
    requires Inv(db) && TwoUnderOneKey(db) && StoryLog(db)
    ensures Accepted(db, db, PLAIN, REQUEST, 105, DRAWS)
  {
    hide Inv, Ambient, Gathered, CheckpointStep, AttemptCoalescing.Coalesced, PreviousFailures,
      AttemptCoalescing.AutomaticKeys, Scope.Durable, SeqOf, CheckpointFits;
    SessionSlice(db);
    SessionGathered(db);
    RoomForSession(db);
    CitingIsAccepted(db, Enriched(db, REQUEST, "s", None));
  }

  lemma RoomForSession(db: Db)
    ensures CheckpointFits(Enriched(db, REQUEST, "s", None))
    ensures HasRoom(REQUEST, SESSION_LIMIT)
  {
    hide Gathered, PreviousFailures;
    var g := Gathered(REQUEST, db.events, "s");
    FilledFits(REQUEST, db.events, "s", PreviousFailures(db, HERE, AttemptCoalescing.AutomaticKeys(g.attempts), None));
  }

  // Nothing is interleaved, the store is reachable, and yet repeating the very
  // same request is refused: after the contest the live lookup reports one
  // failure of the command and the historical lookup the other.
  lemma IdenticalRetryConflicts()
    ensures var db := Run(EMPTY, PLAIN, STORY);
            var first := CheckpointSessionStep(db, db, PLAIN, REQUEST, 105, DRAWS);
            && Reachable(db, PLAIN) && !UniqueLive(db)
            && LiveResult(db, HERE.Durable(), KEY) == Some("one")
            && RecordedResult(db, HERE.Durable(), KEY) == Some("two")
            && first.result.Ok?
            && CheckpointSessionStep(first.db, first.db, PLAIN, REQUEST, 106, DRAWS) == Refuse(first.db, Conflict)
  {
    hide Run, Inv, UniqueLive, LiveResult, RecordedResult, Ambient, Gathered, CheckpointSessionStep, Faithful,
      Reordered, AttemptCoalescing.AutomaticKeys, SameRequest;
    var db := AfterFour();
    ReachableInv(db, PLAIN);
    BothRows(db);
    LiveChoice(db);
    RecordedChoice(db);
    ReorderedIff(db, PLACE.Durable(), KEY);
    SessionSlice(db);
    SessionGathered(db);
    assert KEY in AttemptCoalescing.AutomaticKeys(Gathered(REQUEST, db.events, "s").attempts);
    assert !Settled(db, REQUEST);
    CheckpointAccepted(db);
    PlainIsFaithful();
    SameRequestReflexive(REQUEST);
    var first := CheckpointSessionStep(db, db, PLAIN, REQUEST, 105, DRAWS);
    RetryConverges(db, PLAIN, REQUEST, REQUEST, [], [], 105, DRAWS, 106, DRAWS);
    NothingRun(first.db);
    RoomForSession(db);
    RoomyRetry(first.db, db, REQUEST, false, first.result.value);
  }

  lemma NothingRun(db: Db)
    ensures Run(db, PLAIN, []) == db
  {
  }
}
