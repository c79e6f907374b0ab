// Where everything recorded comes from: evidence and links never leave the scope
// of the memory they belong to, over runs.
module Provenance {
  import opened Basics
  import opened Domain
  import opened Database
  import opened AttachmentTables
  import opened Ledger
  import opened Extension
  import opened LinkLedger
  import SearchIndex

  // The source was logged, in this scope, by the time `recorded`.
  predicate Cites(events: seq<Event>, source: Evidence, durable: DurableScope, recorded: nat) {
    var n := SeqOf(events, source.event);
    0 < n <= recorded && events[n - 1].scope.Durable() == durable
  }

  ghost predicate EvidenceGrounded(db: Db) {
    forall at, source | at in db.attachments && at in db.revisions && source in db.attachments[at].evidence ::
      Cites(db.events, source, db.revisions[at].scope.Durable(), db.revisions[at].recordedSeq)
  }

  // The primary keys of the tag and evidence tables.
  ghost predicate AttachmentsKeyed(db: Db) {
    forall at | at in db.attachments ::
      Ascending(db.attachments[at].tags, TagBefore) && Ascending(db.attachments[at].evidence, EvidenceBefore)
  }

  ghost predicate LinksInScope(db: Db) {
    forall row | row in db.links ::
      && row.source in db.heads && row.target in db.heads
      && db.heads[row.source].durable == db.heads[row.target].durable
  }

  ghost predicate CreationRecorded(db: Db) {
    forall id | id in db.heads :: 1 <= db.heads[id].createdSeq <= |db.events|
  }

  ghost predicate Traceable(db: Db) {
    EvidenceGrounded(db) && AttachmentsKeyed(db) && LinksInScope(db) && CreationRecorded(db)
  }

  // --- steps that record nothing ----------------------------------------

  lemma CitationPersists(s: seq<Event>, t: seq<Event>, source: Evidence, durable: DurableScope, recorded: nat)
    requires s <= t && Cites(s, source, durable, recorded)
    requires forall i, j | 0 <= i < j < |t| :: t[i].id != t[j].id
    ensures Cites(t, source, durable, recorded)
  {
    hide SeqOf, Scope.Durable;
    SeqOfPersists(s, t, source.event);
  }

  lemma QuietStepKeeps(db: Db, after: Db)
    requires EventsDistinct(after) && Extends(db, after) && Traceable(db) && SameRecords(db, after)
    ensures Traceable(after)
  {
    hide Cites, Scope.Durable, RevisionsGrow, LedgersGrow, ReceiptsPersist, Ascending;
    forall at, source | at in after.attachments && at in after.revisions && source in after.attachments[at].evidence
      ensures Cites(after.events, source, after.revisions[at].scope.Durable(), after.revisions[at].recordedSeq)
    {
      CitationPersists(
        db.events, after.events, source, db.revisions[at].scope.Durable(), db.revisions[at].recordedSeq);
    }
  }

  // --- one memory write -------------------------------------------------

  // The event a write belongs to is the last one, logged in the request's scope.
  ghost predicate Current(db: Db, event: EventId, scope: Scope) {
    && EventsDistinct(db)
    && |db.events| > 0 && db.events[|db.events| - 1].id == event
    && db.events[|db.events| - 1].scope.Durable() == scope.Durable()
  }

  lemma CurrentSeq(db: Db, event: EventId, scope: Scope)
    requires Current(db, event, scope)
    ensures SeqOf(db.events, event) == |db.events|
  {
  }

  lemma {:induction false} ValidIsCited(db: Db, evidence: seq<Evidence>, scope: Scope)
    requires ValidateEvidence(db, evidence, scope).Ok?
    ensures forall i | 0 <= i < |evidence| :: Cites(db.events, evidence[i], scope.Durable(), |db.events|)
  {
    hide Scope.Durable, ValidRelation, ValidSpan;
    if evidence != [] {
      ValidIsCited(db, evidence[1..], scope);
      assert forall i | 1 <= i < |evidence| :: evidence[i] == evidence[1..][i - 1];
    }
  }

  lemma {:induction false} ValidStaysInScope(db: Db, links: seq<LinkInput>, scope: Scope)
    requires ValidateLinks(db, links, scope).Ok?
    ensures forall i | 0 <= i < |links| ::
              links[i].target in db.heads && db.heads[links[i].target].durable == scope.Durable()
  {
    hide Scope.Durable, ValidRelation;
    if links != [] {
      ValidStaysInScope(db, links[1..], scope);
      assert forall i | 1 <= i < |links| :: links[i] == links[1..][i - 1];
    }
  }

  lemma AcceptedParts(db: Db, request: MemoryRequest, event: EventId, generated: MemoryId)
    requires Upsert(db, request, event, generated).Ok?
    ensures ValidateEvidence(db, request.evidence, request.scope).Ok?
    ensures ValidateLinks(db, request.links, request.scope).Ok?
    ensures var upserted := Upsert(db, request, event, generated).value;
            && upserted.db == Written(db, upserted.id, request, event)
            && (upserted.id in db.heads ==> db.heads[upserted.id].durable == request.scope.Durable())
  {
    hide Written, CheckLinks, ValidateEvidence, ValidateLinks, Scope.Durable, Candidates;
  }

  lemma NewAttachments(db: Db, id: MemoryId, request: MemoryRequest, event: EventId)
    ensures Written(db, id, request, event).attachments
         == db.attachments[RevisionId(id, NextRevision(db, id)) :=
              Stored(request.tags, request.entities, request.artifacts, request.evidence, event)]
  {
    hide SettleAll, LinkRows, TargetAssociations, Scope.Durable, Stored;
  }

  // Everything a new revision cites was cited by the request or is its own event.
  lemma StoredIsCited(db: Db, request: MemoryRequest, event: EventId)
    requires Current(db, event, request.scope) && ValidateEvidence(db, request.evidence, request.scope).Ok?
    ensures var stored := Stored(request.tags, request.entities, request.artifacts, request.evidence, event);
            && Ascending(stored.tags, TagBefore) && Ascending(stored.evidence, EvidenceBefore)
            && forall source | source in stored.evidence ::
                 Cites(db.events, source, request.scope.Durable(), |db.events|)
  {
    hide Stored, Ascending, TagBefore, EvidenceBefore, Scope.Durable, ValidateEvidence, SeqOf;
    StoredAttachments(request.tags, request.entities, request.artifacts, request.evidence, event);
    ValidIsCited(db, request.evidence, request.scope);
    CurrentSeq(db, event, request.scope);
    assert Cites(db.events, DerivedFrom(event), request.scope.Durable(), |db.events|);
    var stored := Stored(request.tags, request.entities, request.artifacts, request.evidence, event);
    forall source | source in stored.evidence ensures Cites(db.events, source, request.scope.Durable(), |db.events|) {
      KeptIsGiven([DerivedFrom(event)] + request.evidence, source);
    }
  }

  lemma KeptIsGiven(evidence: seq<Evidence>, source: Evidence)
    requires Kept(evidence, source, EvidenceBefore)
    ensures source in evidence
  {
    hide EvidenceBefore;
  }

  lemma WriteKeepsEvidence(db: Db, id: MemoryId, request: MemoryRequest, event: EventId)
    requires Current(db, event, request.scope) && ValidateEvidence(db, request.evidence, request.scope).Ok?
    requires EvidenceGrounded(db) && AttachmentsKeyed(db)
    ensures var after := Written(db, id, request, event); EvidenceGrounded(after) && AttachmentsKeyed(after)
  {
    hide Written, Stored, Cites, Ascending, Scope.Durable, Current, ValidateEvidence, NextRevision;
    NewAttachments(db, id, request, event);
    WrittenRows(db, id, request, event);
    StoredIsCited(db, request, event);
  }

  lemma WriteKeepsLinkScope(db: Db, id: MemoryId, request: MemoryRequest, event: EventId)
    requires LinksInScope(db) && ValidateLinks(db, request.links, request.scope).Ok?
    requires id in db.heads ==> db.heads[id].durable == request.scope.Durable()
    ensures LinksInScope(Written(db, id, request, event))
  {
    hide Written, Scope.Durable, ValidateLinks, Settle, NextRevision, CapWeight;
    ValidStaysInScope(db, request.links, request.scope);
    WrittenLedgerRows(db, id, request, event);
    WrittenHeads(db, id, request, event);
    KindsSettled(db, id, request, event);
  }

  lemma WriteKeepsCreation(db: Db, id: MemoryId, request: MemoryRequest, event: EventId)
    requires CreationRecorded(db) && |db.events| > 0
    ensures CreationRecorded(Written(db, id, request, event))
  {
    hide Written, Settle, Scope.Durable;
    WrittenHeads(db, id, request, event);
    KindsSettled(db, id, request, event);
    WrittenRows(db, id, request, event);
    NewHeadCreation(db, id, request, event);
  }

  lemma NewHeadCreation(db: Db, id: MemoryId, request: MemoryRequest, event: EventId)
    ensures Written(db, id, request, event).heads[id].createdSeq
         == if id in db.heads then db.heads[id].createdSeq else |db.events|
  {
    hide Affects, AnyContests, Scope.Durable, LinkRows, TargetAssociations;
  }

  // What every write of a batch keeps: the tables and the current event.
  ghost predicate Traced(db: Db, event: EventId, scope: Scope) { Traceable(db) && Current(db, event, scope) }

  lemma UpsertKeepsTrace(db: Db, request: MemoryRequest, event: EventId, generated: MemoryId)
    requires Traced(db, event, request.scope) && Upsert(db, request, event, generated).Ok?
    ensures Traced(Upsert(db, request, event, generated).value.db, event, request.scope)
  {
    hide EvidenceGrounded, AttachmentsKeyed, LinksInScope, CreationRecorded, Upsert, Written, Scope.Durable,
      ValidateEvidence, ValidateLinks;
    AcceptedParts(db, request, event, generated);
    var id := Upsert(db, request, event, generated).value.id;
    WriteKeepsEvidence(db, id, request, event);
    WriteKeepsLinkScope(db, id, request, event);
    WriteKeepsCreation(db, id, request, event);
    WrittenRows(db, id, request, event);
  }

  lemma {:induction false} UpsertAllKeepsTrace(
    db: Db, redactor: Redactor, requests: seq<MemoryRequest>, event: EventId, draws: nat -> MemoryId, scope: Scope)
    requires Traced(db, event, scope)
    requires forall i | 0 <= i < |requests| :: requests[i].scope == scope
    requires UpsertAll(db, redactor, requests, event, draws).Ok?
    ensures Traced(UpsertAll(db, redactor, requests, event, draws).value.db, event, scope)
  {
    hide Traced, Upsert, PrepareMemory;
    if requests != [] {
      var n := |requests| - 1;
      UpsertAllKeepsTrace(db, redactor, requests[..n], event, draws, scope);
      var before := UpsertAll(db, redactor, requests[..n], event, draws).value.db;
      PreparationKeepsScope(redactor, requests[n]);
      UpsertKeepsTrace(before, PrepareMemory(redactor, requests[n]), event, draws(n + 1));
    }
  }

  lemma PreparationKeepsScope(redactor: Redactor, request: MemoryRequest)
    ensures PrepareMemory(redactor, request).scope == request.scope
  {
  }

  lemma LoggedIsTraced(db: Db, entry: Event)
    requires Inv(db) && Traceable(db) && !HasEvent(db, entry.id)
    ensures Traced(Logged(db, entry), entry.id, entry.scope)
  {
    hide Inv, Traceable, HasEvent, Extends, EventsDistinct, Scope.Durable;
    InsertEventKeepsInv(db, entry);
    NumberedInv(Logged(db, entry));
    LoggingExtends(db, entry);
    SameRecordsLogged(db, entry);
    QuietStepKeeps(db, Logged(db, entry));
  }

  lemma SameRecordsLogged(db: Db, entry: Event)
    ensures SameRecords(db, Logged(db, entry))
  {
  }

  lemma ReceiptAside(db: Db, after: Db)
    requires after == db.(idempotency := after.idempotency) && Traceable(db)
    ensures Traceable(after)
  {
    hide Cites, Ascending, Scope.Durable;
  }

  // --- operations -------------------------------------------------------

  lemma RememberKeepsProvenance(
    db: Db, redactor: Redactor, request: RememberRequest, event: EventId, generated: MemoryId)
    requires Inv(db) && Traceable(db)
    ensures Traceable(RememberStep(db, redactor, request, event, generated).db)
  {
    hide Inv, Traceable, GetIdempotent, HasEvent, ValidateEvidence, ValidateLinks, Upsert, PrepareMemory, Scope.Durable,
      Current, RememberFingerprintOf, MemoryFits;
    var prepared := PrepareMemory(redactor, request.memory);
    var entry := Event(event, ExplicitMemory, prepared.scope, prepared.body, prepared.attributes);
    if !HasEvent(db, event) {
      var logged := Logged(db, entry);
      LoggedIsTraced(db, entry);
      var written := Upsert(logged, prepared, event, generated);
      if written.Ok? {
        UpsertKeepsTrace(logged, prepared, event, generated);
        var after := RememberStep(db, redactor, request, event, generated).db;
        if after != db { ReceiptAside(written.value.db, after); }
      }
    }
  }

  lemma MembersInScope(safe: CheckpointRequest, episode: MemoryId)
    ensures EpisodeRequest(safe).scope == safe.scope
    ensures forall i | 0 <= i < |MemberRequests(safe, episode)| :: MemberRequests(safe, episode)[i].scope == safe.scope
  {
  }

  lemma CheckpointWritesKeepProvenance(
    db: Db, redactor: Redactor, safe: CheckpointRequest, event: EventId, draws: nat -> MemoryId)
    requires Inv(db) && Traceable(db) && CheckpointWrites(db, redactor, safe, event, draws).Ok?
    ensures Traceable(CheckpointWrites(db, redactor, safe, event, draws).value.db)
  {
    hide Inv, Traceable, HasEvent, ValidateEvidence, Upsert, UpsertAll, PrepareMemory, EpisodeRequest, MemberRequests,
      CheckpointAttributes, Current, MemoryFits;
    var entry := Event(event, Checkpoint, safe.scope, safe.summary, CheckpointAttributes(redactor, safe));
    var logged := Logged(db, entry);
    var first := PrepareMemory(redactor, EpisodeRequest(safe));
    var episode := Upsert(logged, first, event, draws(0)).value;
    LoggedIsTraced(db, entry);
    MembersInScope(safe, episode.id);
    PreparationKeepsScope(redactor, EpisodeRequest(safe));
    UpsertKeepsTrace(logged, first, event, draws(0));
    UpsertAllKeepsTrace(episode.db, redactor, MemberRequests(safe, episode.id), event, draws, safe.scope);
  }

  lemma CheckpointKeepsProvenance(
    db: Db, redactor: Redactor, request: CheckpointRequest, event: EventId, draws: nat -> MemoryId)
    requires Inv(db) && Traceable(db)
    ensures Traceable(CheckpointStep(db, redactor, request, event, draws).db)
  {
    hide Inv, Traceable, GetIdempotent, RedactCheckpoint, CheckpointWrites, CheckpointFingerprintOf, Scope.Durable,
      CheckpointFits;
    var safe := RedactCheckpoint(redactor, request);
    if CheckpointWrites(db, redactor, safe, event, draws).Ok? {
      CheckpointWritesKeepProvenance(db, redactor, safe, event, draws);
      var after := CheckpointStep(db, redactor, request, event, draws).db;
      if after != db { ReceiptAside(CheckpointWrites(db, redactor, safe, event, draws).value.db, after); }
    }
  }

  lemma ApplyKeepsProvenance(db: Db, redactor: Redactor, op: Op)
    requires Inv(db) && Traceable(db)
    ensures Traceable(Apply(db, redactor, op))
  {
    hide Inv, Traceable, ObserveStep, RetractStep, RememberStep, CheckpointStep, Extends, SameRecords, EventsDistinct;
    ApplyKeeps(db, redactor, op);
    NumberedInv(Apply(db, redactor, op));
    match op {
      case RememberOp(request, event, generated) => RememberKeepsProvenance(db, redactor, request, event, generated);
      case CheckpointOp(request, event, draws) => CheckpointKeepsProvenance(db, redactor, request, event, draws);
      case ObserveOp(request, event) =>
        ObserveKeepsRecords(db, redactor, request, event);
        QuietStepKeeps(db, Apply(db, redactor, op));
      case RetractOp(request, event) =>
        RetractKeepsRecords(db, redactor, request, event);
        QuietStepKeeps(db, Apply(db, redactor, op));
      case _ =>
        DerivedStepsKeepRecords(db, redactor, op);
        QuietStepKeeps(db, Apply(db, redactor, op));
    }
  }

  lemma EmptyProvenance()
    ensures Traceable(EMPTY)
  {
  }

  // In every run each revision cites only events of its own scope that were
  // logged by the time it was recorded, and links join only memories of one scope.
  lemma {:induction false} RunKeepsProvenance(db: Db, redactor: Redactor, ops: seq<Op>)
    requires Inv(db) && Traceable(db)
    ensures Inv(Run(db, redactor, ops)) && Traceable(Run(db, redactor, ops))
  {
    hide Inv, Traceable, Apply, Extends;
    if ops != [] {
      var front := ops[..|ops| - 1];
      RunKeepsProvenance(db, redactor, front);
      ApplyKeeps(Run(db, redactor, front), redactor, ops[|ops| - 1]);
      ApplyKeepsProvenance(Run(db, redactor, front), redactor, ops[|ops| - 1]);
    }
  }

  lemma ReachableProvenance(db: Db, redactor: Redactor)
    requires Reachable(db, redactor)
    ensures Traceable(db)
  {
    hide Inv, Traceable, Run;
    EmptyInv();
    EmptyProvenance();
    var ops :| db == Run(EMPTY, redactor, ops);
    RunKeepsProvenance(EMPTY, redactor, ops);
  }

  // --- isolation of scopes ----------------------------------------------

  // The heads of one durable scope.
  function ScopeHeads(db: Db, durable: DurableScope): map<MemoryId, Head> {
    map id | id in db.heads && db.heads[id].durable == durable :: db.heads[id]
  }

  // The operation writes memories of this scope.
  predicate Concerns(db: Db, op: Op, durable: DurableScope) {
    match op
    case RememberOp(request, _, _) => request.memory.scope.Durable() == durable
    case CheckpointOp(request, _, _) => request.scope.Durable() == durable
    case RetractOp(request, _) => request.memoryId in db.heads && db.heads[request.memoryId].durable == durable
    case _ => false
  }

  lemma UnaffectedSettle(id: MemoryId, head: Head, source: MemoryId, links: seq<LinkInput>, sequence: nat)
    requires id != source && forall i | 0 <= i < |links| :: links[i].target != id
    ensures Settle(id, head, source, links, sequence) == head
  {
  }

  lemma WriteStaysInScope(db: Db, id: MemoryId, request: MemoryRequest, event: EventId, durable: DurableScope)
    requires ValidateLinks(db, request.links, request.scope).Ok? && request.scope.Durable() != durable
    requires id in db.heads ==> db.heads[id].durable == request.scope.Durable()
    ensures ScopeHeads(Written(db, id, request, event), durable) == ScopeHeads(db, durable)
  {
    hide Written, Scope.Durable, ValidateLinks, Settle;
    ValidStaysInScope(db, request.links, request.scope);
    var after := Written(db, id, request, event);
    WrittenHeads(db, id, request, event);
    KindsSettled(db, id, request, event);
    forall m | m in db.heads && db.heads[m].durable == durable ensures after.heads[m] == db.heads[m] {
      UnaffectedSettle(m, db.heads[m], id, request.links, |db.events|);
    }
  }

  lemma UpsertStaysInScope(
    db: Db, request: MemoryRequest, event: EventId, generated: MemoryId, durable: DurableScope)
    requires Upsert(db, request, event, generated).Ok? && request.scope.Durable() != durable
    ensures ScopeHeads(Upsert(db, request, event, generated).value.db, durable) == ScopeHeads(db, durable)
  {
    hide Upsert, Written, Scope.Durable, ValidateLinks, ValidateEvidence, ScopeHeads;
    AcceptedParts(db, request, event, generated);
    WriteStaysInScope(db, Upsert(db, request, event, generated).value.id, request, event, durable);
  }

  lemma {:induction false} UpsertAllStaysInScope(
    db: Db, redactor: Redactor, requests: seq<MemoryRequest>, event: EventId, draws: nat -> MemoryId,
    durable: DurableScope)
    requires forall i | 0 <= i < |requests| :: requests[i].scope.Durable() != durable
    requires UpsertAll(db, redactor, requests, event, draws).Ok?
    ensures ScopeHeads(UpsertAll(db, redactor, requests, event, draws).value.db, durable) == ScopeHeads(db, durable)
  {
    hide Upsert, PrepareMemory, Scope.Durable, ScopeHeads;
    if requests != [] {
      var n := |requests| - 1;
      UpsertAllStaysInScope(db, redactor, requests[..n], event, draws, durable);
      var before := UpsertAll(db, redactor, requests[..n], event, draws).value.db;
      PreparationKeepsScope(redactor, requests[n]);
      UpsertStaysInScope(before, PrepareMemory(redactor, requests[n]), event, draws(n + 1), durable);
    }
  }

  lemma SameHeadsSameScope(db: Db, after: Db, durable: DurableScope)
    requires after.heads == db.heads
    ensures ScopeHeads(after, durable) == ScopeHeads(db, durable)
  {
  }

  lemma RememberStaysInScope(
    db: Db, redactor: Redactor, request: RememberRequest, event: EventId, generated: MemoryId, durable: DurableScope)
    requires request.memory.scope.Durable() != durable
    ensures ScopeHeads(RememberStep(db, redactor, request, event, generated).db, durable) == ScopeHeads(db, durable)
  {
    hide GetIdempotent, HasEvent, ValidateEvidence, ValidateLinks, Upsert, PrepareMemory, Scope.Durable, ScopeHeads,
      RememberFingerprintOf, MemoryFits;
    var prepared := PrepareMemory(redactor, request.memory);
    PreparationKeepsScope(redactor, request.memory);
    var logged := Logged(db, Event(event, ExplicitMemory, prepared.scope, prepared.body, prepared.attributes));
    var written := Upsert(logged, prepared, event, generated);
    if written.Ok? {
      UpsertStaysInScope(logged, prepared, event, generated, durable);
      SameHeadsSameScope(db, logged, durable);
      var after := RememberStep(db, redactor, request, event, generated).db;
      if after != db { SameHeadsSameScope(written.value.db, after, durable); }
    }
  }

  lemma CheckpointWritesStayInScope(
    db: Db, redactor: Redactor, safe: CheckpointRequest, event: EventId, draws: nat -> MemoryId, durable: DurableScope)
    requires CheckpointWrites(db, redactor, safe, event, draws).Ok? && safe.scope.Durable() != durable
    ensures ScopeHeads(CheckpointWrites(db, redactor, safe, event, draws).value.db, durable) == ScopeHeads(db, durable)
  {
    hide HasEvent, ValidateEvidence, Upsert, UpsertAll, PrepareMemory, EpisodeRequest, MemberRequests, Scope.Durable,
      CheckpointAttributes, ScopeHeads, MemoryFits;
    var logged := Logged(db, Event(event, Checkpoint, safe.scope, safe.summary, CheckpointAttributes(redactor, safe)));
    var first := PrepareMemory(redactor, EpisodeRequest(safe));
    var episode := Upsert(logged, first, event, draws(0)).value;
    SameHeadsSameScope(db, logged, durable);
    MembersInScope(safe, episode.id);
    PreparationKeepsScope(redactor, EpisodeRequest(safe));
    UpsertStaysInScope(logged, first, event, draws(0), durable);
    UpsertAllStaysInScope(episode.db, redactor, MemberRequests(safe, episode.id), event, draws, durable);
  }

  lemma CheckpointStaysInScope(
    db: Db, redactor: Redactor, request: CheckpointRequest, event: EventId, draws: nat -> MemoryId,
    durable: DurableScope)
    requires request.scope.Durable() != durable
    ensures ScopeHeads(CheckpointStep(db, redactor, request, event, draws).db, durable) == ScopeHeads(db, durable)
  {
    hide GetIdempotent, RedactCheckpoint, CheckpointWrites, CheckpointFingerprintOf, Scope.Durable, CheckpointFits,
      ScopeHeads;
    var safe := RedactCheckpoint(redactor, request);
    RedactionKeepsScope(redactor, request);
    if CheckpointWrites(db, redactor, safe, event, draws).Ok? {
      CheckpointWritesStayInScope(db, redactor, safe, event, draws, durable);
      var after := CheckpointStep(db, redactor, request, event, draws).db;
      if after != db {
        SameHeadsSameScope(CheckpointWrites(db, redactor, safe, event, draws).value.db, after, durable);
      }
    }
  }

  lemma RetractionStaysInScope(db: Db, redactor: Redactor, request: RetractRequest, event: EventId,
    durable: DurableScope)
    requires request.memoryId in db.heads ==> db.heads[request.memoryId].durable != durable
    ensures ScopeHeads(RetractStep(db, redactor, request, event).db, durable) == ScopeHeads(db, durable)
  {
    hide RetractStep, HasEvent, GetIdempotent, Scope.Durable, HeadScope;
    RetractOutcome(db, redactor, request, event);
  }

  // No operation touches, adds or removes a memory of a scope it does not concern.
  lemma ApplyStaysInScope(db: Db, redactor: Redactor, op: Op, durable: DurableScope)
    requires Inv(db) && !Concerns(db, op, durable)
    ensures ScopeHeads(Apply(db, redactor, op), durable) == ScopeHeads(db, durable)
  {
    hide Inv, ObserveStep, RetractStep, RememberStep, CheckpointStep, ScopeHeads, Scope.Durable,
      SearchIndex.RegisterAll, SearchIndex.Rebuilt, SearchIndex.Malformed, SearchIndex.Repeats;
    match op {
      case RememberOp(request, event, generated) =>
        RememberStaysInScope(db, redactor, request, event, generated, durable);
      case CheckpointOp(request, event, draws) => CheckpointStaysInScope(db, redactor, request, event, draws, durable);
      case ObserveOp(request, event) =>
        ObserveOutcome(db, redactor, request, event);
        SameHeadsSameScope(db, Apply(db, redactor, op), durable);
      case RetractOp(request, event) => RetractionStaysInScope(db, redactor, request, event, durable);
      case RegisterOp(profile, settings, scope, inputs) =>
        if SearchIndex.RegisterSpec(db, profile, settings, scope, inputs).Ok? {
          SearchIndex.RegisterAllKeeps(db, profile, scope, inputs);
        }
        SameHeadsSameScope(db, Apply(db, redactor, op), durable);
      case RebuildOp =>
        RebuildKeepsInv(db);
        SameHeadsSameScope(db, Apply(db, redactor, op), durable);
      case _ => SameHeadsSameScope(db, Apply(db, redactor, op), durable);
    }
  }

  // Whole runs in other scopes leave every head of a scope as it was.
  lemma {:induction false} ScopesAreIsolated(db: Db, redactor: Redactor, ops: seq<Op>, durable: DurableScope)
    requires Inv(db)
    requires forall i | 0 <= i < |ops| :: !Concerns(Run(db, redactor, ops[..i]), ops[i], durable)
    ensures ScopeHeads(Run(db, redactor, ops), durable) == ScopeHeads(db, durable)
  {
    hide Inv, Apply, Extends, ScopeHeads, Concerns;
    if ops != [] {
      var n := |ops| - 1;
      forall i | 0 <= i < n ensures !Concerns(Run(db, redactor, ops[..n][..i]), ops[..n][i], durable) {
        assert ops[..n][..i] == ops[..i];
      }
      ScopesAreIsolated(db, redactor, ops[..n], durable);
      RunKeeps(db, redactor, ops[..n]);
      ApplyStaysInScope(Run(db, redactor, ops[..n]), redactor, ops[n], durable);
    }
  }
}
