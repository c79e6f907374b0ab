// What a committed write can be read back as.
module ReadBack {
  import opened Basics
  import opened Domain
  import opened Database
  import opened AttachmentTables
  import opened Ledger
  import opened Extension
  import opened Recall

  // --- remember ---------------------------------------------------------

  // The memory a prepared request describes, as recall returns it: scalars and
  // text verbatim, attachments as their tables keep them.
  function Described(request: MemoryRequest, id: MemoryId, revision: nat, event: EventId, created: nat, sequence: nat):
    Memory
  {
    var attached := Stored(request.tags, request.entities, request.artifacts, request.evidence, event);
    Memory(id, revision, request.kind, if AnyContests(request.links) then Contested else Active, request.scope,
           request.key, request.title, request.body, request.ranking, request.attributes, created, sequence,
           attached.tags, attached.entities, attached.artifacts, attached.evidence)
  }

  function CreatedSeq(db: Db, id: MemoryId): nat {
    if id in db.heads then db.heads[id].createdSeq else |db.events|
  }

  lemma WrittenIsRead(db: Db, id: MemoryId, request: MemoryRequest, event: EventId)
    requires forall i | 0 <= i < |request.links| :: request.links[i].target != id
    ensures LoadHead(Written(db, id, request, event), id)
         == Some(Described(request, id, NextRevision(db, id), event, CreatedSeq(db, id), |db.events|))
  {
    hide Scope.Durable, LinkRows, TargetAssociations, Effect, AnyContests;
  }

  // Other memories keep everything but, through a link, their lifecycle state.
  predicate SameContent(before: Memory, after: Memory) {
    after == before.(state := after.state, updatedSeq := after.updatedSeq)
  }

  lemma OtherRowsStay(db: Db, id: MemoryId, request: MemoryRequest, event: EventId, other: MemoryId)
    requires RevisionsNumbered(db) && other in db.heads && other != id
    ensures var after, at := Written(db, id, request, event), HeadAt(db, other);
            && Present(db, at) && Present(after, at) && after.revisions[at] == db.revisions[at]
            && after.attachments[at] == db.attachments[at]
            && other in after.heads
                  && after.heads[other] == Settle(other, db.heads[other], id, request.links, |db.events|)
  {
    hide Scope.Durable, Written, Affects, AnyContests, RevisedHead, Settle;
    assert HeadAt(db, other) in db.revisions;
    WrittenHeads(db, id, request, event);
    WrittenRevisions(db, id, request, event);
  }

  lemma OthersAreRead(db: Db, id: MemoryId, request: MemoryRequest, event: EventId, other: MemoryId)
    requires RevisionsNumbered(db) && other in db.heads && other != id
    ensures LoadHead(db, other).Some? && LoadHead(Written(db, id, request, event), other).Some?
    ensures SameContent(LoadHead(db, other).value, LoadHead(Written(db, id, request, event), other).value)
    ensures !Affects(request.links, other, Supersedes) && !Affects(request.links, other, Contests) ==>
              LoadHead(Written(db, id, request, event), other) == LoadHead(db, other)
  {
    hide Written, Affects, AnyContests, Present, RevisionsNumbered;
    OtherRowsStay(db, id, request, event, other);
  }

  // The tags of a prepared request read back verbatim.
  lemma PreparedTagsAreRead(
    redactor: Redactor, request: MemoryRequest, id: MemoryId, revision: nat, event: EventId, created: nat,
    sequence: nat)
    ensures var prepared := PrepareMemory(redactor, request);
            Described(prepared, id, revision, event, created, sequence).tags == prepared.tags
  {
    hide StoreAll, TagBefore;
    PreparedTagsAreStored(RedactAll(redactor, request.tags));
  }

  // A remembered memory reads back as its prepared request describes it; no
  // other memory's content moves.
  lemma RememberedIsRead(db: Db, redactor: Redactor, request: RememberRequest, event: EventId, generated: MemoryId)
    requires Inv(db) && RememberStep(db, redactor, request, event, generated).result.Ok?
    requires GetIdempotent(
      db, ScopedIdempotencyKey(RememberOperation, request.memory.scope, request.idempotencyKey),
      RememberFingerprintOf(PrepareMemory(redactor, request.memory))) == Ok(None)
    ensures var reply, prepared := RememberStep(db, redactor, request, event, generated),
        PrepareMemory(redactor, request.memory);
            && |reply.result.value.memoryIds| == 1 && reply.result.value.databaseSeq == |db.events| + 1
            && (var id := reply.result.value.memoryIds[0];
                && (request.memory.memoryId.Some? ==> id == request.memory.memoryId.value)
                && LoadHead(reply.db, id)
                   == Some(Described(prepared, id, NextRevision(db, id), event,
                                     if id in db.heads then db.heads[id].createdSeq else |db.events| + 1,
                                     |db.events| + 1))
                && forall other | other in db.heads && other != id ::
                     && LoadHead(db, other).Some? && LoadHead(reply.db, other).Some?
                     && SameContent(LoadHead(db, other).value, LoadHead(reply.db, other).value))
  {
    hide Inv, GetIdempotent, ValidateEvidence, ValidateLinks, PrepareMemory, Scope.Durable, RememberFingerprintOf,
      Written, LoadHead, Described, SameContent, CheckLinks, Existing, HasEvent;
    var prepared := PrepareMemory(redactor, request.memory);
    PreparedAddress(redactor, request.memory);
    var entry := Event(event, ExplicitMemory, prepared.scope, prepared.body, prepared.attributes);
    var logged := Logged(db, entry);
    InsertEventKeepsInv(db, entry);
    NumberedInv(logged);
    var upserted := Upsert(logged, prepared, event, generated).value;
    ResolvedIdentity(logged, prepared, event, generated);
    NoSelfLinks(prepared.links, upserted.id, |prepared.links|);
    WrittenIsRead(logged, upserted.id, prepared, event);
    var reply := RememberStep(db, redactor, request, event, generated);
    SameMemories(upserted.db, reply.db);
    WrittenLog(logged, upserted.id, prepared, event);
    forall other | other in db.heads && other != upserted.id
      ensures LoadHead(db, other).Some? && LoadHead(reply.db, other).Some?
      ensures SameContent(LoadHead(db, other).value, LoadHead(reply.db, other).value)
    {
      SameMemories(db, logged);
      OthersAreRead(logged, upserted.id, prepared, event, other);
    }
  }

  lemma PreparedAddress(redactor: Redactor, request: MemoryRequest)
    ensures PrepareMemory(redactor, request).memoryId == request.memoryId
    ensures PrepareMemory(redactor, request).scope == request.scope
  {
  }

  lemma WrittenLog(db: Db, id: MemoryId, request: MemoryRequest, event: EventId)
    ensures Written(db, id, request, event).events == db.events
  {
    hide SettleAll, LinkRows, TargetAssociations, Scope.Durable;
  }

  lemma ResolvedIdentity(db: Db, request: MemoryRequest, event: EventId, generated: MemoryId)
    requires Upsert(db, request, event, generated).Ok?
    ensures var upserted := Upsert(db, request, event, generated).value;
            && upserted.db == Written(db, upserted.id, request, event)
            && (request.memoryId.Some? ==> upserted.id == request.memoryId.value)
            && CheckLinks(request.links, upserted.id, |request.links|).Ok?
  {
    hide Written, CheckLinks, ValidateEvidence, ValidateLinks, Scope.Durable;
  }

  // What is read depends on the memory tables alone.
  lemma SameMemories(db: Db, after: Db)
    requires after.heads == db.heads && after.revisions == db.revisions
    requires after.metadata == db.metadata && after.attachments == db.attachments
    ensures forall id :: LoadHead(after, id) == LoadHead(db, id)
  {
  }

  // --- retract ----------------------------------------------------------

  // How a committed retraction shows: the memory keeps its content and history
  // but leaves every derived table, its retraction is on record with the reason
  // and in the memory's scope, and other memories are untouched.
  ghost predicate RetractionShown(db: Db, after: Db, id: MemoryId, reason: string, event: EventId) {
    && LoadHead(db, id).Some?
    && LoadHead(after, id) == Some(LoadHead(db, id).value.(state := Retracted, updatedSeq := |db.events| + 1))
    && after.events == db.events + [Event(event, Lifecycle, LoadHead(db, id).value.scope, reason, NO_ATTRIBUTES)]
    && Association(event, id) in after.associations
    && id !in after.aliases && id !in after.fts
    && (forall key | key in after.projections :: key.memory != id)
    && after.revisions == db.revisions && after.links == db.links
    && (forall other | other != id :: LoadHead(after, other) == LoadHead(db, other))
  }

  lemma RetractionReads(db: Db, id: MemoryId, entry: Event, after: Db)
    requires id in db.heads && Present(db, HeadAt(db, id))
    requires entry.kind == Lifecycle && HeadScope(db, id) == Some(entry.scope) && entry.attributes == NO_ATTRIBUTES
    requires after == WithRetraction(Logged(db, entry), id, entry.id).(idempotency := after.idempotency)
    ensures RetractionShown(db, after, id, entry.content, entry.id)
  {
  }

  lemma HeadPresent(db: Db, id: MemoryId)
    requires RevisionsNumbered(db) && id in db.heads
    ensures Present(db, HeadAt(db, id))
  {
  }

  lemma RetractedIsRead(db: Db, redactor: Redactor, request: RetractRequest, event: EventId)
    requires Inv(db) && RetractStep(db, redactor, request, event).db != db
    ensures RetractionShown(db, RetractStep(db, redactor, request, event).db, request.memoryId,
                            redactor.text(request.reason), event)
  {
    hide Inv, HasEvent, Scope.Durable, WithRetraction, RetractionShown, Present, GetIdempotent;
    var id := request.memoryId;
    NumberedInv(db);
    HeadPresent(db, id);
    var entry := Event(event, Lifecycle, HeadScope(db, id).value, redactor.text(request.reason), NO_ATTRIBUTES);
    RetractionReads(db, id, entry, RetractStep(db, redactor, request, event).db);
  }

  // --- checkpoint -------------------------------------------------------

  // A revision holding what the request says, its attachments as stored, with
  // its links and its origin.
  predicate RecordedAt(db: Db, at: RevisionId, request: MemoryRequest, event: EventId) {
    && at in db.revisions && at in db.metadata && at in db.attachments
    && db.revisions[at] == Revision(request.title, request.body, request.attributes, request.scope, |db.events|)
    && db.metadata[at].kind == request.kind && db.metadata[at].key == request.key
    && db.metadata[at].ranking == request.ranking
    && db.attachments[at] == Stored(request.tags, request.entities, request.artifacts, request.evidence, event)
    && LinkRows(at.memory, at.revision, request.links, event) <= db.links
    && Association(event, at.memory) in db.associations
  }

  ghost predicate Recorded(db: Db, id: MemoryId, request: MemoryRequest, event: EventId) {
    exists revision :: RecordedAt(db, RevisionId(id, revision), request, event)
  }

  lemma WrittenIsRecorded(db: Db, id: MemoryId, request: MemoryRequest, event: EventId)
    ensures RecordedAt(Written(db, id, request, event), RevisionId(id, NextRevision(db, id)), request, event)
  {
    hide SettleAll, Scope.Durable, LinkRows, TargetAssociations;
  }

  lemma WriteKeepsRecorded(
    db: Db, id: MemoryId, request: MemoryRequest, event: EventId, at: RevisionId, earlier: MemoryRequest)
    requires RevisionsNumbered(db) && RecordedAt(db, at, earlier, event)
    ensures RecordedAt(Written(db, id, request, event), at, earlier, event)
  {
    hide Written, Scope.Durable, LinkRows;
    WrittenRevisions(db, id, request, event);
    WrittenLedgers(db, id, request, event);
    WrittenLog(db, id, request, event);
  }

  // All earlier records survive a further write, and the write is recorded.
  lemma UpsertRecords(db: Db, request: MemoryRequest, event: EventId, generated: MemoryId)
    requires RevisionsNumbered(db) && Upsert(db, request, event, generated).Ok?
    ensures var upserted := Upsert(db, request, event, generated).value;
            && RevisionsNumbered(upserted.db) && upserted.db.events == db.events
            && Recorded(upserted.db, upserted.id, request, event)
            && forall id, earlier | Recorded(db, id, earlier, event) :: Recorded(upserted.db, id, earlier, event)
  {
    hide RevisionsNumbered, RecordedAt, Upsert, Written, NextRevision;
    var upserted := Upsert(db, request, event, generated).value;
    ResolvedIdentity(db, request, event, generated);
    WriteKeepsNumbering(db, upserted.id, request, event);
    WrittenLog(db, upserted.id, request, event);
    WrittenIsRecorded(db, upserted.id, request, event);
    forall id, earlier | Recorded(db, id, earlier, event) ensures Recorded(upserted.db, id, earlier, event) {
      var revision :| RecordedAt(db, RevisionId(id, revision), earlier, event);
      WriteKeepsRecorded(db, upserted.id, request, event, RevisionId(id, revision), earlier);
    }
  }

  lemma {:induction false} UpsertAllRecords(
    db: Db, redactor: Redactor, requests: seq<MemoryRequest>, event: EventId, draws: nat -> MemoryId)
    requires RevisionsNumbered(db) && UpsertAll(db, redactor, requests, event, draws).Ok?
    ensures var batch := UpsertAll(db, redactor, requests, event, draws).value;
            && |batch.ids| == |requests| && RevisionsNumbered(batch.db) && batch.db.events == db.events
            && (forall i | 0 <= i < |requests| ::
                  Recorded(batch.db, batch.ids[i], PrepareMemory(redactor, requests[i]), event))
            && forall id, earlier | Recorded(db, id, earlier, event) :: Recorded(batch.db, id, earlier, event)
  {
    hide RevisionsNumbered, Recorded, Upsert, PrepareMemory;
    if requests != [] {
      var n := |requests| - 1;
      UpsertAllRecords(db, redactor, requests[..n], event, draws);
      var before := UpsertAll(db, redactor, requests[..n], event, draws).value;
      UpsertRecords(before.db, PrepareMemory(redactor, requests[n]), event, draws(n + 1));
    }
  }

  lemma CheckpointWritesRecord(
    db: Db, redactor: Redactor, safe: CheckpointRequest, event: EventId, draws: nat -> MemoryId)
    requires Inv(db) && CheckpointWrites(db, redactor, safe, event, draws).Ok?
    ensures var batch := CheckpointWrites(db, redactor, safe, event, draws).value;
            && |batch.ids| == 1 + |safe.decisions| + |safe.attempts| + |safe.openTasks|
            && |batch.db.events| == |db.events| + 1 && batch.db.events[..|db.events|] == db.events
            && batch.db.events[|db.events|].id == event && batch.db.events[|db.events|].kind == Checkpoint
            && Recorded(batch.db, batch.ids[0], PrepareMemory(redactor, EpisodeRequest(safe)), event)
            && forall i | 1 <= i < |batch.ids| ::
                 Recorded(batch.db, batch.ids[i],
                          PrepareMemory(redactor, MemberRequests(safe, batch.ids[0])[i - 1]), event)
  {
    hide Inv, RevisionsNumbered, Recorded, Upsert, UpsertAll, PrepareMemory, EpisodeRequest, DecisionRequest,
      AttemptRequest, TaskRequest, ValidateEvidence, CheckpointAttributes, HasEvent;
    var entry := Event(event, Checkpoint, safe.scope, safe.summary, CheckpointAttributes(redactor, safe));
    var logged := Logged(db, entry);
    InsertEventKeepsInv(db, entry);
    NumberedInv(logged);
    var first := PrepareMemory(redactor, EpisodeRequest(safe));
    var episode := Upsert(logged, first, event, draws(0)).value;
    UpsertRecords(logged, first, event, draws(0));
    var members := MemberRequests(safe, episode.id);
    UpsertAllRecords(episode.db, redactor, members, event, draws);
    var batch := UpsertAll(episode.db, redactor, members, event, draws).value;
    assert CheckpointWrites(db, redactor, safe, event, draws) == Ok(Batch(batch.db, [episode.id] + batch.ids));
    assert Recorded(batch.db, episode.id, first, event);
    assert forall i | 1 <= i < |batch.ids| + 1 :: ([episode.id] + batch.ids)[i] == batch.ids[i - 1];
  }

  // An accepted checkpoint records its episode and every decision, attempt and
  // open task, in request order, each as a revision of its own that carries its
  // text and its stored attachments and is linked to the episode.
  lemma CheckpointRecordsEverything(
    db: Db, redactor: Redactor, request: CheckpointRequest, event: EventId, draws: nat -> MemoryId)
    requires Inv(db) && CheckpointStep(db, redactor, request, event, draws).result.Ok?
    requires GetIdempotent(
      db, ScopedIdempotencyKey(CheckpointOperation, request.scope, request.idempotencyKey),
      CheckpointFingerprintOf(RedactCheckpoint(redactor, request))) == Ok(None)
    ensures var reply, safe := CheckpointStep(db, redactor, request, event, draws), RedactCheckpoint(redactor, request);
            var ids := reply.result.value.memoryIds;
            && |ids| == 1 + |safe.decisions| + |safe.attempts| + |safe.openTasks|
            && reply.result.value.eventId == event && reply.result.value.databaseSeq == |db.events| + 1
            && |reply.db.events| == |db.events| + 1 && reply.db.events[|db.events|].id == event
            && Recorded(reply.db, ids[0], PrepareMemory(redactor, EpisodeRequest(safe)), event)
            && (forall i | 0 <= i < |safe.decisions| ::
                  Recorded(reply.db, ids[1 + i],
                           PrepareMemory(redactor, DecisionRequest(safe, safe.decisions[i], ids[0])), event))
            && (forall i | 0 <= i < |safe.attempts| ::
                  Recorded(reply.db, ids[1 + |safe.decisions| + i],
                           PrepareMemory(redactor, AttemptRequest(safe, safe.attempts[i], ids[0])), event))
            && (forall i | 0 <= i < |safe.openTasks| ::
                  Recorded(reply.db, ids[1 + |safe.decisions| + |safe.attempts| + i],
                           PrepareMemory(redactor, TaskRequest(safe, safe.openTasks[i], ids[0])), event))
  {
    hide Inv, GetIdempotent, RedactCheckpoint, CheckpointWrites, PrepareMemory, EpisodeRequest, DecisionRequest,
      AttemptRequest, TaskRequest, RecordedAt, CheckpointFingerprintOf, Scope.Durable, MemberRequests;
    var safe := RedactCheckpoint(redactor, request);
    CheckpointWritesRecord(db, redactor, safe, event, draws);
    var batch := CheckpointWrites(db, redactor, safe, event, draws).value;
    var reply := CheckpointStep(db, redactor, request, event, draws);
    var ids := reply.result.value.memoryIds;
    forall id, described | Recorded(batch.db, id, described, event) ensures Recorded(reply.db, id, described, event) {
      var revision :| RecordedAt(batch.db, RevisionId(id, revision), described, event);
      PutKeepsRecorded(batch.db, reply.db, RevisionId(id, revision), described, event);
    }
    MembersInOrder(safe, ids[0]);
  }

  lemma PutKeepsRecorded(db: Db, after: Db, at: RevisionId, request: MemoryRequest, event: EventId)
    requires after == db.(idempotency := after.idempotency) && RecordedAt(db, at, request, event)
    ensures RecordedAt(after, at, request, event)
  {
  }

  lemma MembersInOrder(request: CheckpointRequest, episode: MemoryId)
    ensures var members, d, a := MemberRequests(request, episode), |request.decisions|, |request.attempts|;
            && |members| == d + a + |request.openTasks|
            && (forall i | 0 <= i < d :: members[i] == DecisionRequest(request, request.decisions[i], episode))
            && (forall i | 0 <= i < a :: members[d + i] == AttemptRequest(request, request.attempts[i], episode))
            && (forall i | 0 <= i < |request.openTasks| ::
                  members[d + a + i] == TaskRequest(request, request.openTasks[i], episode))
  {
    hide DecisionRequest, AttemptRequest, TaskRequest;
  }
}
