// What an accepted observation, memory or retraction leaves behind, told from
// the request alone.
module StoredRequests {
  import opened Basics
  import opened Domain
  import opened Database
  import opened AttachmentContents
  import opened AttachmentTables
  import opened Ledger
  import opened Extension
  import opened ReadBack
  import opened Recall
  import opened Strings
  import LinkLedger
  import Provenance

  // --- observe ----------------------------------------------------------

  // An observation that is not a replay appends one event, redacted, under the
  // identifier given or drawn, and answers with its place in the log.
  lemma ObservedIsLogged(db: Db, redactor: Redactor, request: ObserveRequest, generated: EventId)
    requires ObserveStep(db, redactor, request, generated).db != db
    ensures var reply := ObserveStep(db, redactor, request, generated);
            var id := if request.eventId.Some? then request.eventId.value else generated;
            && (forall i | 0 <= i < |db.events| :: db.events[i].id != id)
            && reply.db.events == db.events + [Event(id, request.kind, request.scope, redactor.text(request.content),
                                                     redactor.attributes(request.attributes))]
            && reply.result == Ok(Receipt(id, [], |db.events| + 1, false))
            && reply.db == db.(events := reply.db.events, idempotency := reply.db.idempotency)
  {
    hide GetIdempotent, ScopedIdempotencyKey, ObserveFingerprintOf;
  }

  // --- remember ---------------------------------------------------------

  // A stored text is the redacted one.
  function RedactedKey(redactor: Redactor, key: Option<string>): Option<string> {
    match key
    case None => None
    case Some(text) => Some(redactor.text(text))
  }

  // The texts and scalars of the memory read back.
  predicate TellsRequest(redactor: Redactor, request: MemoryRequest, memory: Memory) {
    && memory.title == redactor.text(request.title) && memory.body == redactor.text(request.body)
    && memory.key == RedactedKey(redactor, request.key)
    && memory.attributes == redactor.attributes(request.attributes)
    && memory.kind == request.kind && memory.scope == request.scope && memory.ranking == request.ranking
  }

  // Some link of the request names this relation, whatever its case and margins.
  predicate Names(request: MemoryRequest, relation: string) {
    exists i | 0 <= i < |request.links| :: AsciiLower(Trim(request.links[i].relation)) == relation
  }

  predicate NamesTarget(request: MemoryRequest, relation: string, target: MemoryId) {
    exists i | 0 <= i < |request.links| ::
      request.links[i].target == target && AsciiLower(Trim(request.links[i].relation)) == relation
  }

  // The memory took its next place in its own history, contested when it contests.
  predicate TakesItsPlace(db: Db, request: MemoryRequest, id: MemoryId, memory: Memory) {
    && memory.memoryId == id
    && memory.revision == (if id in db.heads then db.heads[id].headRevision + 1 else 1)
    && memory.createdSeq == (if id in db.heads then db.heads[id].createdSeq else |db.events| + 1)
    && memory.updatedSeq == |db.events| + 1
    && memory.state == (if Names(request, "contests") then Contested else Active)
  }

  // A superseded live memory leaves recall; a contested active one stays in it as contested.
  predicate LinksTakeEffect(db: Db, after: Db, request: MemoryRequest, id: MemoryId) {
    forall other | other in db.heads && other != id ::
      && other in after.heads
      && after.heads[other].state ==
         match db.heads[other].state
         case Active => if NamesTarget(request, "supersedes", other) then Superseded
                        else if NamesTarget(request, "contests", other) then Contested else Active
         case Contested => if NamesTarget(request, "supersedes", other) then Superseded else Contested
         case state => state
  }

  // The row of one link, its relation trimmed and its weight capped at a thousand.
  predicate IsRowOf(row: LinkRow, link: LinkInput, id: MemoryId, revision: nat, event: EventId) {
    && row.source == id && row.sourceRevision == revision && row.event == event
    && row.target == link.target && row.relation == Trim(link.relation)
    && row.weight == (if link.weight > 1000 then 1000 else link.weight)
  }

  // The ledger gained exactly the rows of the request's links.
  ghost predicate LinksLogged(db: Db, after: Db, request: MemoryRequest, id: MemoryId, revision: nat, event: EventId) {
    forall row :: row in after.links <==>
      || row in db.links
      || exists i | 0 <= i < |request.links| :: IsRowOf(row, request.links[i], id, revision, event)
  }

  lemma ChangedIsFresh(db: Db, redactor: Redactor, request: RememberRequest, event: EventId, generated: MemoryId)
    requires RememberStep(db, redactor, request, event, generated).db != db
    ensures RememberStep(db, redactor, request, event, generated).result.Ok?
    ensures GetIdempotent(
              db, ScopedIdempotencyKey(RememberOperation, request.memory.scope, request.idempotencyKey),
              RememberFingerprintOf(PrepareMemory(redactor, request.memory))) == Ok(None)
    ensures !HasEvent(db, event)
  {
    hide GetIdempotent, ValidateEvidence, ValidateLinks, PrepareMemory, Scope.Durable, RememberFingerprintOf, Upsert,
      HasEvent, PutIdempotent, MemoryFits;
    PreparedAddress(redactor, request.memory);
  }

  // The store after an accepted memory, up to its receipt, is the written one.
  lemma RememberWrites(db: Db, redactor: Redactor, request: RememberRequest, event: EventId, generated: MemoryId)
    requires RememberStep(db, redactor, request, event, generated).db != db
    ensures var reply, prepared := RememberStep(db, redactor, request, event, generated),
        PrepareMemory(redactor, request.memory);
            var logged := Logged(db, Event(event, ExplicitMemory, prepared.scope, prepared.body, prepared.attributes));
            var upserted := Upsert(logged, prepared, event, generated);
            && upserted.Ok? && reply.db == upserted.value.db.(idempotency := reply.db.idempotency)
            && upserted.value.db == Written(logged, upserted.value.id, prepared, event)
            && reply.result == Ok(Receipt(event, [upserted.value.id], |upserted.value.db.events|, false))
  {
    hide GetIdempotent, ValidateEvidence, ValidateLinks, PrepareMemory, Scope.Durable, RememberFingerprintOf, Upsert,
      HasEvent, MemoryFits, ScopedIdempotencyKey, Written;
    var prepared := PrepareMemory(redactor, request.memory);
    var logged := Logged(db, Event(event, ExplicitMemory, prepared.scope, prepared.body, prepared.attributes));
    if Upsert(logged, prepared, event, generated).Ok? { ResolvedIdentity(logged, prepared, event, generated); }
  }

  // An accepted memory logs its redacted text and reads back as the request told
  // it, redacted, in the next place of its history.
  lemma RememberedText(db: Db, redactor: Redactor, request: RememberRequest, event: EventId, generated: MemoryId)
    requires Inv(db) && RememberStep(db, redactor, request, event, generated).db != db
    ensures var reply, memory := RememberStep(db, redactor, request, event, generated), request.memory;
            && reply.result.Ok? && |reply.result.value.memoryIds| == 1
            && (var id := reply.result.value.memoryIds[0];
                && reply.result == Ok(Receipt(event, [id], |db.events| + 1, false))
                && reply.db.events == db.events + [Event(event, ExplicitMemory, memory.scope,
                       redactor.text(memory.body), redactor.attributes(memory.attributes))]
                && LoadHead(reply.db, id).Some?
                && TellsRequest(redactor, memory, LoadHead(reply.db, id).value)
                && TakesItsPlace(db, memory, id, LoadHead(reply.db, id).value))
  {
    hide Inv, PrepareMemory, LoadHead, RememberStep, Written, Upsert, GetIdempotent, ScopedIdempotencyKey,
      RememberFingerprintOf, Described, TellsRequest, TakesItsPlace, SameContent, NextRevision;
    ChangedIsFresh(db, redactor, request, event, generated);
    RememberedIsRead(db, redactor, request, event, generated);
    RememberWrites(db, redactor, request, event, generated);
    var reply, prepared := RememberStep(db, redactor, request, event, generated),
        PrepareMemory(redactor, request.memory);
    var logged := Logged(db, Event(event, ExplicitMemory, prepared.scope, prepared.body, prepared.attributes));
    WrittenLog(logged, reply.result.value.memoryIds[0], prepared, event);
    PreparedTexts(redactor, request.memory);
    DescribedTells(db, redactor, request.memory, reply.result.value.memoryIds[0], event);
  }

  lemma PreparedTexts(redactor: Redactor, request: MemoryRequest)
    ensures var prepared := PrepareMemory(redactor, request);
            && prepared.scope == request.scope && prepared.body == redactor.text(request.body)
            && prepared.attributes == redactor.attributes(request.attributes)
            && prepared.key == RedactedKey(redactor, request.key) && prepared.kind == request.kind
            && prepared.memoryId == request.memoryId
  {
  }

  lemma DescribedTells(db: Db, redactor: Redactor, request: MemoryRequest, id: MemoryId, event: EventId)
    ensures var memory := Described(PrepareMemory(redactor, request), id, NextRevision(db, id), event,
        if id in db.heads then db.heads[id].createdSeq else |db.events| + 1, |db.events| + 1);
            TellsRequest(redactor, request, memory) && TakesItsPlace(db, request, id, memory)
  {
    hide Stored, StoreAll, AnyContests, Names;
    ContestsNamed(redactor, request);
  }

  lemma ContestsNamed(redactor: Redactor, request: MemoryRequest)
    ensures AnyContests(PrepareMemory(redactor, request).links) == Names(request, "contests")
  {
    hide StoreAll, AsciiLower, Trim;
    var links := PrepareMemory(redactor, request).links;
    assert |links| == |request.links|;
    assert forall i | 0 <= i < |links| :: links[i].relation == Trim(request.links[i].relation);
  }

  // Its links change other memories as their relations say, and each is logged.
  lemma RememberedLinks(db: Db, redactor: Redactor, request: RememberRequest, event: EventId, generated: MemoryId)
    requires Inv(db) && RememberStep(db, redactor, request, event, generated).db != db
    ensures var reply, memory := RememberStep(db, redactor, request, event, generated), request.memory;
            && reply.result.Ok? && |reply.result.value.memoryIds| == 1
            && (var id := reply.result.value.memoryIds[0];
                && id in reply.db.heads && LinksTakeEffect(db, reply.db, memory, id)
                && LinksLogged(db, reply.db, memory, id, reply.db.heads[id].headRevision, event))
  {
    hide Inv, PrepareMemory, RememberStep, Written, Upsert, LinksTakeEffect, LinksLogged, NextRevision, Settle,
      Scope.Durable;
    RememberWrites(db, redactor, request, event, generated);
    var reply, prepared := RememberStep(db, redactor, request, event, generated),
        PrepareMemory(redactor, request.memory);
    var id := reply.result.value.memoryIds[0];
    var logged := Logged(db, Event(event, ExplicitMemory, prepared.scope, prepared.body, prepared.attributes));
    WrittenHeads(logged, id, prepared, event);
    WrittenLedgerRows(logged, id, prepared, event);
    EffectsOf(db, reply.db, redactor, request.memory, id);
    RowsOf(db, reply.db, redactor, request.memory, id, reply.db.heads[id].headRevision, event);
  }

  lemma EffectsOf(db: Db, after: Db, redactor: Redactor, request: MemoryRequest, id: MemoryId)
    requires forall other | other in db.heads && other != id ::
               && other in after.heads
               && after.heads[other] ==
                  Settle(other, db.heads[other], id, PrepareMemory(redactor, request).links, |db.events| + 1)
    ensures LinksTakeEffect(db, after, request, id)
  {
    hide StoreAll, AsciiLower, Trim;
    var links := PrepareMemory(redactor, request).links;
    forall other
      ensures Affects(links, other, Supersedes) == NamesTarget(request, "supersedes", other)
      ensures Affects(links, other, Contests) == NamesTarget(request, "contests", other)
    {
      AffectsNamed(redactor, request, other);
    }
  }

  lemma AffectsNamed(redactor: Redactor, request: MemoryRequest, other: MemoryId)
    ensures var links := PrepareMemory(redactor, request).links;
            && Affects(links, other, Supersedes) == NamesTarget(request, "supersedes", other)
            && Affects(links, other, Contests) == NamesTarget(request, "contests", other)
  {
    hide StoreAll, AsciiLower, Trim;
    var links := PrepareMemory(redactor, request).links;
    assert |links| == |request.links|;
    assert forall i | 0 <= i < |links| ::
        links[i].target == request.links[i].target && links[i].relation == Trim(request.links[i].relation);
  }

  lemma RowsOf(
    db: Db, after: Db, redactor: Redactor, request: MemoryRequest, id: MemoryId, revision: nat, event: EventId)
    requires after.links == db.links + LinkRows(id, revision, PrepareMemory(redactor, request).links, event)
    ensures LinksLogged(db, after, request, id, revision, event)
  {
    hide StoreAll, Trim;
    var links := PrepareMemory(redactor, request).links;
    assert |links| == |request.links|;
    forall row
      ensures row in LinkRows(id, revision, links, event)
        <==> exists i | 0 <= i < |request.links| :: IsRowOf(row, request.links[i], id, revision, event)
    {
      assert forall i | 0 <= i < |links| ::
          IsRowOf(row, request.links[i], id, revision, event)
          == (row == LinkRow(id, revision, links[i].target, links[i].relation, CapWeight(links[i].weight), event));
    }
  }

  // Tags, entities, artifacts and evidence are stored as the request gave them.
  lemma RememberedAttachments(
    db: Db, redactor: Redactor, request: RememberRequest, event: EventId, generated: MemoryId)
    requires Inv(db) && RememberStep(db, redactor, request, event, generated).db != db
    ensures var reply := RememberStep(db, redactor, request, event, generated);
            && reply.result.Ok? && |reply.result.value.memoryIds| == 1
            && (var read := LoadHead(reply.db, reply.result.value.memoryIds[0]);
                && read.Some?
                && AttachmentsTold(redactor, request.memory, event,
                     Attachments(read.value.tags, read.value.entities, read.value.artifacts, read.value.evidence)))
  {
    hide Inv, PrepareMemory, LoadHead, RememberStep, GetIdempotent, ScopedIdempotencyKey, RememberFingerprintOf,
      SameContent, NextRevision, Stored, AttachmentsTold;
    ChangedIsFresh(db, redactor, request, event, generated);
    RememberedIsRead(db, redactor, request, event, generated);
    StoredIsTold(redactor, request.memory, event);
  }

  // --- which memory a request is about ----------------------------------

  // A live head that answers to the key in the request's scope and kind.
  predicate AnswersTo(db: Db, request: MemoryRequest, key: string, id: MemoryId) {
    && id in db.heads && db.heads[id].durable == request.scope.Durable() && db.heads[id].kind == request.kind
    && db.heads[id].key == Some(key) && (db.heads[id].state == Active || db.heads[id].state == Contested)
  }

  // Newer than every other head that answers, smaller among those as new.
  ghost predicate FirstToAnswer(db: Db, request: MemoryRequest, key: string, id: MemoryId) {
    && AnswersTo(db, request, key, id)
    && forall other | AnswersTo(db, request, key, other) && other != id ::
         || db.heads[other].updatedSeq < db.heads[id].updatedSeq
         || (db.heads[other].updatedSeq == db.heads[id].updatedSeq && id < other)
  }

  // The memory named, else the first to answer to the key, else a new one.
  ghost predicate IsAbout(db: Db, redactor: Redactor, request: MemoryRequest, generated: MemoryId, id: MemoryId) {
    match request.memoryId
    case Some(named) =>
      && id == named
      && (named in db.heads ==>
            && db.heads[named].durable == request.scope.Durable() && db.heads[named].kind == request.kind
            && (db.heads[named].state == Active || db.heads[named].state == Contested))
    case None =>
      || (request.key.Some? && FirstToAnswer(db, request, redactor.text(request.key.value), id))
      || (&& id == generated && generated !in db.heads
          && (request.key.Some? ==> forall other :: !AnswersTo(db, request, redactor.text(request.key.value), other)))
  }

  lemma ResolvedIsAbout(db: Db, redactor: Redactor, request: MemoryRequest, event: EventId, generated: MemoryId)
    requires Upsert(db, PrepareMemory(redactor, request), event, generated).Ok?
    ensures IsAbout(db, redactor, request, generated,
                    Upsert(db, PrepareMemory(redactor, request), event, generated).value.id)
  {
    hide PrepareMemory, Written, ValidateEvidence, ValidateLinks, CheckLinks, Scope.Durable;
    PreparedTexts(redactor, request);
    var prepared := PrepareMemory(redactor, request);
    if request.memoryId.None? && request.key.Some? {
      var among := Candidates(db, request.scope.Durable(), request.kind, prepared.key.value);
      assert forall other :: other in among <==> AnswersTo(db, request, prepared.key.value, other);
    }
  }

  // An accepted memory is written to the memory its request is about.
  lemma RememberedIdentity(db: Db, redactor: Redactor, request: RememberRequest, event: EventId, generated: MemoryId)
    requires RememberStep(db, redactor, request, event, generated).db != db
    ensures var reply := RememberStep(db, redactor, request, event, generated);
            && reply.result.Ok? && |reply.result.value.memoryIds| == 1
            && IsAbout(db, redactor, request.memory, generated, reply.result.value.memoryIds[0])
  {
    hide PrepareMemory, RememberStep, Upsert, Written, Scope.Durable, IsAbout;
    RememberWrites(db, redactor, request, event, generated);
    var prepared := PrepareMemory(redactor, request.memory);
    var logged := Logged(db, Event(event, ExplicitMemory, prepared.scope, prepared.body, prepared.attributes));
    ResolvedIsAbout(logged, redactor, request.memory, event, generated);
    SameAddressees(
      db, logged, redactor, request.memory, generated, Upsert(logged, prepared, event, generated).value.id);
  }

  lemma SameAddressees(
    db: Db, after: Db, redactor: Redactor, request: MemoryRequest, generated: MemoryId, id: MemoryId)
    requires after.heads == db.heads && IsAbout(after, redactor, request, generated, id)
    ensures IsAbout(db, redactor, request, generated, id)
  {
    hide Scope.Durable;
    assert forall key, other :: AnswersTo(db, request, key, other) == AnswersTo(after, request, key, other);
  }

  // --- retract ----------------------------------------------------------

  // A retraction logs the redacted reason in the scope of the memory's current revision.
  lemma RetractionIsLogged(db: Db, redactor: Redactor, request: RetractRequest, event: EventId)
    requires RetractStep(db, redactor, request, event).db != db
    ensures var reply, id := RetractStep(db, redactor, request, event), request.memoryId;
            && id in db.heads && RevisionId(id, db.heads[id].headRevision) in db.revisions
            && reply.db.events == db.events + [Event(event, Lifecycle,
                 db.revisions[RevisionId(id, db.heads[id].headRevision)].scope, redactor.text(request.reason),
                 NO_ATTRIBUTES)]
            && reply.result == Ok(Receipt(event, [id], |db.events| + 1, false))
  {
    hide GetIdempotent, HasEvent;
  }
}
