// What a store can hold of what it was given: only what the redactor let
// through, over runs.
module Redaction {
  import opened Basics
  import opened Domain
  import opened Database
  import opened AttachmentTables
  import opened Ledger
  import opened Extension
  import opened LinkLedger
  import Provenance
  import SearchIndex
  import Strings

  // The text came out of the redactor.
  ghost predicate Redacted(redactor: Redactor, text: string) { exists given :: redactor.text(given) == text }

  ghost predicate RedactedOption(redactor: Redactor, text: Option<string>) {
    text.Some? ==> Redacted(redactor, text.value)
  }

  ghost predicate RedactedAttributes(redactor: Redactor, attributes: Attributes) {
    exists given :: redactor.attributes(given) == attributes
  }

  // Lifecycle events carry no attributes of a caller.
  ghost predicate RedactedEvent(redactor: Redactor, event: Event) {
    && Redacted(redactor, event.content)
    && (RedactedAttributes(redactor, event.attributes)
        || (event.kind == Lifecycle && event.attributes == NO_ATTRIBUTES))
  }

  ghost predicate RedactedRevision(redactor: Redactor, revision: Revision) {
    && Redacted(redactor, revision.title) && Redacted(redactor, revision.body)
    && RedactedAttributes(redactor, revision.attributes)
  }

  // Stored in lower case.
  ghost predicate RedactedEntity(redactor: Redactor, entity: EntityRef) {
    && Redacted(redactor, entity.kind) && Redacted(redactor, entity.display)
    && exists given :: Strings.AsciiLower(redactor.text(given)) == entity.canonical
  }

  // Stored with forward slashes.
  ghost predicate RedactedArtifact(redactor: Redactor, artifact: ArtifactRef) {
    && Redacted(redactor, artifact.repoId)
    && (exists given :: PortablePath(redactor.text(given)) == artifact.path)
    && RedactedOption(redactor, artifact.symbol) && RedactedOption(redactor, artifact.contentHash)
    && RedactedOption(redactor, artifact.gitOid) && RedactedOption(redactor, artifact.language)
  }

  ghost predicate RedactedAttachments(redactor: Redactor, attached: Attachments) {
    && (forall tag | tag in attached.tags :: Redacted(redactor, tag))
    && (forall entity | entity in attached.entities :: RedactedEntity(redactor, entity))
    && (forall artifact | artifact in attached.artifacts :: RedactedArtifact(redactor, artifact))
  }

  ghost predicate LogRedacted(db: Db, redactor: Redactor) {
    forall i | 0 <= i < |db.events| :: RedactedEvent(redactor, db.events[i])
  }

  ghost predicate RevisionsRedacted(db: Db, redactor: Redactor) {
    forall at | at in db.revisions :: RedactedRevision(redactor, db.revisions[at])
  }

  ghost predicate KeysRedacted(db: Db, redactor: Redactor) {
    && (forall id | id in db.heads :: RedactedOption(redactor, db.heads[id].key))
    && (forall at | at in db.metadata :: RedactedOption(redactor, db.metadata[at].key))
  }

  ghost predicate AttachmentsRedacted(db: Db, redactor: Redactor) {
    forall at | at in db.attachments :: RedactedAttachments(redactor, db.attachments[at])
  }

  ghost predicate AllRedacted(db: Db, redactor: Redactor) {
    && LogRedacted(db, redactor) && RevisionsRedacted(db, redactor)
    && KeysRedacted(db, redactor) && AttachmentsRedacted(db, redactor)
  }

  // --- one memory write -------------------------------------------------

  // Every text of the request came out of the redactor.
  ghost predicate RequestRedacted(request: MemoryRequest, redactor: Redactor) {
    && Redacted(redactor, request.title) && Redacted(redactor, request.body)
    && RedactedAttributes(redactor, request.attributes) && RedactedOption(redactor, request.key)
    && (forall i | 0 <= i < |request.tags| :: Redacted(redactor, request.tags[i]))
    && (forall i | 0 <= i < |request.entities| ::
          && Redacted(redactor, request.entities[i].kind) && Redacted(redactor, request.entities[i].canonical)
          && Redacted(redactor, request.entities[i].display))
    && (forall i | 0 <= i < |request.artifacts| ::
          && Redacted(redactor, request.artifacts[i].repoId) && Redacted(redactor, request.artifacts[i].path)
          && RedactedOption(redactor, request.artifacts[i].symbol)
          && RedactedOption(redactor, request.artifacts[i].contentHash)
          && RedactedOption(redactor, request.artifacts[i].gitOid)
          && RedactedOption(redactor, request.artifacts[i].language))
  }

  lemma PreparedIsRedacted(redactor: Redactor, request: MemoryRequest)
    ensures RequestRedacted(PrepareMemory(redactor, request), redactor)
  {
    hide StoreAll, TagBefore, PreparedEntityBefore, Redacted, RedactedAttributes;
    IsRedacted(redactor);
    StoredAreGiven(RedactAll(redactor, request.tags), TagBefore);
    StoredAreGiven(RedactEntities(redactor, request.entities), PreparedEntityBefore);
    var prepared := PrepareMemory(redactor, request);
    forall i | 0 <= i < |prepared.tags| ensures Redacted(redactor, prepared.tags[i]) {
      assert prepared.tags[i] in RedactAll(redactor, request.tags);
    }
    forall i | 0 <= i < |prepared.entities|
      ensures Redacted(redactor, prepared.entities[i].kind) && Redacted(redactor, prepared.entities[i].canonical)
      ensures Redacted(redactor, prepared.entities[i].display)
    {
      var given := RedactEntities(redactor, request.entities);
      assert prepared.entities[i] in given;
      var j :| 0 <= j < |given| && given[j] == prepared.entities[i];
      assert given[j].kind == redactor.text(request.entities[j].kind);
    }
  }

  lemma IsRedacted(redactor: Redactor)
    ensures forall text :: Redacted(redactor, redactor.text(text))
    ensures forall given :: RedactedAttributes(redactor, redactor.attributes(given))
  {
  }

  lemma {:induction false} InsertedIsGiven<T>(rows: seq<T>, row: T, before: Order<T>)
    ensures forall x | x in InsertOrIgnore(rows, row, before) :: x in rows || x == row
  {
    if rows != [] { InsertedIsGiven(rows[1..], row, before); }
  }

  lemma {:induction false} StoredAreGiven<T>(items: seq<T>, before: Order<T>)
    ensures forall x | x in StoreAll(items, before) :: x in items
  {
    hide InsertOrIgnore;
    if items != [] {
      var n := |items| - 1;
      StoredAreGiven(items[..n], before);
      InsertedIsGiven(StoreAll(items[..n], before), items[n], before);
    }
  }

  lemma StoredIsRedacted(redactor: Redactor, request: MemoryRequest, event: EventId)
    requires RequestRedacted(request, redactor)
    ensures RedactedAttachments(
              redactor, Stored(request.tags, request.entities, request.artifacts, request.evidence, event))
  {
    hide StoreAll, Redacted, PortablePath, Strings.AsciiLower;
    StoredAreGiven(request.tags, TagBefore);
    StoredAreGiven(LowerEntities(request.entities), EntityBefore);
    StoredAreGiven(ArtifactRows(request.artifacts), ArtifactBefore);
    forall entity | entity in LowerEntities(request.entities) ensures RedactedEntity(redactor, entity) {
      var i :| 0 <= i < |request.entities| && LowerEntity(request.entities[i]) == entity;
      var given := Source(redactor, request.entities[i].canonical);
      assert Strings.AsciiLower(redactor.text(given)) == entity.canonical;
    }
    forall artifact | artifact in ArtifactRows(request.artifacts) ensures RedactedArtifact(redactor, artifact) {
      var i :| 0 <= i < |request.artifacts| && ArtifactRow(request.artifacts[i]) == artifact;
      var given := Source(redactor, request.artifacts[i].path);
      assert PortablePath(redactor.text(given)) == artifact.path;
    }
  }

  ghost function Source(redactor: Redactor, text: string): (given: string)
    requires Redacted(redactor, text)
    ensures redactor.text(given) == text
  {
    var given :| redactor.text(given) == text;
    given
  }

  lemma WriteKeepsRedacted(db: Db, redactor: Redactor, id: MemoryId, request: MemoryRequest, event: EventId)
    requires AllRedacted(db, redactor) && RequestRedacted(request, redactor)
    ensures AllRedacted(Written(db, id, request, event), redactor)
  {
    hide Written, Stored, Redacted, RedactedAttributes, RedactedEvent, RedactedAttachments, NextRevision, Settle;
    WrittenRows(db, id, request, event);
    WrittenHeads(db, id, request, event);
    KindsSettled(db, id, request, event);
    Provenance.NewAttachments(db, id, request, event);
    StoredIsRedacted(redactor, request, event);
  }

  lemma UpsertKeepsRedacted(
    db: Db, redactor: Redactor, request: MemoryRequest, event: EventId, generated: MemoryId)
    requires AllRedacted(db, redactor) && Upsert(db, PrepareMemory(redactor, request), event, generated).Ok?
    ensures AllRedacted(Upsert(db, PrepareMemory(redactor, request), event, generated).value.db, redactor)
  {
    hide AllRedacted, RequestRedacted, PrepareMemory, Upsert, Written;
    var prepared := PrepareMemory(redactor, request);
    Provenance.AcceptedParts(db, prepared, event, generated);
    PreparedIsRedacted(redactor, request);
    WriteKeepsRedacted(db, redactor, Upsert(db, prepared, event, generated).value.id, prepared, event);
  }

  lemma {:induction false} UpsertAllKeepsRedacted(
    db: Db, redactor: Redactor, requests: seq<MemoryRequest>, event: EventId, draws: nat -> MemoryId)
    requires AllRedacted(db, redactor) && UpsertAll(db, redactor, requests, event, draws).Ok?
    ensures AllRedacted(UpsertAll(db, redactor, requests, event, draws).value.db, redactor)
  {
    hide AllRedacted, Upsert, PrepareMemory;
    if requests != [] {
      var n := |requests| - 1;
      UpsertAllKeepsRedacted(db, redactor, requests[..n], event, draws);
      var before := UpsertAll(db, redactor, requests[..n], event, draws).value.db;
      UpsertKeepsRedacted(before, redactor, requests[n], event, draws(n + 1));
    }
  }

  // --- operations -------------------------------------------------------

  lemma LoggingKeepsRedacted(db: Db, redactor: Redactor, entry: Event)
    requires AllRedacted(db, redactor) && RedactedEvent(redactor, entry)
    ensures AllRedacted(Logged(db, entry), redactor)
  {
    hide RedactedEvent, RedactedRevision, RedactedOption, RedactedAttachments;
  }

  // The rows that hold texts.
  ghost predicate SameTexts(db: Db, after: Db) {
    && after.events == db.events && after.revisions == db.revisions && after.metadata == db.metadata
    && after.attachments == db.attachments && after.heads.Keys == db.heads.Keys
    && forall id | id in db.heads :: after.heads[id].key == db.heads[id].key
  }

  lemma SameTextsKeepRedacted(db: Db, after: Db, redactor: Redactor)
    requires AllRedacted(db, redactor) && SameTexts(db, after)
    ensures AllRedacted(after, redactor)
  {
    hide RedactedEvent, RedactedRevision, RedactedOption, RedactedAttachments;
  }

  lemma PutKeepsTexts(db: Db, key: Option<IdempotencyKey>, fingerprint: Fingerprint, receipt: Receipt)
    ensures SameTexts(db, PutIdempotent(db, key, fingerprint, receipt))
  {
  }

  lemma RetractionKeepsTexts(db: Db, id: MemoryId, event: EventId)
    requires id in db.heads
    ensures SameTexts(db, WithRetraction(db, id, event))
  {
  }

  lemma ObserveKeepsRedacted(db: Db, redactor: Redactor, request: ObserveRequest, generated: EventId)
    requires AllRedacted(db, redactor)
    ensures AllRedacted(ObserveStep(db, redactor, request, generated).db, redactor)
  {
    hide AllRedacted, HasEvent, GetIdempotent, PutIdempotent, ObserveStep, ScopedIdempotencyKey, SameTexts,
      ObserveFingerprintOf;
    ObserveOutcome(db, redactor, request, generated);
    var entry := ObserveEntry(redactor, request, generated);
    assert redactor.text(request.content) == entry.content;
    assert redactor.attributes(request.attributes) == entry.attributes;
    LoggingKeepsRedacted(db, redactor, entry);
    var key := ScopedIdempotencyKey(ObserveOperation, request.scope, request.idempotencyKey);
    var fingerprint := ObserveFingerprintOf(PrepareObserve(redactor, request));
    var receipt := Receipt(entry.id, [], |db.events| + 1, false);
    PutKeepsTexts(Logged(db, entry), key, fingerprint, receipt);
    SameTextsKeepRedacted(Logged(db, entry), PutIdempotent(Logged(db, entry), key, fingerprint, receipt), redactor);
  }

  lemma RetractKeepsRedacted(db: Db, redactor: Redactor, request: RetractRequest, event: EventId)
    requires AllRedacted(db, redactor)
    ensures AllRedacted(RetractStep(db, redactor, request, event).db, redactor)
  {
    hide AllRedacted, HasEvent, GetIdempotent, PutIdempotent, RetractStep, RetractKeyOf, WithRetraction, HeadScope,
      SameTexts;
    RetractOutcome(db, redactor, request, event);
    var id := request.memoryId;
    if RetractStep(db, redactor, request, event).db != db {
      var entry := RetractEntry(HeadScope(db, id).value, redactor.text(request.reason), event);
      assert redactor.text(request.reason) == entry.content;
      LoggingKeepsRedacted(db, redactor, entry);
      var retracted := WithRetraction(Logged(db, entry), id, event);
      RetractionKeepsTexts(Logged(db, entry), id, event);
      SameTextsKeepRedacted(Logged(db, entry), retracted, redactor);
      var receipt := Receipt(event, [id], |Logged(db, entry).events|, false);
      var key, fingerprint := RetractKeyOf(db, request), RetractFingerprint(id, redactor.text(request.reason));
      PutKeepsTexts(retracted, key, fingerprint, receipt);
      SameTextsKeepRedacted(retracted, PutIdempotent(retracted, key, fingerprint, receipt), redactor);
    }
  }

  lemma ReceiptAside(db: Db, after: Db, redactor: Redactor)
    requires after == db.(idempotency := after.idempotency) && AllRedacted(db, redactor)
    ensures AllRedacted(after, redactor)
  {
    hide AllRedacted;
    SameTextsKeepRedacted(db, after, redactor);
  }

  lemma RememberKeepsRedacted(
    db: Db, redactor: Redactor, request: RememberRequest, event: EventId, generated: MemoryId)
    requires AllRedacted(db, redactor)
    ensures AllRedacted(RememberStep(db, redactor, request, event, generated).db, redactor)
  {
    hide AllRedacted, GetIdempotent, HasEvent, ValidateEvidence, ValidateLinks, Upsert, PrepareMemory, Scope.Durable,
      RememberFingerprintOf, MemoryFits, RedactedEvent;
    var prepared := PrepareMemory(redactor, request.memory);
    var entry := Event(event, ExplicitMemory, prepared.scope, prepared.body, prepared.attributes);
    PreparedEvent(redactor, request.memory, event);
    LoggingKeepsRedacted(db, redactor, entry);
    var written := Upsert(Logged(db, entry), prepared, event, generated);
    if written.Ok? {
      UpsertKeepsRedacted(Logged(db, entry), redactor, request.memory, event, generated);
      var after := RememberStep(db, redactor, request, event, generated).db;
      if after != db { ReceiptAside(written.value.db, after, redactor); }
    }
  }

  lemma PreparedEvent(redactor: Redactor, request: MemoryRequest, event: EventId)
    ensures var prepared := PrepareMemory(redactor, request);
            RedactedEvent(redactor, Event(event, ExplicitMemory, prepared.scope, prepared.body, prepared.attributes))
  {
    hide PrepareMemory;
    PreparedIsRedacted(redactor, request);
  }

  lemma CheckpointEvent(redactor: Redactor, request: CheckpointRequest, event: EventId)
    ensures var safe := RedactCheckpoint(redactor, request);
            RedactedEvent(
              redactor, Event(event, Checkpoint, safe.scope, safe.summary, CheckpointAttributes(redactor, safe)))
  {
    assert redactor.text(request.summary) == RedactCheckpoint(redactor, request).summary;
  }

  lemma CheckpointKeepsRedacted(
    db: Db, redactor: Redactor, request: CheckpointRequest, event: EventId, draws: nat -> MemoryId)
    requires AllRedacted(db, redactor)
    ensures AllRedacted(CheckpointStep(db, redactor, request, event, draws).db, redactor)
  {
    hide AllRedacted, GetIdempotent, HasEvent, RedactCheckpoint, ValidateEvidence, Upsert, UpsertAll, PrepareMemory,
      EpisodeRequest, MemberRequests, CheckpointAttributes, CheckpointFingerprintOf, Scope.Durable, CheckpointFits,
      MemoryFits, RedactedEvent;
    var safe := RedactCheckpoint(redactor, request);
    if CheckpointWrites(db, redactor, safe, event, draws).Ok? {
      var entry := Event(event, Checkpoint, safe.scope, safe.summary, CheckpointAttributes(redactor, safe));
      var logged := Logged(db, entry);
      CheckpointEvent(redactor, request, event);
      LoggingKeepsRedacted(db, redactor, entry);
      UpsertKeepsRedacted(logged, redactor, EpisodeRequest(safe), event, draws(0));
      var episode := Upsert(logged, PrepareMemory(redactor, EpisodeRequest(safe)), event, draws(0)).value;
      UpsertAllKeepsRedacted(episode.db, redactor, MemberRequests(safe, episode.id), event, draws);
      var after := CheckpointStep(db, redactor, request, event, draws).db;
      if after != db {
        ReceiptAside(CheckpointWrites(db, redactor, safe, event, draws).value.db, after, redactor);
      }
    }
  }

  // Steps that only touch derived tables.
  lemma DerivedStepsKeepTexts(db: Db, redactor: Redactor, op: Op)
    requires Inv(db) && (op.RegisterProfileOp? || op.RemoveProfileOp? || op.RegisterOp? || op.RebuildOp?)
    ensures SameTexts(db, Apply(db, redactor, op))
  {
    hide Inv, SearchIndex.RegisterAll, SearchIndex.Rebuilt, SearchIndex.Malformed, SearchIndex.Repeats, ObserveStep,
      RetractStep, RememberStep, CheckpointStep;
    if op.RegisterOp? {
      if SearchIndex.RegisterSpec(db, op.profile, op.settings, op.durable, op.inputs).Ok? {
        SearchIndex.RegisterAllKeeps(db, op.profile, op.durable, op.inputs);
      }
    } else if op.RebuildOp? {
      RebuildKeepsInv(db);
    }
  }

  lemma ApplyKeepsRedacted(db: Db, redactor: Redactor, op: Op)
    requires Inv(db) && AllRedacted(db, redactor)
    ensures AllRedacted(Apply(db, redactor, op), redactor)
  {
    hide Inv, AllRedacted, ObserveStep, RetractStep, RememberStep, CheckpointStep, SameTexts,
      SearchIndex.RegisterSpec, SearchIndex.Rebuilt, SearchIndex.RegisterProfile, SearchIndex.RemoveProfile;
    match op {
      case ObserveOp(request, event) => ObserveKeepsRedacted(db, redactor, request, event);
      case RememberOp(request, event, generated) => RememberKeepsRedacted(db, redactor, request, event, generated);
      case CheckpointOp(request, event, draws) => CheckpointKeepsRedacted(db, redactor, request, event, draws);
      case RetractOp(request, event) => RetractKeepsRedacted(db, redactor, request, event);
      case _ =>
        DerivedStepsKeepTexts(db, redactor, op);
        SameTextsKeepRedacted(db, Apply(db, redactor, op), redactor);
    }
  }

  // In every run, all logged and recorded text, all attributes, keys and
  // attachments are what the redactor made of something.
  lemma {:induction false} RunKeepsRedacted(db: Db, redactor: Redactor, ops: seq<Op>)
    requires Inv(db) && AllRedacted(db, redactor)
    ensures Inv(Run(db, redactor, ops)) && AllRedacted(Run(db, redactor, ops), redactor)
  {
    hide Inv, AllRedacted, Apply, Extends;
    if ops != [] {
      var front := ops[..|ops| - 1];
      RunKeepsRedacted(db, redactor, front);
      ApplyKeeps(Run(db, redactor, front), redactor, ops[|ops| - 1]);
      ApplyKeepsRedacted(Run(db, redactor, front), redactor, ops[|ops| - 1]);
    }
  }

  lemma ReachableRedacted(db: Db, redactor: Redactor)
    requires Reachable(db, redactor)
    ensures AllRedacted(db, redactor)
  {
    hide Inv, Run;
    EmptyInv();
    var ops :| db == Run(EMPTY, redactor, ops);
    RunKeepsRedacted(EMPTY, redactor, ops);
  }

  // When redacting twice is redacting once, nothing that is stored contains
  // anything left to redact.
  lemma NothingLeftToRedact(db: Db, redactor: Redactor)
    requires Reachable(db, redactor)
    requires forall text :: redactor.text(redactor.text(text)) == redactor.text(text)
    ensures forall i | 0 <= i < |db.events| :: redactor.text(db.events[i].content) == db.events[i].content
    ensures forall at | at in db.revisions ::
              && redactor.text(db.revisions[at].title) == db.revisions[at].title
              && redactor.text(db.revisions[at].body) == db.revisions[at].body
    ensures forall id | id in db.heads && db.heads[id].key.Some? ::
              redactor.text(db.heads[id].key.value) == db.heads[id].key.value
    ensures forall at, tag | at in db.attachments && tag in db.attachments[at].tags :: redactor.text(tag) == tag
  {
    hide Reachable, RedactedAttributes, RedactedEntity, RedactedArtifact;
    ReachableRedacted(db, redactor);
  }
}
