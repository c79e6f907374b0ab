// Runs of the engine, and what every later store still contains of an earlier one.
module Extension {
  import opened Basics
  import opened Domain
  import opened Database
  import opened Ledger
  import SearchIndex

  // Identifiers drawn by an operation are part of it.
  datatype Op =
    | ObserveOp(observe: ObserveRequest, event: EventId)
    | RememberOp(remember: RememberRequest, event: EventId, generated: MemoryId)
    | CheckpointOp(checkpoint: CheckpointRequest, event: EventId, draws: nat -> MemoryId)
    | RetractOp(retract: RetractRequest, event: EventId)
    | RegisterProfileOp(profile: string, settings: Profile)
    | RemoveProfileOp(profile: string)
    | RegisterOp(profile: string, settings: Profile, durable: DurableScope, inputs: seq<SearchIndex.ProjectionInput>)
    | RebuildOp

  ghost function Apply(db: Db, redactor: Redactor, op: Op): Db {
    match op
    case ObserveOp(request, event) => ObserveStep(db, redactor, request, event).db
    case RememberOp(request, event, generated) => RememberStep(db, redactor, request, event, generated).db
    case CheckpointOp(request, event, draws) => CheckpointStep(db, redactor, request, event, draws).db
    case RetractOp(request, event) => RetractStep(db, redactor, request, event).db
    case RegisterProfileOp(id, settings) =>
      var r := SearchIndex.RegisterProfile(db, id, settings);
      if r.Ok? then r.value else db
    case RemoveProfileOp(id) => SearchIndex.RemoveProfile(db, id)
    case RegisterOp(id, settings, durable, inputs) =>
      var r := SearchIndex.RegisterSpec(db, id, settings, durable, inputs);
      if r.Ok? then r.value.db else db
    case RebuildOp =>
      var r := SearchIndex.Rebuilt(db);
      if r.Ok? then r.value else db
  }

  ghost function Run(db: Db, redactor: Redactor, ops: seq<Op>): Db {
    if ops == [] then db
    else Apply(Run(db, redactor, ops[..|ops| - 1]), redactor, ops[|ops| - 1])
  }

  lemma RunStep(db: Db, redactor: Redactor, ops: seq<Op>, op: Op)
    ensures Run(db, redactor, ops + [op]) == Apply(Run(db, redactor, ops), redactor, op)
  {
    assert (ops + [op])[..|ops|] == ops;
  }

  // --- append-only tables -----------------------------------------------

  ghost predicate LogGrows(s: Db, t: Db) {
    s.events <= t.events
  }

  // Metadata of a revision never changes; new rows are complete.
  ghost predicate MetadataGrows(s: Db, t: Db) {
    && (forall at | at in s.metadata :: at in t.metadata && t.metadata[at] == s.metadata[at])
    && (forall at | at in t.metadata && at !in s.metadata :: t.metadata[at].complete)
  }

  // Recorded revisions never change; new ones are recorded after `s`.
  ghost predicate RevisionsGrow(s: Db, t: Db) {
    && (forall at | at in s.revisions :: at in t.revisions && t.revisions[at] == s.revisions[at])
    && MetadataGrows(s, t)
    && (forall at | at in s.attachments :: at in t.attachments && t.attachments[at] == s.attachments[at])
    && (forall at | at in t.revisions && at !in s.revisions :: t.revisions[at].recordedSeq > |s.events|)
  }

  ghost predicate LedgersGrow(s: Db, t: Db) {
    && s.links <= t.links
    && (forall row | row in t.links && row !in s.links :: SeqOf(t.events, row.event) > |s.events|)
    && s.associations <= t.associations
    && (forall a | a in t.associations && a !in s.associations :: SeqOf(t.events, a.event) > |s.events|)
  }

  // A memory keeps its scope and kind, and stays retracted once it is.
  ghost predicate HeadsPersist(s: Db, t: Db) {
    forall id | id in s.heads ::
      && id in t.heads
      && t.heads[id].durable == s.heads[id].durable && t.heads[id].kind == s.heads[id].kind
      && t.heads[id].createdSeq == s.heads[id].createdSeq
      && (s.heads[id].state == Retracted ==> t.heads[id].state == Retracted)
  }

  ghost predicate ReceiptsPersist(s: Db, t: Db) {
    forall key | key in s.idempotency :: key in t.idempotency && t.idempotency[key] == s.idempotency[key]
  }

  ghost predicate Extends(s: Db, t: Db) {
    LogGrows(s, t) && RevisionsGrow(s, t) && LedgersGrow(s, t) && HeadsPersist(s, t) && ReceiptsPersist(s, t)
  }

  // A logged event keeps its sequence number.
  lemma SeqOfPersists(s: seq<Event>, t: seq<Event>, id: EventId)
    requires s <= t && SeqOf(s, id) > 0
    requires forall i, j | 0 <= i < j < |t| :: t[i].id != t[j].id
    ensures SeqOf(t, id) == SeqOf(s, id)
  {
    var i, j := SeqOf(s, id) - 1, SeqOf(t, id) - 1;
    assert t[i] == s[i];
  }

  lemma ExtendsReflexive(s: Db)
    ensures Extends(s, s)
  {
  }

  lemma LedgersGrowTransitive(s: Db, t: Db, u: Db)
    requires LedgersGrow(s, t) && LedgersGrow(t, u) && LogGrows(s, t) && LogGrows(t, u) && EventsDistinct(u)
    ensures LedgersGrow(s, u)
  {
    hide SeqOf;
    forall row | row in u.links && row !in s.links ensures SeqOf(u.events, row.event) > |s.events| {
      if row in t.links { SeqOfPersists(t.events, u.events, row.event); }
    }
    forall a | a in u.associations && a !in s.associations ensures SeqOf(u.events, a.event) > |s.events| {
      if a in t.associations { SeqOfPersists(t.events, u.events, a.event); }
    }
  }

  lemma ExtendsTransitive(s: Db, t: Db, u: Db)
    requires Extends(s, t) && Extends(t, u) && EventsDistinct(u)
    ensures Extends(s, u)
  {
    hide LedgersGrow, SeqOf;
    LedgersGrowTransitive(s, t, u);
  }

  // --- steps extend -----------------------------------------------------

  lemma LoggingExtends(db: Db, event: Event)
    requires Inv(db) && !HasEvent(db, event.id)
    ensures Extends(db, Logged(db, event))
  {
    hide Inv;
  }

  lemma WriteGrowsMetadata(s: Db, db: Db, id: MemoryId, request: MemoryRequest, event: EventId)
    requires MetadataGrows(s, db) && RevisionsNumbered(db)
    ensures MetadataGrows(s, Written(db, id, request, event))
  {
    hide Written, NextRevision;
    WrittenRevisions(db, id, request, event);
  }

  lemma WriteGrowsRevisions(s: Db, db: Db, id: MemoryId, request: MemoryRequest, event: EventId)
    requires RevisionsGrow(s, db) && RevisionsNumbered(db) && |s.events| < |db.events|
    ensures RevisionsGrow(s, Written(db, id, request, event))
  {
    hide Written, NextRevision, MetadataGrows;
    WriteGrowsMetadata(s, db, id, request, event);
    WrittenRevisions(db, id, request, event);
  }

  lemma WriteGrowsLedgers(s: Db, db: Db, id: MemoryId, request: MemoryRequest, event: EventId)
    requires LedgersGrow(s, db) && SeqOf(db.events, event) > |s.events|
    ensures LedgersGrow(s, Written(db, id, request, event))
  {
    hide Written, SeqOf;
    WrittenLedgers(db, id, request, event);
    WrittenOrigin(db, id, request, event);
  }

  lemma WriteKeepsHeadsPersistent(s: Db, db: Db, id: MemoryId, request: MemoryRequest, event: EventId)
    requires HeadsPersist(s, db) && Writable(db, id, request, event)
    ensures HeadsPersist(s, Written(db, id, request, event))
  {
    hide Written, SeqOf, IsLifecycle, Effect, Scope.Durable;
    WrittenHeads(db, id, request, event);
    KindsSettled(db, id, request, event);
    WrittenOrigin(db, id, request, event);
  }

  // A write belongs to the current event, which is later than `s`.
  lemma WriteExtends(s: Db, db: Db, id: MemoryId, request: MemoryRequest, event: EventId)
    requires Extends(s, db) && RevisionsNumbered(db) && Writable(db, id, request, event) && |s.events| < |db.events|
    ensures Extends(s, Written(db, id, request, event))
  {
    hide Written, RevisionsGrow, LedgersGrow, HeadsPersist, RevisionsNumbered, IsLifecycle, HeadRecorded, Scope.Durable;
    WriteGrowsRevisions(s, db, id, request, event);
    WriteGrowsLedgers(s, db, id, request, event);
    WriteKeepsHeadsPersistent(s, db, id, request, event);
    WrittenOrigin(db, id, request, event);
  }

  lemma WrittenOrigin(db: Db, id: MemoryId, request: MemoryRequest, event: EventId)
    ensures id in db.heads ==> Written(db, id, request, event).heads[id].createdSeq == db.heads[id].createdSeq
    ensures Written(db, id, request, event).idempotency == db.idempotency
    ensures Written(db, id, request, event).events == db.events
  {
    hide LinkRows, TargetAssociations, Affects, AnyContests, Scope.Durable;
  }

  lemma WrittenLedgers(db: Db, id: MemoryId, request: MemoryRequest, event: EventId)
    ensures var after := Written(db, id, request, event);
            && db.links <= after.links && (forall row | row in after.links && row !in db.links :: row.event == event)
            && db.associations <= after.associations
            && (forall a | a in after.associations && a !in db.associations :: a.event == event)
  {
    hide SettleAll, Scope.Durable;
  }

  lemma WrittenRevisions(db: Db, id: MemoryId, request: MemoryRequest, event: EventId)
    requires RevisionsNumbered(db)
    ensures var after, at := Written(db, id, request, event), RevisionId(id, NextRevision(db, id));
            && at !in db.revisions && at !in db.metadata && at !in db.attachments
            && (forall other | other != at ::
                  && (other in after.revisions <==> other in db.revisions)
                  && (other in db.revisions ==> after.revisions[other] == db.revisions[other])
                  && (other in after.metadata <==> other in db.metadata)
                  && (other in db.metadata ==> after.metadata[other] == db.metadata[other])
                  && (other in db.attachments ==>
                        other in after.attachments && after.attachments[other] == db.attachments[other]))
            && at in after.revisions && after.revisions[at].recordedSeq == |db.events|
            && at in after.metadata && after.metadata[at].complete
  {
    hide SettleAll, Scope.Durable, LinkRows, TargetAssociations;
  }

  lemma UpsertExtends(s: Db, db: Db, request: MemoryRequest, event: EventId, generated: MemoryId)
    requires Extends(s, db) && RevisionsNumbered(db) && CurrentEvent(db, event) && ReachesOlder(db, request)
    requires |s.events| < |db.events| && Upsert(db, request, event, generated).Ok?
    ensures Extends(s, Upsert(db, request, event, generated).value.db)
  {
    hide Extends, Upsert, Writable, RevisionsNumbered, CurrentEvent, ReachesOlder;
    UpsertIsWritable(db, request, event, generated);
    WriteExtends(s, db, Upsert(db, request, event, generated).value.id, request, event);
  }

  lemma PutExtends(s: Db, db: Db, key: Option<IdempotencyKey>, fingerprint: Fingerprint, receipt: Receipt)
    requires Extends(s, db) && (key.Some? ==> key.value !in db.idempotency)
    ensures Extends(s, PutIdempotent(db, key, fingerprint, receipt))
  {
    hide SeqOf;
  }

  ghost function ObserveEntry(redactor: Redactor, request: ObserveRequest, generated: EventId): Event {
    var prepared := PrepareObserve(redactor, request);
    Event(if request.eventId.Some? then request.eventId.value else generated,
          request.kind, request.scope, prepared.content, prepared.attributes)
  }

  lemma ObserveOutcome(db: Db, redactor: Redactor, request: ObserveRequest, generated: EventId)
    ensures var after, entry := ObserveStep(db, redactor, request, generated).db,
        ObserveEntry(redactor, request, generated);
            var key := ScopedIdempotencyKey(ObserveOperation, request.scope, request.idempotencyKey);
            var fingerprint := ObserveFingerprintOf(PrepareObserve(redactor, request));
            || after == db
            || (&& !HasEvent(db, entry.id) && GetIdempotent(db, key, fingerprint) == Ok(None)
                && after == PutIdempotent(Logged(db, entry), key, fingerprint,
                      Receipt(entry.id, [], |db.events| + 1, false)))
  {
    hide HasEvent, GetIdempotent, PutIdempotent, ScopedIdempotencyKey, ObserveFingerprintOf;
  }

  lemma ObserveExtends(db: Db, redactor: Redactor, request: ObserveRequest, generated: EventId)
    requires Inv(db)
    ensures Extends(db, ObserveStep(db, redactor, request, generated).db)
  {
    hide Inv, Extends, HasEvent, GetIdempotent, PutIdempotent, ObserveStep, ObserveEntry, ObserveFingerprintOf,
      PrepareObserve, ScopedIdempotencyKey;
    ExtendsReflexive(db);
    ObserveOutcome(db, redactor, request, generated);
    if ObserveStep(db, redactor, request, generated).db != db {
      var entry := ObserveEntry(redactor, request, generated);
      var key := ScopedIdempotencyKey(ObserveOperation, request.scope, request.idempotencyKey);
      var fingerprint := ObserveFingerprintOf(PrepareObserve(redactor, request));
      LoggingExtends(db, entry);
      KeyFree(db, key, fingerprint);
      PutExtends(db, Logged(db, entry), key, fingerprint, Receipt(entry.id, [], |db.events| + 1, false));
    }
  }

  lemma RememberExtends(db: Db, redactor: Redactor, request: RememberRequest, event: EventId, generated: MemoryId)
    requires Inv(db)
    ensures Extends(db, RememberStep(db, redactor, request, event, generated).db)
  {
    hide Inv, HasEvent, ValidateEvidence, ValidateLinks, Upsert, PrepareMemory, Scope.Durable, CurrentEvent,
      ReachesOlder, Extends;
    ExtendsReflexive(db);
    var prepared := PrepareMemory(redactor, request.memory);
    var key := ScopedIdempotencyKey(RememberOperation, prepared.scope, request.idempotencyKey);
    var entry := Event(event, ExplicitMemory, prepared.scope, prepared.body, prepared.attributes);
    if !HasEvent(db, event) && GetIdempotent(db, key, RememberFingerprintOf(prepared)) == Ok(None) {
      var logged := Logged(db, entry);
      LoggingExtends(db, entry);
      InsertEventKeepsInv(db, entry);
      JustLogged(db, entry);
      HeadsAreOlder(db, entry, prepared);
      var written := Upsert(logged, prepared, event, generated);
      if written.Ok? {
        NumberedInv(logged);
        UpsertExtends(db, logged, prepared, event, generated);
        SameReceipts(logged, prepared, event, generated);
        PutExtends(db, written.value.db, key, RememberFingerprintOf(prepared),
                   Receipt(event, [written.value.id], |written.value.db.events|, false));
      }
    }
  }

  lemma NumberedInv(db: Db)
    requires Inv(db)
    ensures RevisionsNumbered(db) && EventsDistinct(db)
  {
  }

  lemma SameReceipts(db: Db, request: MemoryRequest, event: EventId, generated: MemoryId)
    requires Upsert(db, request, event, generated).Ok?
    ensures Upsert(db, request, event, generated).value.db.idempotency == db.idempotency
    ensures Upsert(db, request, event, generated).value.db.events == db.events
  {
    hide SettleAll, LinkRows, TargetAssociations, ValidateEvidence, ValidateLinks, CheckLinks, Existing, Scope.Durable;
  }

  lemma {:induction false} UpsertAllExtends(
    s: Db, db: Db, redactor: Redactor, requests: seq<MemoryRequest>, event: EventId, draws: nat -> MemoryId)
    requires Inv(db) && Extends(s, db) && CurrentEvent(db, event) && |s.events| < |db.events|
    requires forall i | 0 <= i < |requests| :: Quiet(PrepareMemory(redactor, requests[i]))
    requires UpsertAll(db, redactor, requests, event, draws).Ok?
    ensures Extends(s, UpsertAll(db, redactor, requests, event, draws).value.db)
    ensures UpsertAll(db, redactor, requests, event, draws).value.db.idempotency == db.idempotency
  {
    hide Inv, Extends, Upsert, PrepareMemory;
    if requests != [] {
      var n := |requests| - 1;
      UpsertAllExtends(s, db, redactor, requests[..n], event, draws);
      UpsertAllKeepsInv(db, redactor, requests[..n], event, draws);
      var before := UpsertAll(db, redactor, requests[..n], event, draws).value;
      NumberedInv(before.db);
      UpsertExtends(s, before.db, PrepareMemory(redactor, requests[n]), event, draws(n + 1));
      SameReceipts(before.db, PrepareMemory(redactor, requests[n]), event, draws(n + 1));
    }
  }

  lemma CheckpointWritesExtend(
    db: Db, redactor: Redactor, safe: CheckpointRequest, event: EventId, draws: nat -> MemoryId)
    requires Inv(db) && CheckpointWrites(db, redactor, safe, event, draws).Ok?
    ensures Extends(db, CheckpointWrites(db, redactor, safe, event, draws).value.db)
    ensures CheckpointWrites(db, redactor, safe, event, draws).value.db.idempotency == db.idempotency
  {
    hide Inv, HasEvent, Extends, ValidateEvidence, Upsert, UpsertAll, PrepareMemory, EpisodeRequest, MemberRequests,
      CheckpointAttributes, CurrentEvent;
    var entry := Event(event, Checkpoint, safe.scope, safe.summary, CheckpointAttributes(redactor, safe));
    var logged := Logged(db, entry);
    LoggingExtends(db, entry);
    InsertEventKeepsInv(db, entry);
    JustLogged(db, entry);
    NumberedInv(logged);
    var first := PrepareMemory(redactor, EpisodeRequest(safe));
    var episode := Upsert(logged, first, event, draws(0)).value;
    MembersAreQuiet(redactor, safe, episode.id);
    UpsertExtends(db, logged, first, event, draws(0));
    SameReceipts(logged, first, event, draws(0));
    UpsertKeepsInv(logged, first, event, draws(0));
    SameLogSameEvent(logged, episode.db, event);
    UpsertAllExtends(db, episode.db, redactor, MemberRequests(safe, episode.id), event, draws);
  }

  lemma CheckpointExtends(
    db: Db, redactor: Redactor, request: CheckpointRequest, event: EventId, draws: nat -> MemoryId)
    requires Inv(db)
    ensures Extends(db, CheckpointStep(db, redactor, request, event, draws).db)
  {
    hide Inv, Extends, CheckpointWrites, RedactCheckpoint, Scope.Durable;
    ExtendsReflexive(db);
    var safe := RedactCheckpoint(redactor, request);
    var written := CheckpointWrites(db, redactor, safe, event, draws);
    var key := ScopedIdempotencyKey(CheckpointOperation, request.scope, request.idempotencyKey);
    if written.Ok? && GetIdempotent(db, key, CheckpointFingerprintOf(safe)) == Ok(None) {
      CheckpointWritesExtend(db, redactor, safe, event, draws);
      PutExtends(db, written.value.db, key, CheckpointFingerprintOf(safe),
                 Receipt(event, written.value.ids, |written.value.db.events|, false));
    }
  }

  lemma RetractionExtends(s: Db, db: Db, id: MemoryId, event: EventId)
    requires Extends(s, db) && id in db.heads && SeqOf(db.events, event) > |s.events|
    ensures Extends(s, WithRetraction(db, id, event))
  {
    RetractionRows(db, id, event);
    RetractedHeads(s, db, id, event);
    RetractedLedgers(s, db, id, event);
    hide SeqOf, WithRetraction, LedgersGrow, HeadsPersist;
  }

  lemma RetractionRows(db: Db, id: MemoryId, event: EventId)
    requires id in db.heads
    ensures var after := WithRetraction(db, id, event);
            && after.events == db.events && after.revisions == db.revisions && after.metadata == db.metadata
            && after.attachments == db.attachments && after.idempotency == db.idempotency
  {
  }

  lemma RetractedHeads(s: Db, db: Db, id: MemoryId, event: EventId)
    requires HeadsPersist(s, db) && id in db.heads
    ensures HeadsPersist(s, WithRetraction(db, id, event))
  {
  }

  lemma RetractedLedgers(s: Db, db: Db, id: MemoryId, event: EventId)
    requires LedgersGrow(s, db) && id in db.heads && SeqOf(db.events, event) > |s.events|
    ensures LedgersGrow(s, WithRetraction(db, id, event))
  {
    hide SeqOf;
  }

  function RetractEntry(scope: Scope, reason: string, event: EventId): Event {
    Event(event, Lifecycle, scope, reason, NO_ATTRIBUTES)
  }

  function RetractKeyOf(db: Db, request: RetractRequest): Option<IdempotencyKey>
    requires request.memoryId in db.heads
  {
    if request.idempotencyKey.None? then None
    else Some(RetractKey(db.heads[request.memoryId].durable.key.namespace, request.memoryId,
        request.idempotencyKey.value))
  }

  // A retraction changes nothing, or it logs its event and retracts the head.
  lemma RetractOutcome(db: Db, redactor: Redactor, request: RetractRequest, event: EventId)
    ensures var after, id, reason := RetractStep(db, redactor, request, event).db, request.memoryId,
        redactor.text(request.reason);
            || after == db
            || (&& id in db.heads && HeadScope(db, id).Some? && !HasEvent(db, event)
                && (var logged := Logged(db, RetractEntry(HeadScope(db, id).value, reason, event));
                    && GetIdempotent(db, RetractKeyOf(db, request), RetractFingerprint(id, reason)) == Ok(None)
                    && after == PutIdempotent(
                         WithRetraction(logged, id, event), RetractKeyOf(db, request), RetractFingerprint(id, reason),
                         Receipt(event, [id], |logged.events|, false))))
  {
    hide HasEvent, WithRetraction, GetIdempotent, PutIdempotent, Scope.Durable, HeadScope;
  }

  lemma RetractExtends(db: Db, redactor: Redactor, request: RetractRequest, event: EventId)
    requires Inv(db)
    ensures Extends(db, RetractStep(db, redactor, request, event).db)
  {
    hide Inv, Extends, HasEvent, WithRetraction, GetIdempotent, PutIdempotent, HeadScope, RetractStep, RetractKeyOf,
      SeqOf;
    ExtendsReflexive(db);
    RetractOutcome(db, redactor, request, event);
    if RetractStep(db, redactor, request, event).db != db {
      var id, reason := request.memoryId, redactor.text(request.reason);
      var entry := RetractEntry(HeadScope(db, id).value, reason, event);
      var logged := Logged(db, entry);
      LoggingExtends(db, entry);
      SeqOfAppend(db.events, entry);
      RetractionExtends(db, logged, id, event);
      RetractedReceipts(logged, id, event);
      KeyFree(db, RetractKeyOf(db, request), RetractFingerprint(id, reason));
      PutExtends(db, WithRetraction(logged, id, event), RetractKeyOf(db, request), RetractFingerprint(id, reason),
                 Receipt(event, [id], |logged.events|, false));
    }
  }

  lemma KeyFree(db: Db, key: Option<IdempotencyKey>, fingerprint: Fingerprint)
    requires GetIdempotent(db, key, fingerprint) == Ok(None)
    ensures key.Some? ==> key.value !in db.idempotency
  {
  }

  lemma RetractedReceipts(db: Db, id: MemoryId, event: EventId)
    requires id in db.heads
    ensures WithRetraction(db, id, event).idempotency == db.idempotency
  {
  }

  lemma SameCanonExtends(db: Db, after: Db)
    requires SameCanon(db, after) && after.idempotency == db.idempotency
    ensures Extends(db, after)
  {
    hide SeqOf;
  }

  // --- derived operations -----------------------------------------------

  lemma FewerProjections(db: Db, after: Db)
    requires Inv(db) && after == db.(profiles := after.profiles, projections := after.projections)
    requires forall key | key in after.projections ::
               && key in db.projections && after.projections[key] == db.projections[key]
               && key.profile in after.profiles
    ensures Inv(after) && Extends(db, after)
  {
    hide EventsDistinct, RevisionsNumbered, RevisionsOrdered, HeadsRecorded, MetadataKinds, LinksGrounded,
      AssociationsGrounded, LedgerDeterminesState, Extends, SeqOf, Scope.Durable, HashOf;
    CanonKeepsInv(db, after);
    SameCanonExtends(db, after);
  }

  lemma RegisterProfileKeepsInv(db: Db, id: string, settings: Profile)
    requires Inv(db)
    ensures var registered := SearchIndex.RegisterProfile(db, id, settings);
            registered.Ok? ==> Inv(registered.value) && Extends(db, registered.value)
  {
    hide Inv, Extends;
    if id in db.profiles {
      ExtendsReflexive(db);
    } else {
      ProfilesKnown(db);
      FewerProjections(db, db.(profiles := db.profiles[id := settings]));
    }
  }

  lemma RemoveProfileKeepsInv(db: Db, id: string)
    requires Inv(db)
    ensures Inv(SearchIndex.RemoveProfile(db, id)) && Extends(db, SearchIndex.RemoveProfile(db, id))
  {
    hide Inv, Extends;
    ProfilesKnown(db);
    var removed := SearchIndex.RemoveProfile(db, id);
    FewerProjections(db, removed);
  }

  lemma ProfilesKnown(db: Db)
    requires Inv(db)
    ensures forall key | key in db.projections :: key.profile in db.profiles
  {
    hide EventsDistinct, RevisionsNumbered, RevisionsOrdered, HeadsRecorded, MetadataKinds, LinksGrounded,
      AssociationsGrounded, LedgerDeterminesState, ReceiptsGrounded, HashOf;
  }

  lemma RebuildKeepsInv(db: Db)
    requires Inv(db)
    ensures SearchIndex.Rebuilt(db) == Ok(db)
  {
    hide EventsDistinct, RevisionsOrdered, HeadsRecorded, MetadataKinds, LinksGrounded, AssociationsGrounded,
      LedgerDeterminesState, ProjectionsCurrentOnce, ReceiptsGrounded;
    SearchIndex.RebuiltCovers(db,
        SearchIndex.WithCoverage(db.(fts := map[], aliases := map[]), SearchIndex.Indexable(db)));
  }

  // Every operation keeps the invariant and extends the store.
  lemma ApplyKeeps(db: Db, redactor: Redactor, op: Op)
    requires Inv(db)
    ensures Inv(Apply(db, redactor, op)) && Extends(db, Apply(db, redactor, op))
  {
    hide Inv, Extends, ObserveStep, RememberStep, CheckpointStep, RetractStep, SearchIndex.RegisterProfile,
      SearchIndex.RemoveProfile, SearchIndex.RegisterAll, SearchIndex.Rebuilt;
    ExtendsReflexive(db);
    match op {
      case ObserveOp(request, event) =>
        ObserveKeepsInv(db, redactor, request, event);
        ObserveExtends(db, redactor, request, event);
      case RememberOp(request, event, generated) =>
        RememberKeepsInv(db, redactor, request, event, generated);
        RememberExtends(db, redactor, request, event, generated);
      case CheckpointOp(request, event, draws) =>
        CheckpointKeepsInv(db, redactor, request, event, draws);
        CheckpointExtends(db, redactor, request, event, draws);
      case RetractOp(request, event) =>
        RetractKeepsInv(db, redactor, request, event);
        RetractExtends(db, redactor, request, event);
      case RegisterProfileOp(id, settings) => RegisterProfileKeepsInv(db, id, settings);
      case RemoveProfileOp(id) => RemoveProfileKeepsInv(db, id);
      case RegisterOp(id, settings, durable, inputs) =>
        var r := SearchIndex.RegisterSpec(db, id, settings, durable, inputs);
        if r.Ok? {
          SearchIndex.RegisterAllKeeps(db, id, durable, inputs);
          SameCanonExtends(db, r.value.db);
        }
      case RebuildOp => RebuildKeepsInv(db);
    }
  }

  // So does every run.
  lemma {:induction false} RunKeeps(db: Db, redactor: Redactor, ops: seq<Op>)
    requires Inv(db)
    ensures Inv(Run(db, redactor, ops)) && Extends(db, Run(db, redactor, ops))
  {
    hide Inv, Extends, Apply;
    if ops == [] {
      ExtendsReflexive(db);
    } else {
      var front := ops[..|ops| - 1];
      var before := Run(db, redactor, front);
      RunKeeps(db, redactor, front);
      ApplyKeeps(before, redactor, ops[|ops| - 1]);
      NumberedInv(Run(db, redactor, ops));
      ExtendsTransitive(db, before, Run(db, redactor, ops));
    }
  }

  // A store some run starting from nothing produces.
  ghost predicate Reachable(db: Db, redactor: Redactor) {
    exists ops :: Run(EMPTY, redactor, ops) == db
  }

  // Every reachable store satisfies the invariant: in particular its heads'
  // lifecycle states are what the ledgers say, and the derived indexes cover
  // exactly the heads that are not retracted.
  lemma ReachableInv(db: Db, redactor: Redactor)
    requires Reachable(db, redactor)
    ensures Inv(db)
    ensures forall id | id in db.heads :: db.heads[id].state == LedgerState(db, id)
    ensures IndexCoversHeads(db)
  {
    hide Extends, Apply;
    var ops :| Run(EMPTY, redactor, ops) == db;
    EmptyInv();
    RunKeeps(EMPTY, redactor, ops);
  }

  // --- projections over runs --------------------------------------------

  lemma SameProjections(db: Db, after: Db)
    requires after.projections == db.projections
    ensures SearchIndex.NeverRewritten(db, after)
  {
  }

  lemma LoggedKeepsProjections(
    db: Db, entry: Event, key: Option<IdempotencyKey>, fingerprint: Fingerprint, receipt: Receipt)
    ensures PutIdempotent(Logged(db, entry), key, fingerprint, receipt).projections == db.projections
  {
  }

  lemma ObserveKeepsProjections(db: Db, redactor: Redactor, request: ObserveRequest, generated: EventId)
    ensures ObserveStep(db, redactor, request, generated).db.projections == db.projections
  {
    hide HasEvent, Scope.Durable, GetIdempotent, ObserveFingerprintOf, ScopedIdempotencyKey, PutIdempotent;
    var prepared := PrepareObserve(redactor, request);
    var id := if request.eventId.Some? then request.eventId.value else generated;
    var entry := Event(id, request.kind, request.scope, prepared.content, prepared.attributes);
    LoggedKeepsProjections(
      db, entry, ScopedIdempotencyKey(ObserveOperation, request.scope, request.idempotencyKey),
      ObserveFingerprintOf(prepared), Receipt(id, [], |Logged(db, entry).events|, false));
  }

  lemma RetractionNeverRewrites(db: Db, logged: Db, id: MemoryId, event: EventId, after: Db)
    requires id in logged.heads && logged.projections == db.projections
    requires var retracted := WithRetraction(logged, id, event);
             after.heads == retracted.heads && after.projections == retracted.projections
    ensures SearchIndex.NeverRewritten(db, after)
  {
  }

  lemma RetractNeverRewrites(db: Db, redactor: Redactor, request: RetractRequest, event: EventId)
    ensures SearchIndex.NeverRewritten(db, RetractStep(db, redactor, request, event).db)
  {
    hide HasEvent, Scope.Durable, WithRetraction, SearchIndex.NeverRewritten, GetIdempotent;
    SameProjections(db, db);
    if request.memoryId in db.heads && HeadScope(db, request.memoryId).Some? {
      hide HeadScope;
      var entry := Event(
        event, Lifecycle, HeadScope(db, request.memoryId).value, redactor.text(request.reason), NO_ATTRIBUTES);
      var after := RetractStep(db, redactor, request, event).db;
      if after != db { RetractionNeverRewrites(db, Logged(db, entry), request.memoryId, event, after); }
    }
  }

  lemma ProfileNeverRewrites(db: Db, id: string, settings: Profile)
    ensures var r := SearchIndex.RegisterProfile(db, id, settings);
            r.Ok? ==> r.value.projections == db.projections
  {
  }

  lemma ApplyNeverRewrites(db: Db, redactor: Redactor, op: Op)
    requires Inv(db) && !op.RemoveProfileOp?
    ensures SearchIndex.NeverRewritten(db, Apply(db, redactor, op))
  {
    hide Inv, SearchIndex.RegisterAll, SearchIndex.Rebuilt, SearchIndex.RegisterProfile, SearchIndex.NeverRewritten,
      SearchIndex.Malformed, SearchIndex.Repeats, ObserveStep, RememberStep, CheckpointStep, RetractStep;
    SameProjections(db, db);
    match op {
      case ObserveOp(request, event) =>
        ObserveKeepsProjections(db, redactor, request, event);
        SameProjections(db, Apply(db, redactor, op));
      case RememberOp(request, event, generated) =>
        RememberKeepsProjections(db, redactor, request, event, generated);
        SameProjections(db, Apply(db, redactor, op));
      case CheckpointOp(request, event, draws) =>
        CheckpointKeepsProjections(db, redactor, request, event, draws);
        SameProjections(db, Apply(db, redactor, op));
      case RetractOp(request, event) => RetractNeverRewrites(db, redactor, request, event);
      case RegisterProfileOp(id, settings) =>
        ProfileNeverRewrites(db, id, settings);
        SameProjections(db, Apply(db, redactor, op));
      case RegisterOp(id, settings, durable, inputs) =>
        if SearchIndex.RegisterSpec(db, id, settings, durable, inputs).Ok? {
          SearchIndex.RegisterAllKeeps(db, id, durable, inputs);
        }
      case RebuildOp => RebuildKeepsInv(db);
      case _ =>
    }
  }

  // Every projection of one profile.
  ghost predicate ProfileNeverRewritten(before: Db, after: Db, profile: string) {
    forall key | key in before.projections && key.profile == profile :: SearchIndex.Advanced(before, after, key)
  }

  lemma OtherProfileRemoved(db: Db, id: string, profile: string)
    requires id != profile
    ensures ProfileNeverRewritten(db, SearchIndex.RemoveProfile(db, id), profile)
  {
  }

  lemma ApplyKeepsProfile(db: Db, redactor: Redactor, op: Op, profile: string)
    requires Inv(db) && op != RemoveProfileOp(profile)
    ensures ProfileNeverRewritten(db, Apply(db, redactor, op), profile)
  {
    hide Inv, Apply, SearchIndex.Advanced, SearchIndex.RemoveProfile;
    if op.RemoveProfileOp? {
      OtherProfileRemoved(db, op.profile, profile);
      RemovalApplied(db, redactor, op);
    } else {
      ApplyNeverRewrites(db, redactor, op);
    }
  }

  lemma RemovalApplied(db: Db, redactor: Redactor, op: Op)
    requires op.RemoveProfileOp?
    ensures Apply(db, redactor, op) == SearchIndex.RemoveProfile(db, op.profile)
  {
  }

  lemma UpsertKeepsProjectionRows(db: Db, request: MemoryRequest, event: EventId, generated: MemoryId)
    requires Upsert(db, request, event, generated).Ok?
    ensures Upsert(db, request, event, generated).value.db.projections == db.projections
  {
    hide SettleAll, LinkRows, TargetAssociations, ValidateEvidence, ValidateLinks, CheckLinks, Existing, Scope.Durable;
  }

  lemma {:induction false} UpsertAllKeepsProjectionRows(
    db: Db, redactor: Redactor, requests: seq<MemoryRequest>, event: EventId, draws: nat -> MemoryId)
    requires UpsertAll(db, redactor, requests, event, draws).Ok?
    ensures UpsertAll(db, redactor, requests, event, draws).value.db.projections == db.projections
  {
    hide Upsert, PrepareMemory;
    if requests != [] {
      var n := |requests| - 1;
      UpsertAllKeepsProjectionRows(db, redactor, requests[..n], event, draws);
      var before := UpsertAll(db, redactor, requests[..n], event, draws).value;
      UpsertKeepsProjectionRows(before.db, PrepareMemory(redactor, requests[n]), event, draws(n + 1));
    }
  }

  lemma RememberKeepsProjections(
    db: Db, redactor: Redactor, request: RememberRequest, event: EventId, generated: MemoryId)
    ensures RememberStep(db, redactor, request, event, generated).db.projections == db.projections
  {
    hide Upsert, PrepareMemory, ValidateEvidence, ValidateLinks, HasEvent, Scope.Durable;
    var prepared := PrepareMemory(redactor, request.memory);
    var logged := Logged(db, Event(event, ExplicitMemory, prepared.scope, prepared.body, prepared.attributes));
    if Upsert(logged, prepared, event, generated).Ok? {
      UpsertKeepsProjectionRows(logged, prepared, event, generated);
    }
  }

  lemma CheckpointKeepsProjections(
    db: Db, redactor: Redactor, request: CheckpointRequest, event: EventId, draws: nat -> MemoryId)
    ensures CheckpointStep(db, redactor, request, event, draws).db.projections == db.projections
  {
    hide Upsert, UpsertAll, PrepareMemory, ValidateEvidence, HasEvent, Scope.Durable, RedactCheckpoint, EpisodeRequest,
      MemberRequests, CheckpointAttributes;
    var safe := RedactCheckpoint(redactor, request);
    var logged := Logged(db, Event(event, Checkpoint, safe.scope, safe.summary, CheckpointAttributes(redactor, safe)));
    var episode := Upsert(logged, PrepareMemory(redactor, EpisodeRequest(safe)), event, draws(0));
    if episode.Ok? {
      UpsertKeepsProjectionRows(logged, PrepareMemory(redactor, EpisodeRequest(safe)), event, draws(0));
      var members := MemberRequests(safe, episode.value.id);
      if UpsertAll(episode.value.db, redactor, members, event, draws).Ok? {
        UpsertAllKeepsProjectionRows(episode.value.db, redactor, members, event, draws);
      }
    }
  }

  lemma NeverRewrittenTransitive(s: Db, t: Db, u: Db, profile: string)
    requires ProfileNeverRewritten(s, t, profile) && ProfileNeverRewritten(t, u, profile) && HeadsPersist(t, u)
    ensures ProfileNeverRewritten(s, u, profile)
  {
  }

  // Over a whole run that does not remove this profile, each of its stored
  // projections never goes back in revision and changes bytes only with the
  // revision, unless its memory is retracted for good. Other profiles may come
  // and go.
  lemma {:induction false} RunNeverRewrites(db: Db, redactor: Redactor, ops: seq<Op>, profile: string)
    requires Inv(db) && RemoveProfileOp(profile) !in ops
    ensures ProfileNeverRewritten(db, Run(db, redactor, ops), profile)
  {
    hide Inv, Apply, SearchIndex.Advanced;
    if ops != [] {
      var front, last := ops[..|ops| - 1], ops[|ops| - 1];
      var before := Run(db, redactor, front);
      assert last in ops;
      hide ProfileNeverRewritten;
      RunNeverRewrites(db, redactor, front, profile);
      RunKeeps(db, redactor, front);
      ApplyKeepsProfile(before, redactor, last, profile);
      ApplyKeeps(before, redactor, last);
      NeverRewrittenTransitive(db, before, Run(db, redactor, ops), profile);
    } else {
      assert SearchIndex.NeverRewritten(db, db) by { SameProjections(db, db); }
    }
  }
}
