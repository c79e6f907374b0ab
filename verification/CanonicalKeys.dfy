// Canonical keys: when a key names at most one live memory.
module CanonicalKeys {
  import opened Basics
  import opened Domain
  import opened Strings
  import opened Database
  import opened Ledger
  import opened Extension
  import opened TimeTravel
  import SearchIndex

  // Another live memory holds the request's key and is not superseded by it.
  ghost predicate Rival(db: Db, id: MemoryId, request: MemoryRequest, other: MemoryId) {
    && other in db.heads && other != id && Live(db.heads[other].state)
    && request.key.Some? && db.heads[other].key == request.key
    && db.heads[other].durable == request.scope.Durable() && db.heads[other].kind == request.kind
    && !Affects(request.links, other, Supersedes)
  }

  ghost predicate HasRival(db: Db, id: MemoryId, request: MemoryRequest) {
    exists other :: Rival(db, id, request, other)
  }

  lemma StillLive(db: Db, id: MemoryId, request: MemoryRequest, event: EventId, m: MemoryId)
    requires m in db.heads && m != id
    ensures var after := Written(db, id, request, event);
            && m in after.heads
            && (Live(after.heads[m].state) <==> Live(db.heads[m].state) && !Affects(request.links, m, Supersedes))
            && after.heads[m].key == db.heads[m].key && after.heads[m].durable == db.heads[m].durable
            && after.heads[m].kind == db.heads[m].kind
  {
    hide Written, Affects, AnyContests;
    WrittenHeads(db, id, request, event);
  }

  lemma SourceLive(db: Db, id: MemoryId, request: MemoryRequest, event: EventId)
    requires Writable(db, id, request, event)
    ensures var after := Written(db, id, request, event);
            && id in after.heads && Live(after.heads[id].state) && after.heads[id].key == request.key
            && after.heads[id].durable == request.scope.Durable() && after.heads[id].kind == request.kind
  {
    hide Written, AnyContests, Scope.Durable, Affects, IsLifecycle, SeqOf, HeadRecorded;
    WrittenHeads(db, id, request, event);
    NotAffected(db, id, request, event, Supersedes);
  }

  // A write keeps canonical keys unique exactly when it meets no rival.
  lemma WriteKeepsUniqueIff(db: Db, id: MemoryId, request: MemoryRequest, event: EventId)
    requires UniqueLive(db) && Writable(db, id, request, event)
    ensures UniqueLive(Written(db, id, request, event)) <==> !HasRival(db, id, request)
  {
    hide Written, Affects, Scope.Durable, Writable;
    var after := Written(db, id, request, event);
    SourceLive(db, id, request, event);
    forall m | m in db.heads && m != id
      ensures m in after.heads
      ensures Live(after.heads[m].state) <==> Live(db.heads[m].state) && !Affects(request.links, m, Supersedes)
      ensures after.heads[m].key == db.heads[m].key && after.heads[m].durable == db.heads[m].durable
      ensures after.heads[m].kind == db.heads[m].kind
    {
      StillLive(db, id, request, event, m);
    }
    WrittenKeys(db, id, request, event);
    if HasRival(db, id, request) {
      var other :| Rival(db, id, request, other);
      assert Live(after.heads[other].state) && Live(after.heads[id].state);
    } else {
      forall a, b | a in after.heads && b in after.heads && Live(after.heads[a].state) && Live(after.heads[b].state)
                    && after.heads[a].key.Some? && after.heads[a].key == after.heads[b].key
                    && after.heads[a].durable == after.heads[b].durable && after.heads[a].kind == after.heads[b].kind
        ensures a == b
      {
        assert a == id && b != id ==> Rival(db, id, request, b);
        assert b == id && a != id ==> Rival(db, id, request, a);
      }
    }
  }

  lemma WrittenKeys(db: Db, id: MemoryId, request: MemoryRequest, event: EventId)
    ensures Written(db, id, request, event).heads.Keys == db.heads.Keys + {id}
  {
    hide Written;
    WrittenHeads(db, id, request, event);
  }

  // A request without an explicit identifier never meets a rival: it revises
  // the live holder of its key.
  lemma KeyedHasNoRival(db: Db, request: MemoryRequest, event: EventId, generated: MemoryId)
    requires UniqueLive(db) && request.memoryId.None? && Upsert(db, request, event, generated).Ok?
    ensures !HasRival(db, Upsert(db, request, event, generated).value.id, request)
  {
    hide Written, Affects, Scope.Durable, ValidateEvidence, ValidateLinks, CheckLinks;
    var id := Upsert(db, request, event, generated).value.id;
    forall other ensures !Rival(db, id, request, other) {
      if request.key.Some? {
        var among := Candidates(db, request.scope.Durable(), request.kind, request.key.value);
        assert other in among ==> other == id;
      }
    }
  }

  lemma UpsertKeepsUnique(db: Db, request: MemoryRequest, event: EventId, generated: MemoryId)
    requires UniqueLive(db) && CurrentEvent(db, event) && ReachesOlder(db, request)
    requires request.memoryId.None? && Upsert(db, request, event, generated).Ok?
    ensures UniqueLive(Upsert(db, request, event, generated).value.db)
  {
    hide UniqueLive, Upsert, Writable, HasRival, CurrentEvent, ReachesOlder;
    UpsertIsWritable(db, request, event, generated);
    KeyedHasNoRival(db, request, event, generated);
    WriteKeepsUniqueIff(db, Upsert(db, request, event, generated).value.id, request, event);
  }

  // The request is not a replay of an earlier one.
  predicate Fresh(db: Db, redactor: Redactor, request: RememberRequest) {
    var prepared := PrepareMemory(redactor, request.memory);
    GetIdempotent(db, ScopedIdempotencyKey(RememberOperation, prepared.scope, request.idempotencyKey),
                  RememberFingerprintOf(prepared)) == Ok(None)
  }

  // With an explicit identifier, uniqueness survives exactly when no other
  // live memory of that scope and kind holds the key, unless superseded by the
  // request's own links.
  lemma RememberKeepsUniqueIff(
    db: Db, redactor: Redactor, request: RememberRequest, event: EventId, generated: MemoryId)
    requires Inv(db) && UniqueLive(db)
    requires Fresh(db, redactor, request)
    requires RememberStep(db, redactor, request, event, generated).result.Ok?
    ensures var reply := RememberStep(db, redactor, request, event, generated);
            && |reply.result.value.memoryIds| == 1
            && (UniqueLive(reply.db)
                <==> !HasRival(db, reply.result.value.memoryIds[0], PrepareMemory(redactor, request.memory)))
  {
    hide Inv, HasEvent, ValidateEvidence, ValidateLinks, Upsert, PrepareMemory, Scope.Durable, CurrentEvent,
      ReachesOlder, UniqueLive, HasRival, Writable;
    var prepared := PrepareMemory(redactor, request.memory);
    var entry := Event(event, ExplicitMemory, prepared.scope, prepared.body, prepared.attributes);
    var logged := Logged(db, entry);
    InsertEventKeepsInv(db, entry);
    JustLogged(db, entry);
    HeadsAreOlder(db, entry, prepared);
    UpsertIsWritable(logged, prepared, event, generated);
    var upserted := Upsert(logged, prepared, event, generated).value;
    SameHeadsSameUnique(db, logged);
    SameRivals(db, logged, upserted.id, prepared);
    WriteKeepsUniqueIff(logged, upserted.id, prepared, event);
    SameHeadsSameUnique(upserted.db, RememberStep(db, redactor, request, event, generated).db);
  }

  lemma SameHeadsSameUnique(db: Db, after: Db)
    requires after.heads == db.heads
    ensures UniqueLive(after) == UniqueLive(db)
  {
  }

  lemma SameRivals(db: Db, after: Db, id: MemoryId, request: MemoryRequest)
    requires after.heads == db.heads
    ensures HasRival(after, id, request) == HasRival(db, id, request)
  {
    hide Affects, Scope.Durable;
    if other :| Rival(db, id, request, other) { assert Rival(after, id, request, other); }
    if other :| Rival(after, id, request, other) { assert Rival(db, id, request, other); }
  }

  lemma {:induction false} UpsertAllKeepsUnique(
    db: Db, redactor: Redactor, requests: seq<MemoryRequest>, event: EventId, draws: nat -> MemoryId)
    requires Inv(db) && UniqueLive(db) && CurrentEvent(db, event)
    requires forall i | 0 <= i < |requests| ::
               Quiet(PrepareMemory(redactor, requests[i])) && PrepareMemory(redactor, requests[i]).memoryId.None?
    requires UpsertAll(db, redactor, requests, event, draws).Ok?
    ensures UniqueLive(UpsertAll(db, redactor, requests, event, draws).value.db)
  {
    hide Inv, UniqueLive, Upsert, PrepareMemory;
    if requests != [] {
      var n := |requests| - 1;
      UpsertAllKeepsUnique(db, redactor, requests[..n], event, draws);
      UpsertAllKeepsInv(db, redactor, requests[..n], event, draws);
      var before := UpsertAll(db, redactor, requests[..n], event, draws).value;
      UpsertKeepsUnique(before.db, PrepareMemory(redactor, requests[n]), event, draws(n + 1));
    }
  }

  lemma MembersNameNoMemory(redactor: Redactor, request: CheckpointRequest, episode: MemoryId)
    ensures PrepareMemory(redactor, EpisodeRequest(request)).memoryId.None?
    ensures forall i | 0 <= i < |MemberRequests(request, episode)| ::
              PrepareMemory(redactor, MemberRequests(request, episode)[i]).memoryId.None?
  {
    hide Trim;
  }

  // Checkpoints never name a memory, so they keep canonical keys unique.
  lemma CheckpointKeepsUnique(
    db: Db, redactor: Redactor, request: CheckpointRequest, event: EventId, draws: nat -> MemoryId)
    requires Inv(db) && UniqueLive(db)
    ensures UniqueLive(CheckpointStep(db, redactor, request, event, draws).db)
  {
    hide Inv, HasEvent, UniqueLive, ValidateEvidence, Upsert, UpsertAll, PrepareMemory, EpisodeRequest, MemberRequests,
      CheckpointAttributes, CurrentEvent, RedactCheckpoint, Scope.Durable;
    var safe := RedactCheckpoint(redactor, request);
    var after := CheckpointStep(db, redactor, request, event, draws).db;
    var writes := CheckpointWrites(db, redactor, safe, event, draws);
    if writes.Ok? {
      var entry := Event(event, Checkpoint, safe.scope, safe.summary, CheckpointAttributes(redactor, safe));
      var logged := Logged(db, entry);
      InsertEventKeepsInv(db, entry);
      JustLogged(db, entry);
      SameHeadsSameUnique(db, logged);
      var first := PrepareMemory(redactor, EpisodeRequest(safe));
      var episode := Upsert(logged, first, event, draws(0)).value;
      MembersAreQuiet(redactor, safe, episode.id);
      MembersNameNoMemory(redactor, safe, episode.id);
      UpsertKeepsUnique(logged, first, event, draws(0));
      UpsertKeepsInv(logged, first, event, draws(0));
      SameLogSameEvent(logged, episode.db, event);
      UpsertAllKeepsUnique(episode.db, redactor, MemberRequests(safe, episode.id), event, draws);
    }
    if after.heads == db.heads { SameHeadsSameUnique(db, after); } else { SameHeadsSameUnique(writes.value.db, after); }
  }

  lemma RememberKeepsUnique(
    db: Db, redactor: Redactor, request: RememberRequest, event: EventId, generated: MemoryId)
    requires Inv(db) && UniqueLive(db) && request.memory.memoryId.None?
    ensures UniqueLive(RememberStep(db, redactor, request, event, generated).db)
  {
    hide Inv, HasEvent, ValidateEvidence, ValidateLinks, Upsert, Scope.Durable, CurrentEvent, ReachesOlder, UniqueLive;
    var prepared := PrepareMemory(redactor, request.memory);
    var entry := Event(event, ExplicitMemory, prepared.scope, prepared.body, prepared.attributes);
    var logged := Logged(db, entry);
    var after := RememberStep(db, redactor, request, event, generated).db;
    if after.heads == db.heads {
      SameHeadsSameUnique(db, after);
    } else {
      InsertEventKeepsInv(db, entry);
      JustLogged(db, entry);
      HeadsAreOlder(db, entry, prepared);
      SameHeadsSameUnique(db, logged);
      UpsertKeepsUnique(logged, prepared, event, generated);
      SameHeadsSameUnique(Upsert(logged, prepared, event, generated).value.db, after);
    }
  }

  lemma RetractionKeepsUnique(db: Db, logged: Db, id: MemoryId, event: EventId, after: Db)
    requires UniqueLive(db) && logged.heads == db.heads && id in logged.heads
    requires after.heads == WithRetraction(logged, id, event).heads
    ensures UniqueLive(after)
  {
  }

  lemma RetractKeepsUnique(db: Db, redactor: Redactor, request: RetractRequest, event: EventId)
    requires UniqueLive(db)
    ensures UniqueLive(RetractStep(db, redactor, request, event).db)
  {
    hide HasEvent, GetIdempotent, HeadScope, RetractStep, RetractKeyOf, WithRetraction, UniqueLive;
    RetractOutcome(db, redactor, request, event);
    var after := RetractStep(db, redactor, request, event).db;
    if after != db {
      var entry := RetractEntry(HeadScope(db, request.memoryId).value, redactor.text(request.reason), event);
      RetractionKeepsUnique(db, Logged(db, entry), request.memoryId, event, after);
    }
  }

  ghost predicate NamesMemory(op: Op) { op.RememberOp? && op.remember.memory.memoryId.Some? }

  lemma ApplyKeepsUnique(db: Db, redactor: Redactor, op: Op)
    requires Inv(db) && UniqueLive(db) && !NamesMemory(op)
    ensures UniqueLive(Apply(db, redactor, op))
  {
    hide Inv, UniqueLive, ObserveStep, RememberStep, CheckpointStep, RetractStep, SearchIndex.RegisterAll,
      SearchIndex.Rebuilt;
    var after := Apply(db, redactor, op);
    match op {
      case RememberOp(request, event, generated) => RememberKeepsUnique(db, redactor, request, event, generated);
      case CheckpointOp(request, event, draws) => CheckpointKeepsUnique(db, redactor, request, event, draws);
      case RetractOp(request, event) => RetractKeepsUnique(db, redactor, request, event);
      case ObserveOp(request, event) =>
        ObserveKeepsHeads(db, redactor, request, event);
        SameHeadsSameUnique(db, after);
      case RegisterOp(id, settings, durable, inputs) =>
        if SearchIndex.RegisterSpec(db, id, settings, durable, inputs).Ok? {
          SearchIndex.RegisterAllKeeps(db, id, durable, inputs);
        }
        SameHeadsSameUnique(db, after);
      case RebuildOp =>
        RebuildKeepsInv(db);
      case _ => SameHeadsSameUnique(db, after);
    }
  }

  lemma ObserveKeepsHeads(db: Db, redactor: Redactor, request: ObserveRequest, event: EventId)
    ensures ObserveStep(db, redactor, request, event).db.heads == db.heads
  {
    hide InsertEvent, GetIdempotent, ObserveFingerprintOf, ScopedIdempotencyKey, Scope.Durable, PutIdempotent;
    var prepared := PrepareObserve(redactor, request);
    var id := if request.eventId.Some? then request.eventId.value else event;
    var logged := InsertEvent(db, Event(id, request.kind, request.scope, prepared.content, prepared.attributes));
    if logged.Ok? {
      LogKeepsHeads(db, Event(id, request.kind, request.scope, prepared.content, prepared.attributes));
      PutKeepsHeads(logged.value, ScopedIdempotencyKey(ObserveOperation, request.scope, request.idempotencyKey),
                    ObserveFingerprintOf(prepared), Receipt(id, [], |logged.value.events|, false));
    }
  }

  lemma LogKeepsHeads(db: Db, event: Event)
    ensures InsertEvent(db, event).Ok? ==> InsertEvent(db, event).value.heads == db.heads
  {
    hide HasEvent;
  }

  lemma PutKeepsHeads(db: Db, key: Option<IdempotencyKey>, fingerprint: Fingerprint, receipt: Receipt)
    ensures PutIdempotent(db, key, fingerprint, receipt).heads == db.heads
  {
  }

  // In every run in which no remember names a memory, each scope, kind and
  // canonical key has at most one live head.
  lemma {:induction false} CanonicalKeysUnique(redactor: Redactor, ops: seq<Op>)
    requires forall i | 0 <= i < |ops| :: !NamesMemory(ops[i])
    ensures UniqueLive(Run(EMPTY, redactor, ops))
  {
    hide Inv, UniqueLive, Apply, Extends;
    if ops == [] {
      NothingLive();
    } else {
      var front := ops[..|ops| - 1];
      CanonicalKeysUnique(redactor, front);
      EmptyInv();
      RunKeeps(EMPTY, redactor, front);
      ApplyKeepsUnique(Run(EMPTY, redactor, front), redactor, ops[|ops| - 1]);
    }
  }

  lemma NothingLive()
    ensures UniqueLive(EMPTY)
  {
  }
}
