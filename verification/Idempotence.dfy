// What repeating a keyed write does, at any later time.
module Idempotence {
  import opened Basics
  import opened Domain
  import opened Database
  import opened Ledger
  import opened Extension

  lemma ReceiptStays(committed: Db, later: Db, key: IdempotencyKey, row: IdempotencyRow, fingerprint: Fingerprint)
    requires Extends(committed, later) && key in committed.idempotency && committed.idempotency[key] == row
    ensures GetIdempotent(later, Some(key), fingerprint)
         == if fingerprint == row.fingerprint then Ok(Some(row.receipt)) else Err(Conflict)
  {
    hide RevisionsGrow, LedgersGrow, HeadsPersist, LogGrows;
  }

  lemma RunOnward(committed: Db, redactor: Redactor, ops: seq<Op>)
    requires Inv(committed)
    ensures Inv(Run(committed, redactor, ops)) && Extends(committed, Run(committed, redactor, ops))
  {
    hide Inv, Extends, Run;
    RunKeeps(committed, redactor, ops);
  }

  // A repeated observation, after any run, appends nothing: it returns the
  // first receipt if its redacted content is the same, and is refused as a
  // conflict otherwise.
  lemma ObserveRepeats(
    db: Db, redactor: Redactor, first: ObserveRequest, generated: EventId, ops: seq<Op>,
    again: ObserveRequest, generated2: EventId)
    requires Inv(db) && first.idempotencyKey.Some?
    requires ScopedKey(ObserveOperation, first.scope.Durable(), first.idempotencyKey.value) !in db.idempotency
    requires ObserveStep(db, redactor, first, generated).result.Ok?
    requires again.scope.Durable() == first.scope.Durable() && again.idempotencyKey == first.idempotencyKey
    ensures var reply := ObserveStep(db, redactor, first, generated);
            var later := Run(reply.db, redactor, ops);
            ObserveStep(later, redactor, again, generated2)
            == Answer(later, ObserveFingerprintOf(PrepareObserve(redactor, again))
                             == ObserveFingerprintOf(PrepareObserve(redactor, first)), reply.result.value)
  {
    hide Inv, Extends, HasEvent, Scope.Durable, Run, PrepareObserve, ObserveFingerprintOf;
    var reply := ObserveStep(db, redactor, first, generated);
    ObserveKeepsInv(db, redactor, first, generated);
    RunOnward(reply.db, redactor, ops);
    var key := ScopedKey(ObserveOperation, first.scope.Durable(), first.idempotencyKey.value);
    ReceiptStays(reply.db, Run(reply.db, redactor, ops), key, reply.db.idempotency[key],
                 ObserveFingerprintOf(PrepareObserve(redactor, again)));
  }

  // Only session and worktree details may differ in a repetition.
  lemma SameObserveSameFingerprint(redactor: Redactor, a: ObserveRequest, b: ObserveRequest)
    requires a.(scope := a.scope.Stabilize(), idempotencyKey := None)
        == b.(scope := b.scope.Stabilize(), idempotencyKey := None)
    ensures ObserveFingerprintOf(PrepareObserve(redactor, a)) == ObserveFingerprintOf(PrepareObserve(redactor, b))
  {
    var stable := a.(scope := a.scope.Stabilize(), idempotencyKey := None);
    assert PrepareObserve(redactor, a).(scope := a.scope.Stabilize(), idempotencyKey := None)
        == PrepareObserve(redactor, stable);
    assert PrepareObserve(redactor, b).(scope := b.scope.Stabilize(), idempotencyKey := None)
        == PrepareObserve(redactor, stable);
  }

  lemma RememberReceipt(db: Db, redactor: Redactor, request: RememberRequest, event: EventId, generated: MemoryId)
    requires request.idempotencyKey.Some?
    requires ScopedKey(RememberOperation, request.memory.scope.Durable(),
        request.idempotencyKey.value) !in db.idempotency
    requires RememberStep(db, redactor, request, event, generated).result.Ok?
    ensures var reply := RememberStep(db, redactor, request, event, generated);
            var key := ScopedKey(RememberOperation, request.memory.scope.Durable(), request.idempotencyKey.value);
            && key in reply.db.idempotency
            && reply.db.idempotency[key]
               == IdempotencyRow(RememberFingerprintOf(PrepareMemory(redactor, request.memory)), reply.result.value)
  {
    hide Upsert, ValidateEvidence, ValidateLinks, HasEvent, Scope.Durable, RememberFingerprintOf;
  }

  // A repeated memory, after any run, is answered from the receipt; only a
  // request over the collection limits is refused before its key is looked up.
  lemma RememberRepeats(
    db: Db, redactor: Redactor, first: RememberRequest, event: EventId, generated: MemoryId, ops: seq<Op>,
    again: RememberRequest, event2: EventId, generated2: MemoryId)
    requires Inv(db) && first.idempotencyKey.Some?
    requires ScopedKey(RememberOperation, first.memory.scope.Durable(), first.idempotencyKey.value) !in db.idempotency
    requires RememberStep(db, redactor, first, event, generated).result.Ok?
    requires again.memory.scope.Durable() == first.memory.scope.Durable()
    requires again.idempotencyKey == first.idempotencyKey
    ensures var reply := RememberStep(db, redactor, first, event, generated);
            var later := Run(reply.db, redactor, ops);
            var same := RememberFingerprintOf(PrepareMemory(redactor, again.memory))
                     == RememberFingerprintOf(PrepareMemory(redactor, first.memory));
            RememberStep(later, redactor, again, event2, generated2)
            == if MemoryFits(again.memory) then Answer(later, same, reply.result.value) else Refuse(later, InvalidInput)
  {
    hide Inv, Extends, HasEvent, Scope.Durable, Run, Upsert, ValidateEvidence, ValidateLinks, RememberFingerprintOf,
      GetIdempotent, RememberStep;
    var reply := RememberStep(db, redactor, first, event, generated);
    RememberReceipt(db, redactor, first, event, generated);
    RememberKeepsInv(db, redactor, first, event, generated);
    RunOnward(reply.db, redactor, ops);
    var later := Run(reply.db, redactor, ops);
    var key := ScopedKey(RememberOperation, first.memory.scope.Durable(), first.idempotencyKey.value);
    var fingerprint := RememberFingerprintOf(PrepareMemory(redactor, again.memory));
    ReceiptStays(reply.db, later, key, reply.db.idempotency[key], fingerprint);
    AnsweredRemember(later, redactor, again, event2, generated2);
    if !MemoryFits(again.memory) { OverLimits(later, redactor, again, event2, generated2); }
  }

  // A remember within the limits whose key is taken does nothing but answer.
  lemma AnsweredRemember(db: Db, redactor: Redactor, request: RememberRequest, event: EventId, generated: MemoryId)
    ensures var prepared := PrepareMemory(redactor, request.memory);
            var known := GetIdempotent(
              db, ScopedIdempotencyKey(RememberOperation, request.memory.scope, request.idempotencyKey),
              RememberFingerprintOf(prepared));
            MemoryFits(request.memory) ==>
              && (known.Err? ==> RememberStep(db, redactor, request, event, generated) == Refuse(db, known.error))
              && (known.Ok? && known.value.Some? ==>
                    RememberStep(db, redactor, request, event, generated) == Replay(db, known.value.value))
  {
    hide Upsert, ValidateEvidence, ValidateLinks, HasEvent, Scope.Durable, RememberFingerprintOf, GetIdempotent;
  }

  lemma OverLimits(db: Db, redactor: Redactor, request: RememberRequest, event: EventId, generated: MemoryId)
    requires !MemoryFits(request.memory)
    ensures RememberStep(db, redactor, request, event, generated) == Refuse(db, InvalidInput)
  {
    hide Upsert, PrepareMemory, GetIdempotent;
  }

  lemma RetractReceipt(db: Db, redactor: Redactor, request: RetractRequest, event: EventId)
    requires Inv(db) && request.memoryId in db.heads && request.idempotencyKey.Some?
    requires RetractKey(db.heads[request.memoryId].durable.key.namespace, request.memoryId,
        request.idempotencyKey.value)
          !in db.idempotency
    requires RetractStep(db, redactor, request, event).result.Ok?
    ensures var reply := RetractStep(db, redactor, request, event);
            var key := RetractKey(
              db.heads[request.memoryId].durable.key.namespace, request.memoryId, request.idempotencyKey.value);
            && key in reply.db.idempotency
            && reply.db.idempotency[key]
               == IdempotencyRow(RetractFingerprint(request.memoryId, redactor.text(request.reason)),
                   reply.result.value)
  {
    hide HasEvent, Scope.Durable, Inv, HeadScope;
  }

  lemma AnsweredRetract(db: Db, redactor: Redactor, request: RetractRequest, event: EventId)
    requires request.memoryId in db.heads && request.idempotencyKey.Some?
    ensures var known := GetIdempotent(
              db, Some(RetractKey(db.heads[request.memoryId].durable.key.namespace, request.memoryId,
                                  request.idempotencyKey.value)),
              RetractFingerprint(request.memoryId, redactor.text(request.reason)));
            && (known.Err? ==> RetractStep(db, redactor, request, event) == Refuse(db, known.error))
            && (known.Ok? && known.value.Some? ==>
                  RetractStep(db, redactor, request, event) == Replay(db, known.value.value))
  {
    hide HasEvent, Scope.Durable, HeadScope, GetIdempotent, WithRetraction;
  }

  lemma HeadStays(db: Db, later: Db, id: MemoryId)
    requires Extends(db, later) && id in db.heads
    ensures id in later.heads && later.heads[id].durable == db.heads[id].durable
  {
    hide RevisionsGrow, LedgersGrow, LogGrows, ReceiptsPersist;
  }

  lemma RetractRepeats(
    db: Db, redactor: Redactor, first: RetractRequest, event: EventId, ops: seq<Op>,
    again: RetractRequest, event2: EventId)
    requires Inv(db) && first.memoryId in db.heads && first.idempotencyKey.Some?
    requires RetractKey(db.heads[first.memoryId].durable.key.namespace, first.memoryId, first.idempotencyKey.value)
          !in db.idempotency
    requires RetractStep(db, redactor, first, event).result.Ok?
    requires again.memoryId == first.memoryId && again.idempotencyKey == first.idempotencyKey
    ensures var reply := RetractStep(db, redactor, first, event);
            var later := Run(reply.db, redactor, ops);
            RetractStep(later, redactor, again, event2)
            == Answer(later, redactor.text(again.reason) == redactor.text(first.reason), reply.result.value)
  {
    hide Inv, Extends, HasEvent, Scope.Durable, Run, GetIdempotent, RetractStep;
    var reply := RetractStep(db, redactor, first, event);
    RetractReceipt(db, redactor, first, event);
    RetractKeepsInv(db, redactor, first, event);
    RetractExtends(db, redactor, first, event);
    RunOnward(reply.db, redactor, ops);
    var later := Run(reply.db, redactor, ops);
    HeadStays(db, reply.db, first.memoryId);
    HeadStays(reply.db, later, first.memoryId);
    var key := RetractKey(db.heads[first.memoryId].durable.key.namespace, first.memoryId, first.idempotencyKey.value);
    ReceiptStays(reply.db, later, key, reply.db.idempotency[key],
                 RetractFingerprint(again.memoryId, redactor.text(again.reason)));
    AnsweredRetract(later, redactor, again, event2);
  }
}
