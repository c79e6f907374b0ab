// Retry convergence over whole histories of the store.
module RetryInRuns {
  import opened Basics
  import opened Domain
  import opened Database
  import opened Ledger
  import opened Extension
  import opened CheckpointSession
  import opened SessionRetry
  import opened CanonicalKeys
  import TimeTravel

  // In a store whose history names no memory explicitly, a keyed session
  // checkpoint that was accepted can be repeated after anything else has
  // happened, also between its two transactions, from any session: it answers
  // with the first receipt and changes nothing. Later operations may name memories.
  lemma RetryConvergesInRuns(
    redactor: Redactor, history: seq<Op>, first: CheckpointRequest, again: CheckpointRequest, ops: seq<Op>,
    between: seq<Op>, event: EventId, draws: nat -> MemoryId, event2: EventId, draws2: nat -> MemoryId)
    requires forall i | 0 <= i < |history| :: !NamesMemory(history[i])
    requires first.idempotencyKey.Some? && first.scope.sessionId.Some?
    requires ScopedKey(CheckpointOperation, first.scope.Durable(), first.idempotencyKey.value)
          !in Run(EMPTY, redactor, history).idempotency
    requires SameRequest(first, again) && again.scope.sessionId.Some?
    ensures var db := Run(EMPTY, redactor, history);
            var reply := CheckpointSessionStep(db, db, redactor, first, event, draws);
            var later := Run(reply.db, redactor, ops);
            var latest := Run(later, redactor, between);
            reply.result.Ok? ==>
              CheckpointSessionStep(later, latest, redactor, again, event2, draws2)
              == Reply(latest, Ok(reply.result.value.(deduplicated := true)))
  {
    hide Inv, Run, TimeTravel.UniqueLive, CheckpointSessionStep, SameRequest, Scope.Durable, Settled;
    var db := Run(EMPTY, redactor, history);
    EmptyInv();
    RunKeeps(EMPTY, redactor, history);
    CanonicalKeysUnique(redactor, history);
    if CheckpointSessionStep(db, db, redactor, first, event, draws).result.Ok? {
      UniqueIsSettled(db, first);
      RetryConverges(db, redactor, first, again, ops, between, event, draws, event2, draws2);
    }
  }
}
