// Retrying a session checkpoint on a store restored from a first-version snapshot.
module RestoredRetry {
  import opened Basics
  import opened Domain
  import opened Database
  import opened Ledger
  import opened Extension
  import opened LinkLedger
  import opened LegacyRestore
  import opened TimeTravel
  import opened CheckpointSession
  import opened SessionRetry

  lemma RestoredKeeps(db: Db)
    ensures Restored(db).events == db.events && Restored(db).idempotency == db.idempotency
    ensures Restored(db).revisions == db.revisions
  {
  }

  lemma RevisionsKept(s: Db, t: Db)
    requires Extends(s, t)
    ensures forall at | at in s.revisions :: at in t.revisions && t.revisions[at] == s.revisions[at]
  {
    hide LogGrows, MetadataGrows, LedgersGrow, HeadsPersist, ReceiptsPersist;
  }

  // A restored store recalls every boundary its snapshot remembers.
  lemma RememberedRecalls(s: Db, db: Db, t: Db)
    requires Inv(s) && Inv(db) && LinkInv(db) && Extends(s, db) && Remembered(s, db)
    requires Inv(t) && Extends(Restored(db), t)
    ensures Recalls(s, t)
  {
    hide Inv, LinkInv, Extends, Remembered, Restored, HistoricalFailures, RecordedFailures, HistoricalRows, LiveRows;
    RestoredTimeTravel(s, db, t);
    LogsGrow(s, db);
    LogsGrow(Restored(db), t);
    RestoredKeeps(db);
    RevisionsKept(s, db);
    RevisionsKept(Restored(db), t);
    forall durable, keys
      ensures HistoricalFailures(t, durable, keys, Boundary(s)) == RecordedFailures(s, durable, keys)
    {
      SameRowsSameResults(s, t, durable, keys);
    }
  }

  lemma KeptThrough(s: Db, db: Db, t: Db)
    requires Extends(s, db) && Extends(Restored(db), t)
    ensures s.events <= t.events && ReceiptsPersist(s, t)
  {
    hide Extends, Restored;
    LogsGrow(s, db);
    LogsGrow(Restored(db), t);
    RestoredKeeps(db);
  }

  // If the store was exported as a first-version snapshot that remembers the
  // boundary, and restored, a retry there is answered as it would have been on
  // the exported store.
  lemma RestoredRetryOutcome(
    read: Db, db: Db, exported: Db, later: Db, latest: Db, redactor: Redactor,
    first: CheckpointRequest, again: CheckpointRequest,
    event: EventId, draws: nat -> MemoryId, event2: EventId, draws2: nat -> MemoryId)
    requires Accepted(read, db, redactor, first, event, draws)
    requires Inv(exported) && LinkInv(exported) && Remembered(db, exported)
    requires Extends(CheckpointSessionStep(read, db, redactor, first, event, draws).db, exported)
    requires Inv(later) && Extends(Restored(exported), later) && Inv(latest) && Extends(later, latest)
    requires SameRequest(first, again) && again.scope.sessionId.Some?
    ensures CheckpointSessionStep(later, latest, redactor, again, event2, draws2)
         == Retried(latest, db, first, Stable(read, db, redactor, first),
                    CheckpointSessionStep(read, db, redactor, first, event, draws).result.value)
  {
    hide Inv, LinkInv, Extends, CheckpointSessionStep, Scope.Durable, SameRequest, FindRetry, Stable, Recalls,
      ReceiptsPersist, Remembered, Restored;
    var committed := CheckpointSessionStep(read, db, redactor, first, event, draws).db;
    CommitExtends(read, db, redactor, first, event, draws);
    NumberedInv(exported);
    NumberedInv(later);
    NumberedInv(latest);
    ExtendsTransitive(db, committed, exported);
    KeptThrough(committed, exported, later);
    ExtendsTransitive(Restored(exported), later, latest);
    KeptThrough(committed, exported, latest);
    RememberedRecalls(db, exported, later);
    RetryAnswers(read, db, later, latest, redactor, first, again, event, draws, event2, draws2);
  }
}
