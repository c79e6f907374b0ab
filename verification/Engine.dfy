// The store with its write operations. Each operation runs one immediate
// transaction: it works on a copy of the tables and either commits the copy or
// leaves the tables as they were.
module Engine {
  import opened Basics
  import opened Domain
  import opened Database
  import opened Ledger
  import opened Extension
  import opened Transactions
  import opened CheckpointSession
  import SearchIndex
  import SessionReading

  class MemoryEngine {
    const redactor: Redactor
    var db: Db

    ghost predicate Valid()
      reads this
    {
      Inv(db)
    }

    constructor (redactor: Redactor)
      ensures Valid() && db == EMPTY && this.redactor == redactor
    {
      this.redactor := redactor;
      db := EMPTY;
      new;
      EmptyInv();
    }

    method Observe(request: ObserveRequest, generated: EventId) returns (r: Result<Receipt>)
      requires Valid()
      modifies this`db
      ensures Reply(db, r) == ObserveStep(old(db), redactor, request, generated)
      ensures Valid() && Extends(old(db), db)
    {
      hide Inv, Extends, HasEvent;
      ObserveKeepsInv(db, redactor, request, generated);
      ObserveExtends(db, redactor, request, generated);
      var prepared := PrepareObserve(redactor, request);
      var key := ScopedIdempotencyKey(ObserveOperation, request.scope, request.idempotencyKey);
      var tx := db;
      var known := GetIdempotent(tx, key, ObserveFingerprintOf(prepared));
      if known.Err? { return Err(known.error); }
      if known.value.Some? { return Ok(known.value.value.(deduplicated := true)); }
      var id := if request.eventId.Some? then request.eventId.value else generated;
      var logged := InsertEvent(tx, Event(id, request.kind, request.scope, prepared.content, prepared.attributes));
      if logged.Err? { return Err(logged.error); }
      tx := logged.value;
      var receipt := Receipt(id, [], |tx.events|, false);
      tx := PutIdempotent(tx, key, ObserveFingerprintOf(prepared), receipt);
      db := tx;
      return Ok(receipt);
    }

    method Remember(request: RememberRequest, event: EventId, generated: MemoryId) returns (r: Result<Receipt>)
      requires Valid()
      modifies this`db
      ensures Reply(db, r) == RememberStep(old(db), redactor, request, event, generated)
      ensures Valid() && Extends(old(db), db)
    {
      hide Inv, Extends, Upsert, ValidateEvidence, ValidateLinks, PrepareMemory, HasEvent, Scope.Durable;
      RememberKeepsInv(db, redactor, request, event, generated);
      RememberExtends(db, redactor, request, event, generated);
      if !MemoryFits(request.memory) { return Err(InvalidInput); }
      var prepared := PrepareMemory(redactor, request.memory);
      var key := ScopedIdempotencyKey(RememberOperation, prepared.scope, request.idempotencyKey);
      var tx := db;
      var known := GetIdempotent(tx, key, RememberFingerprintOf(prepared));
      if known.Err? { return Err(known.error); }
      if known.value.Some? { return Ok(known.value.value.(deduplicated := true)); }
      var evidenceChecked := CheckEvidence(tx, prepared.evidence, prepared.scope);
      if evidenceChecked.Err? { return Err(evidenceChecked.error); }
      var linksChecked := CheckLinkTargets(tx, prepared.links, prepared.scope);
      if linksChecked.Err? { return Err(linksChecked.error); }
      var logged := InsertEvent(tx, Event(event, ExplicitMemory, prepared.scope, prepared.body, prepared.attributes));
      if logged.Err? { return Err(logged.error); }
      var upserted := UpsertMemory(logged.value, prepared, event, generated);
      if upserted.Err? { return Err(upserted.error); }
      tx := upserted.value.db;
      var receipt := Receipt(event, [upserted.value.id], |tx.events|, false);
      tx := PutIdempotent(tx, key, RememberFingerprintOf(prepared), receipt);
      db := tx;
      return Ok(receipt);
    }

    // Episode first, then decisions, attempts and open tasks.
    method WriteCheckpoint(tx: Db, safe: CheckpointRequest, event: EventId, draws: nat -> MemoryId)
      returns (r: Result<Batch>)
      ensures r == CheckpointWrites(tx, redactor, safe, event, draws)
    {
      hide Upsert, ValidateEvidence, PrepareMemory, UpsertAll, EpisodeRequest, DecisionRequest, AttemptRequest,
        TaskRequest, CheckpointAttributes, HasEvent;
      var evidenceChecked := CheckEvidence(tx, safe.evidence, safe.scope);
      if evidenceChecked.Err? { return Err(evidenceChecked.error); }
      var logged := InsertEvent(
        tx, Event(event, EventKind.Checkpoint, safe.scope, safe.summary, CheckpointAttributes(redactor, safe)));
      if logged.Err? { return Err(logged.error); }
      if !MemoryFits(EpisodeRequest(safe)) { return Err(InvalidInput); }
      var episode := UpsertMemory(logged.value, PrepareMemory(redactor, EpisodeRequest(safe)), event, draws(0));
      if episode.Err? { return Err(episode.error); }
      var id := episode.value.id;
      var decisions := seq(|safe.decisions|, i requires 0 <= i < |safe.decisions| =>
        DecisionRequest(safe, safe.decisions[i], id));
      var attempts := seq(|safe.attempts|, i requires 0 <= i < |safe.attempts| =>
        AttemptRequest(safe, safe.attempts[i], id));
      var tasks := seq(|safe.openTasks|, i requires 0 <= i < |safe.openTasks| =>
        TaskRequest(safe, safe.openTasks[i], id));
      ghost var all := MemberRequests(safe, id);
      assert all == decisions + attempts + tasks;
      assert all[..0] == [];
      NoMembersYet(episode.value.db, redactor, event, draws);
      assert all[0..|decisions|] == decisions;
      var batch := UpsertMembers(
        episode.value.db, Batch(episode.value.db, []), redactor, all, decisions, 0, event, draws);
      if batch.Err? { return Err(batch.error); }
      assert all[|decisions|..|decisions| + |attempts|] == attempts;
      batch := UpsertMembers(episode.value.db, batch.value, redactor, all, attempts, |decisions|, event, draws);
      if batch.Err? { return Err(batch.error); }
      assert all[|decisions| + |attempts|..|decisions| + |attempts| + |tasks|] == tasks;
      batch := UpsertMembers(
        episode.value.db, batch.value, redactor, all, tasks, |decisions| + |attempts|, event, draws);
      if batch.Err? { return Err(batch.error); }
      assert all[..|all|] == all;
      return Ok(Batch(batch.value.db, [id] + batch.value.ids));
    }

    method Checkpoint(request: CheckpointRequest, event: EventId, draws: nat -> MemoryId) returns (r: Result<Receipt>)
      requires Valid()
      modifies this`db
      ensures Reply(db, r) == CheckpointStep(old(db), redactor, request, event, draws)
      ensures Valid() && Extends(old(db), db)
    {
      hide Inv, Extends, CheckpointWrites, RedactCheckpoint;
      CheckpointKeepsInv(db, redactor, request, event, draws);
      CheckpointExtends(db, redactor, request, event, draws);
      if !CheckpointFits(request) { return Err(InvalidInput); }
      var safe := RedactCheckpoint(redactor, request);
      var key := ScopedIdempotencyKey(CheckpointOperation, request.scope, request.idempotencyKey);
      var tx := db;
      var known := GetIdempotent(tx, key, CheckpointFingerprintOf(safe));
      if known.Err? { return Err(known.error); }
      if known.value.Some? { return Ok(known.value.value.(deduplicated := true)); }
      var written := WriteCheckpoint(tx, safe, event, draws);
      if written.Err? { return Err(written.error); }
      tx := written.value.db;
      var receipt := Receipt(event, written.value.ids, |tx.events|, false);
      tx := PutIdempotent(tx, key, CheckpointFingerprintOf(safe), receipt);
      db := tx;
      return Ok(receipt);
    }

    // Enriches a request from the session's events; only reads.
    method EnrichFromSession(request: CheckpointRequest) returns (r: Result<CheckpointRequest>)
      ensures r == ReadSession(db, request)
    {
      hide FindRetry, Enriched;
      if request.scope.sessionId.None? { return Ok(request); }
      var retry := FindRetry(db, request);
      if retry.Err? { return Err(retry.error); }
      var session, before := request.scope.sessionId.value, None;
      if retry.value.Some? {
        session, before := retry.value.value.session, Some(retry.value.value.boundary);
      }
      var enriched := SessionReading.Enrich(db, request, session, before);
      return Ok(enriched);
    }

    // The read and the write take the connection separately; here nothing else
    // commits in between.
    method CheckpointSession(request: CheckpointRequest, event: EventId, draws: nat -> MemoryId)
      returns (r: Result<Receipt>)
      requires Valid()
      modifies this`db
      ensures Reply(db, r) == CheckpointSessionStep(old(db), old(db), redactor, request, event, draws)
      ensures Valid() && Extends(old(db), db)
    {
      hide Inv, Extends, CheckpointStep, ReadSession;
      ExtendsReflexive(db);
      var enriched := EnrichFromSession(request);
      if enriched.Err? { return Err(enriched.error); }
      r := Checkpoint(enriched.value, event, draws);
    }

    method Retract(request: RetractRequest, event: EventId) returns (r: Result<Receipt>)
      requires Valid()
      modifies this`db
      ensures Reply(db, r) == RetractStep(old(db), redactor, request, event)
      ensures Valid() && Extends(old(db), db)
    {
      hide Inv, Extends, HasEvent;
      RetractKeepsInv(db, redactor, request, event);
      RetractExtends(db, redactor, request, event);
      var tx, id := db, request.memoryId;
      if id !in tx.heads { return Err(NotFound); }
      var reason := redactor.text(request.reason);
      var key := if request.idempotencyKey.None? then None
                 else Some(RetractKey(tx.heads[id].durable.key.namespace, id, request.idempotencyKey.value));
      var known := GetIdempotent(tx, key, RetractFingerprint(id, reason));
      if known.Err? { return Err(known.error); }
      if known.value.Some? { return Ok(known.value.value.(deduplicated := true)); }
      var scope := HeadScope(tx, id);
      if scope.None? { return Err(NotFound); }
      if tx.heads[id].state == Retracted { return Err(Conflict); }
      var logged := InsertEvent(tx, Event(event, Lifecycle, scope.value, reason, NO_ATTRIBUTES));
      if logged.Err? { return Err(logged.error); }
      tx := logged.value;
      var sequence := |tx.events|;
      ghost var before := tx;
      tx := tx.(heads := tx.heads[id := tx.heads[id].(state := Retracted, updatedSeq := sequence)]);
      tx := tx.(associations := tx.associations + {Association(event, id)});
      tx := tx.(fts := tx.fts - {id});
      tx := tx.(aliases := tx.aliases - {id});
      tx := tx.(projections := map projected | projected in tx.projections && projected.memory != id ::
                  tx.projections[projected]);
      assert tx == WithRetraction(before, id, event);
      var receipt := Receipt(event, [id], sequence, false);
      tx := PutIdempotent(tx, key, RetractFingerprint(id, reason), receipt);
      db := tx;
      return Ok(receipt);
    }

    method RegisterSearchProjections(
      profile: string, observed: Profile, durable: DurableScope, inputs: seq<SearchIndex.ProjectionInput>)
      returns (r: Result<(nat, nat)>)
      requires Valid()
      modifies this`db
      ensures var spec := SearchIndex.RegisterSpec(old(db), profile, observed, durable, inputs);
              if spec.Ok? then db == spec.value.db && r == Ok((spec.value.registered, spec.value.identical))
              else db == old(db) && r == Err(spec.error)
      ensures Valid() && Extends(old(db), db)
    {
      hide Inv, Extends, SearchIndex.RegisterAll, SearchIndex.Malformed, SearchIndex.Repeats;
      ApplyKeeps(db, redactor, RegisterOp(profile, observed, durable, inputs));
      ExtendsReflexive(db);
      var registered := SearchIndex.RegisterSearchProjections(db, profile, observed, durable, inputs);
      if registered.Err? { return Err(registered.error); }
      db := registered.value.db;
      return Ok((registered.value.registered, registered.value.identical));
    }

    // Whatever became of the derived tables, a full rebuild restores them.
    method RebuildSearchIndex(ghost intact: Db) returns (r: Result<()>)
      requires Inv(intact) && db == intact.(aliases := db.aliases, fts := db.fts)
      modifies this`db
      ensures r.Ok? && db == intact
    {
      hide Inv;
      var rebuilt := SearchIndex.RebuildAllFts(db);
      r := if rebuilt.Ok? then Ok(()) else Err(rebuilt.error);
      if rebuilt.Ok? { db := rebuilt.value; }
      RebuildRestores(old(db), intact);
    }
  }

  lemma RebuildRestores(damaged: Db, intact: Db)
    requires Inv(intact) && damaged == intact.(aliases := damaged.aliases, fts := damaged.fts)
    ensures SearchIndex.Rebuilt(damaged) == Ok(intact)
  {
    hide Inv, IndexCoversHeads, SearchIndex.WithCoverage, SearchIndex.Loadable;
    HeadsLoadable(intact);
    SameHeadsSameCoverage(damaged, intact);
    assert damaged.(fts := map[], aliases := map[]) == intact.(fts := map[], aliases := map[]);
    SearchIndex.RebuiltCovers(
      intact, SearchIndex.WithCoverage(intact.(fts := map[], aliases := map[]), SearchIndex.Indexable(intact)));
  }

  lemma SameHeadsSameCoverage(damaged: Db, intact: Db)
    requires damaged.heads == intact.heads && damaged.revisions == intact.revisions
    ensures SearchIndex.Indexable(damaged) == SearchIndex.Indexable(intact)
    ensures forall id :: SearchIndex.Loadable(damaged, id) == SearchIndex.Loadable(intact, id)
  {
  }

  lemma NoMembersYet(db: Db, redactor: Redactor, event: EventId, draws: nat -> MemoryId)
    ensures UpsertAll(db, redactor, [], event, draws) == Ok(Batch(db, []))
  {
  }

  lemma HeadsLoadable(db: Db)
    requires Inv(db)
    ensures IndexCoversHeads(db)
    ensures forall id | id in SearchIndex.Indexable(db) :: SearchIndex.Loadable(db, id)
  {
  }
}
