// What every reachable store satisfies: the mutable heads agree with the
// immutable ledgers, and the derived indexes agree with the heads.
module Ledger {
  import opened Basics
  import opened Domain
  import opened Strings
  import opened Database

  ghost predicate EventsDistinct(db: Db) {
    forall i, j | 0 <= i < j < |db.events| :: db.events[i].id != db.events[j].id
  }

  // Revisions of every memory are numbered 1..headRevision without gaps and
  // recorded in order; every revision has its metadata and attachments.
  ghost predicate RevisionsNumbered(db: Db) {
    && (forall id | id in db.heads :: db.heads[id].headRevision >= 1)
    && (forall at :: at in db.revisions
          <==> at.memory in db.heads && 1 <= at.revision <= db.heads[at.memory].headRevision)
    && db.metadata.Keys == db.revisions.Keys
    && db.attachments.Keys == db.revisions.Keys
  }

  ghost predicate RevisionsOrdered(db: Db) {
    && (forall at | at in db.revisions :: 1 <= db.revisions[at].recordedSeq <= |db.events|)
    && (forall a, b | a in db.revisions && b in db.revisions && a.memory == b.memory && a.revision <= b.revision ::
          db.revisions[a].recordedSeq <= db.revisions[b].recordedSeq)
  }

  function HeadAt(db: Db, id: MemoryId): RevisionId
    requires id in db.heads
  {
    RevisionId(id, db.heads[id].headRevision)
  }

  // When the current revision of a memory was recorded.
  function HeadRecorded(db: Db, id: MemoryId): nat
    requires id in db.heads
  {
    if HeadAt(db, id) in db.revisions then db.revisions[HeadAt(db, id)].recordedSeq else 0
  }

  // Heads carry what the metadata of their current revision records.
  ghost predicate HeadsRecorded(db: Db) {
    forall id | id in db.heads ::
      var head := db.heads[id];
      && HeadAt(db, id) in db.revisions && HeadAt(db, id) in db.metadata
      && HeadRecorded(db, id) <= head.updatedSeq <= |db.events|
      && db.revisions[HeadAt(db, id)].scope.Durable() == head.durable
      && db.metadata[HeadAt(db, id)].key == head.key
      && db.metadata[HeadAt(db, id)].ranking == head.ranking
      && (head.updatedSeq == HeadRecorded(db, id) ==> db.metadata[HeadAt(db, id)].state == head.state)
      && (head.state == Active ==> head.updatedSeq == HeadRecorded(db, id))
  }

  ghost predicate MetadataKinds(db: Db) {
    forall at | at in db.metadata ::
      at.memory in db.heads && db.metadata[at].kind == db.heads[at.memory].kind
  }

  // Link rows name existing memories and the event that recorded their source revision.
  ghost predicate LinksGrounded(db: Db) {
    forall row | row in db.links ::
      && row.source in db.heads && row.target in db.heads && row.source != row.target
      && RevisionId(row.source, row.sourceRevision) in db.revisions
      && SeqOf(db.events, row.event) > 0
      && SeqOf(db.events, row.event) == db.revisions[RevisionId(row.source, row.sourceRevision)].recordedSeq
  }

  ghost predicate AssociationsGrounded(db: Db) {
    forall a | a in db.associations :: a.memory in db.heads && HasEvent(db, a.event)
  }

  // --- lifecycle state, read off the ledgers ----------------------------

  ghost predicate WasRetracted(db: Db, id: MemoryId) {
    exists a | a in db.associations :: a.memory == id && IsLifecycle(db.events, a.event)
  }

  ghost predicate WasSuperseded(db: Db, id: MemoryId) {
    exists row | row in db.links :: row.target == id && Effect(row.relation) == Supersedes
  }

  // A contest counts if it reached the memory after its current revision or
  // was made by that revision.
  ghost predicate IsContested(db: Db, id: MemoryId)
    requires id in db.heads
  {
    exists row | row in db.links ::
      && Effect(row.relation) == Contests
      && ((row.target == id && SeqOf(db.events, row.event) > HeadRecorded(db, id))
          || (row.source == id && row.sourceRevision == db.heads[id].headRevision))
  }

  ghost function LedgerState(db: Db, id: MemoryId): MemoryState
    requires id in db.heads
  {
    if WasRetracted(db, id) then Retracted
    else if WasSuperseded(db, id) then Superseded
    else if IsContested(db, id) then Contested
    else Active
  }

  ghost predicate LedgerDeterminesState(db: Db) {
    forall id | id in db.heads :: db.heads[id].state == LedgerState(db, id)
  }

  // --- derived tables ---------------------------------------------------

  ghost predicate IndexCoversHeads(db: Db) {
    && (forall id :: id in db.aliases <==> id in db.heads && db.heads[id].state != Retracted)
    && db.fts.Keys == db.aliases.Keys
    && (forall id | id in db.aliases ::
          db.aliases[id] == AliasRow(db.heads[id].headRevision, CODE_ALIAS_VERSION)
          && db.fts[id] == db.heads[id].headRevision)
  }

  ghost predicate ProjectionsCurrentOnce(db: Db) {
    forall key | key in db.projections ::
      && key.profile in db.profiles
      && key.memory in db.heads && db.heads[key.memory].state != Retracted
      && RevisionId(key.memory, db.projections[key].revision) in db.revisions
      && db.projections[key].contentHash == HashOf(db.revisions[RevisionId(key.memory, db.projections[key].revision)])
  }

  ghost predicate ReceiptsGrounded(db: Db) {
    forall key | key in db.idempotency && key.ScopedKey? && key.operation == CheckpointOperation ::
      var receipt := db.idempotency[key].receipt;
      && SeqOf(db.events, receipt.eventId) > 0
      && SeqOf(db.events, receipt.eventId) == receipt.databaseSeq
      && db.events[receipt.databaseSeq - 1].kind == Checkpoint
      && db.events[receipt.databaseSeq - 1].scope.Durable() == key.durable
  }

  ghost predicate Inv(db: Db) {
    && EventsDistinct(db)
    && RevisionsNumbered(db) && RevisionsOrdered(db)
    && HeadsRecorded(db) && MetadataKinds(db)
    && LinksGrounded(db) && AssociationsGrounded(db)
    && LedgerDeterminesState(db)
    && IndexCoversHeads(db) && ProjectionsCurrentOnce(db)
    && ReceiptsGrounded(db)
  }

  lemma EmptyInv()
    ensures Inv(EMPTY)
  {
  }

  // --- logging an event -------------------------------------------------

  lemma SeqOfAppend(events: seq<Event>, event: Event)
    ensures SeqOf(events + [event], event.id) == |events| + 1
    ensures forall id | id != event.id :: SeqOf(events + [event], id) == SeqOf(events, id)
  {
    assert (events + [event])[..|events|] == events;
  }

  lemma LoggedEvent(db: Db, event: Event)
    requires !HasEvent(db, event.id)
    ensures forall id | SeqOf(db.events, id) > 0 ::
              SeqOf(db.events + [event], id) == SeqOf(db.events, id)
              && IsLifecycle(db.events + [event], id) == IsLifecycle(db.events, id)
  {
    SeqOfAppend(db.events, event);
  }

  function Logged(db: Db, event: Event): Db { db.(events := db.events + [event]) }

  // Link rows and associations name logged events, so their sequence numbers
  // and kinds do not move when the log grows.
  lemma LogKeepsLedger(db: Db, event: Event)
    requires !HasEvent(db, event.id) && LinksGrounded(db) && AssociationsGrounded(db)
    ensures LinksGrounded(Logged(db, event)) && AssociationsGrounded(Logged(db, event))
    ensures LedgerDeterminesState(db) ==> LedgerDeterminesState(Logged(db, event))
  {
    hide IsLifecycle, SeqOf, Effect;
    var after := Logged(db, event);
    LoggedEvent(db, event);
    forall id | id in db.heads
      ensures WasRetracted(after, id) == WasRetracted(db, id)
      ensures WasSuperseded(after, id) == WasSuperseded(db, id)
      ensures IsContested(after, id) == IsContested(db, id)
    {
    }
  }

  // The revision tables alone decide how revisions are numbered.
  lemma SameTablesSameNumbers(db: Db, after: Db)
    requires after.heads == db.heads && after.revisions == db.revisions
    requires after.metadata == db.metadata && after.attachments == db.attachments
    ensures RevisionsNumbered(db) ==> RevisionsNumbered(after)
  {
  }

  lemma LogKeepsOrder(db: Db, event: Event)
    requires RevisionsOrdered(db)
    ensures RevisionsOrdered(Logged(db, event))
  {
  }

  lemma LogKeepsHeads(db: Db, event: Event)
    requires HeadsRecorded(db)
    ensures HeadsRecorded(Logged(db, event))
  {
    hide Scope.Durable;
    forall id | id in db.heads ensures HeadRecorded(Logged(db, event), id) == HeadRecorded(db, id) {}
  }

  lemma LogKeepsDistinct(db: Db, event: Event)
    requires !HasEvent(db, event.id) && EventsDistinct(db)
    ensures EventsDistinct(Logged(db, event))
  {
    hide SeqOf;
    EventIdUnused(db, event.id);
  }

  lemma LogKeepsStructure(db: Db, event: Event)
    requires !HasEvent(db, event.id)
    requires EventsDistinct(db) && RevisionsNumbered(db) && RevisionsOrdered(db) && HeadsRecorded(db)
    ensures EventsDistinct(Logged(db, event)) && RevisionsNumbered(Logged(db, event))
    ensures RevisionsOrdered(Logged(db, event)) && HeadsRecorded(Logged(db, event))
  {
    hide HasEvent, EventsDistinct, RevisionsNumbered, RevisionsOrdered, HeadsRecorded;
    LogKeepsDistinct(db, event);
    SameTablesSameNumbers(db, Logged(db, event));
    LogKeepsOrder(db, event);
    LogKeepsHeads(db, event);
  }

  lemma LogKeepsReceipts(db: Db, event: Event)
    requires !HasEvent(db, event.id) && ReceiptsGrounded(db)
    ensures ReceiptsGrounded(Logged(db, event))
  {
    hide SeqOf, Scope.Durable;
    LoggedEvent(db, event);
    var after := Logged(db, event);
    forall key | key in db.idempotency && key.ScopedKey? && key.operation == CheckpointOperation
      ensures var receipt := db.idempotency[key].receipt;
              SeqOf(after.events, receipt.eventId) == SeqOf(db.events, receipt.eventId)
    {
    }
  }

  // An event alone changes nothing the invariant speaks of.
  lemma InsertEventKeepsInv(db: Db, event: Event)
    requires Inv(db) && !HasEvent(db, event.id)
    ensures Inv(Logged(db, event))
  {
    hide HasEvent, LedgerDeterminesState, LinksGrounded, AssociationsGrounded, ReceiptsGrounded, EventsDistinct,
      RevisionsNumbered, RevisionsOrdered, HeadsRecorded;
    LogKeepsLedger(db, event);
    LogKeepsStructure(db, event);
    LogKeepsReceipts(db, event);
  }

  lemma EventIdUnused(db: Db, id: EventId)
    requires !HasEvent(db, id)
    ensures forall i | 0 <= i < |db.events| :: db.events[i].id != id
  {
  }

  // --- one memory write -------------------------------------------------

  // What an accepted upsert guarantees before its rows are written. Lifecycle
  // links may only reach memories whose current revision is older.
  ghost predicate Writable(db: Db, id: MemoryId, request: MemoryRequest, event: EventId) {
    && SeqOf(db.events, event) == |db.events| > 0
    && !IsLifecycle(db.events, event)
    && (forall i | 0 <= i < |request.links| ::
          request.links[i].target in db.heads && request.links[i].target != id)
    && (forall i | 0 <= i < |request.links| && Effect(request.links[i].relation) != NoEffect ::
          HeadRecorded(db, request.links[i].target) < |db.events|)
    && (id in db.heads ==>
          Live(db.heads[id].state) && db.heads[id].kind == request.kind
              && db.heads[id].durable == request.scope.Durable())
  }

  lemma SettleKeepsIdentity(id: MemoryId, head: Head, source: MemoryId, links: seq<LinkInput>, sequence: nat)
    ensures var after := Settle(id, head, source, links, sequence);
            && after == head.(state := after.state, updatedSeq := after.updatedSeq)
            && (after.updatedSeq == head.updatedSeq || after.updatedSeq == sequence)
            && (after.state != head.state ==> after.updatedSeq == sequence)
            && (after.state == Active ==> after == head)
            && (after.state == Retracted <==> head.state == Retracted)
  {
    hide Affects, AnyContests;
  }

  // Every head after a write, except for its state.
  lemma WrittenHeads(db: Db, id: MemoryId, request: MemoryRequest, event: EventId)
    ensures var after := Written(db, id, request, event);
            && after.heads.Keys == db.heads.Keys + {id}
            && after.heads[id].headRevision == NextRevision(db, id)
            && after.heads[id].durable == request.scope.Durable() && after.heads[id].kind == request.kind
            && after.heads[id].key == request.key && after.heads[id].ranking == request.ranking
            && after.heads[id].updatedSeq == |db.events| && after.heads[id].state != Retracted
            && (forall m | m in db.heads && m != id ::
                  after.heads[m] == Settle(m, db.heads[m], id, request.links, |db.events|))
            && after.heads[id].state == Settle(id, RevisedHead(db, id, request), id, request.links, |db.events|).state
  {
    hide Affects, AnyContests, Scope.Durable, LinkRows, TargetAssociations;
  }

  // The rows of the new revision, next to all earlier rows.
  lemma WrittenRows(db: Db, id: MemoryId, request: MemoryRequest, event: EventId)
    ensures var after, at := Written(db, id, request, event), RevisionId(id, NextRevision(db, id));
            && after.revisions == db.revisions[at :=
                 Revision(request.title, request.body, request.attributes, request.scope, |db.events|)]
            && after.metadata == db.metadata[at :=
                 Metadata(request.kind, after.heads[id].state, request.key, request.ranking, true)]
            && after.attachments.Keys == db.attachments.Keys + {at}
            && after.events == db.events
  {
    hide SettleAll, LinkRows, TargetAssociations, Scope.Durable;
  }

  lemma WrittenHeadRevisions(db: Db, id: MemoryId, request: MemoryRequest, event: EventId)
    ensures var after := Written(db, id, request, event);
            && after.heads.Keys == db.heads.Keys + {id} && after.heads[id].headRevision == NextRevision(db, id)
            && forall m | m in db.heads && m != id :: after.heads[m].headRevision == db.heads[m].headRevision
  {
    hide Settle, Scope.Durable, Written;
    WrittenHeads(db, id, request, event);
    KindsSettled(db, id, request, event);
  }

  // One revision on top of a memory, old or new, keeps the numbering.
  lemma NumberingGrows(db: Db, after: Db, id: MemoryId)
    requires RevisionsNumbered(db)
    requires after.heads.Keys == db.heads.Keys + {id} && after.heads[id].headRevision == NextRevision(db, id)
    requires forall m | m in db.heads && m != id :: after.heads[m].headRevision == db.heads[m].headRevision
    requires after.revisions.Keys == db.revisions.Keys + {RevisionId(id, NextRevision(db, id))}
    requires after.metadata.Keys == after.revisions.Keys && after.attachments.Keys == after.revisions.Keys
    ensures RevisionsNumbered(after)
  {
    forall at: RevisionId
      ensures at in after.revisions <==>
          at.memory in after.heads && 1 <= at.revision <= after.heads[at.memory].headRevision
    {
    }
  }

  lemma WriteKeepsNumbering(db: Db, id: MemoryId, request: MemoryRequest, event: EventId)
    requires RevisionsNumbered(db)
    ensures RevisionsNumbered(Written(db, id, request, event))
  {
    hide Written, RevisionsNumbered, NextRevision;
    WrittenHeadRevisions(db, id, request, event);
    WrittenRows(db, id, request, event);
    SameKeys(db);
    NumberingGrows(db, Written(db, id, request, event), id);
  }

  lemma SameKeys(db: Db)
    requires RevisionsNumbered(db)
    ensures db.metadata.Keys == db.revisions.Keys && db.attachments.Keys == db.revisions.Keys
  {
  }

  lemma WriteKeepsOrder(db: Db, id: MemoryId, request: MemoryRequest, event: EventId)
    requires RevisionsNumbered(db) && RevisionsOrdered(db) && |db.events| > 0
    ensures RevisionsOrdered(Written(db, id, request, event))
  {
    hide Settle, Scope.Durable, LinkRows, TargetAssociations, SettleAll;
  }

  lemma WriteKeepsKinds(db: Db, id: MemoryId, request: MemoryRequest, event: EventId)
    requires RevisionsNumbered(db) && MetadataKinds(db) && Writable(db, id, request, event)
    ensures MetadataKinds(Written(db, id, request, event))
  {
    hide Settle, Scope.Durable, LinkRows, TargetAssociations, SettleAll, IsLifecycle, SeqOf, Effect;
    WrittenHeads(db, id, request, event);
    KindsSettled(db, id, request, event);
  }

  lemma KindsSettled(db: Db, id: MemoryId, request: MemoryRequest, event: EventId)
    ensures var after := Written(db, id, request, event);
            forall m | m in db.heads && m != id ::
              && m in after.heads && after.heads[m].kind == db.heads[m].kind
                    && after.heads[m].headRevision == db.heads[m].headRevision
              && after.heads[m].durable == db.heads[m].durable && after.heads[m].key == db.heads[m].key
              && after.heads[m].ranking == db.heads[m].ranking && after.heads[m].createdSeq == db.heads[m].createdSeq
              && (after.heads[m].updatedSeq == db.heads[m].updatedSeq || after.heads[m].updatedSeq == |db.events|)
              && (after.heads[m].state != db.heads[m].state ==> after.heads[m].updatedSeq == |db.events|)
              && (after.heads[m].state == Active ==> after.heads[m] == db.heads[m])
              && (after.heads[m].state == Retracted <==> db.heads[m].state == Retracted)
  {
    hide Settle, Written;
    WrittenHeads(db, id, request, event);
    forall m | m in db.heads && m != id
      ensures m in Written(db, id, request, event).heads
      ensures var before, now := db.heads[m], Written(db, id, request, event).heads[m];
              && now == before.(state := now.state, updatedSeq := now.updatedSeq)
              && (now.updatedSeq == before.updatedSeq || now.updatedSeq == |db.events|)
              && (now.state != before.state ==> now.updatedSeq == |db.events|)
              && (now.state == Active ==> now == before)
              && (now.state == Retracted <==> before.state == Retracted)
    {
      SettleKeepsIdentity(m, db.heads[m], id, request.links, |db.events|);
    }
  }

  // A head whose state moved was reached by a link of this write, so its
  // current revision is older than the write.
  lemma MovedIsOlder(db: Db, id: MemoryId, request: MemoryRequest, event: EventId, m: MemoryId)
    requires Writable(db, id, request, event) && m in db.heads && m != id
    requires Written(db, id, request, event).heads[m] != db.heads[m]
    ensures HeadRecorded(db, m) < |db.events|
  {
    hide IsLifecycle, SeqOf, Scope.Durable, Effect, HeadRecorded, Written;
    WrittenHeads(db, id, request, event);
  }

  lemma WrittenHeadRecorded(db: Db, id: MemoryId, request: MemoryRequest, event: EventId, m: MemoryId)
    requires RevisionsNumbered(db) && HeadsRecorded(db) && Writable(db, id, request, event)
    requires m in db.heads && m != id
    ensures var after := Written(db, id, request, event);
            && m in after.heads && HeadAt(after, m) == HeadAt(db, m) && HeadAt(db, m) in after.revisions
            && after.revisions[HeadAt(db, m)] == db.revisions[HeadAt(db, m)]
            && HeadAt(db, m) in after.metadata && after.metadata[HeadAt(db, m)] == db.metadata[HeadAt(db, m)]
  {
    hide Settle, Scope.Durable, Written, SeqOf, IsLifecycle, Effect;
    WrittenHeads(db, id, request, event);
    WrittenRows(db, id, request, event);
    KindsSettled(db, id, request, event);
  }

  lemma WriteKeepsHeads(db: Db, id: MemoryId, request: MemoryRequest, event: EventId)
    requires RevisionsNumbered(db) && HeadsRecorded(db) && Writable(db, id, request, event)
    ensures HeadsRecorded(Written(db, id, request, event))
  {
    hide Settle, Scope.Durable, Written, RevisionsNumbered, Writable;
    var after := Written(db, id, request, event);
    WrittenHeads(db, id, request, event);
    WrittenRows(db, id, request, event);
    KindsSettled(db, id, request, event);
    forall m | m in after.heads
      ensures var head := after.heads[m];
        && HeadAt(after, m) in after.revisions && HeadAt(after, m) in after.metadata
        && HeadRecorded(after, m) <= head.updatedSeq <= |after.events|
        && after.revisions[HeadAt(after, m)].scope.Durable() == head.durable
        && after.metadata[HeadAt(after, m)].key == head.key
        && after.metadata[HeadAt(after, m)].ranking == head.ranking
        && (head.updatedSeq == HeadRecorded(after, m) ==> after.metadata[HeadAt(after, m)].state == head.state)
        && (head.state == Active ==> head.updatedSeq == HeadRecorded(after, m))
    {
      if m != id {
        WrittenHeadRecorded(db, id, request, event, m);
        if after.heads[m] != db.heads[m] { MovedIsOlder(db, id, request, event, m); }
      }
    }
  }

  lemma WrittenLedgerRows(db: Db, id: MemoryId, request: MemoryRequest, event: EventId)
    ensures var after := Written(db, id, request, event);
            && after.links == db.links + LinkRows(id, NextRevision(db, id), request.links, event)
            && after.associations
               == db.associations + TargetAssociations(request.links, event) + {Association(event, id)}
  {
    hide SettleAll, LinkRows, TargetAssociations, Scope.Durable;
  }

  lemma WriteKeepsGrounding(db: Db, id: MemoryId, request: MemoryRequest, event: EventId)
    requires RevisionsNumbered(db) && LinksGrounded(db) && AssociationsGrounded(db) && Writable(db, id, request, event)
    ensures LinksGrounded(Written(db, id, request, event)) && AssociationsGrounded(Written(db, id, request, event))
  {
    hide Settle, Scope.Durable, IsLifecycle, SeqOf, Effect, Written, CapWeight;
    WrittenHeads(db, id, request, event);
    WrittenRows(db, id, request, event);
    WrittenLedgerRows(db, id, request, event);
  }

  // --- lifecycle state after a write ------------------------------------

  lemma WriteKeepsRetractions(db: Db, id: MemoryId, request: MemoryRequest, event: EventId, m: MemoryId)
    requires Writable(db, id, request, event)
    ensures WasRetracted(Written(db, id, request, event), m) == WasRetracted(db, m)
  {
    hide Settle, Scope.Durable, SeqOf, SettleAll, Effect, LinkRows;
  }

  lemma WriteSupersedes(db: Db, id: MemoryId, request: MemoryRequest, event: EventId, m: MemoryId)
    ensures WasSuperseded(Written(db, id, request, event), m)
        <==> WasSuperseded(db, m) || Affects(request.links, m, Supersedes)
  {
    hide Settle, Scope.Durable, SettleAll, Effect;
    var after, revision := Written(db, id, request, event), NextRevision(db, id);
    if i :| && 0 <= i < |request.links| && request.links[i].target == m
            && Effect(request.links[i].relation) == Supersedes
    {
      var link := request.links[i];
      assert LinkRow(id, revision, link.target, link.relation, CapWeight(link.weight), event) in after.links;
    }
  }

  lemma WriteContestsOther(db: Db, id: MemoryId, request: MemoryRequest, event: EventId, m: MemoryId)
    requires Writable(db, id, request, event) && m in db.heads && m != id && RevisionsNumbered(db)
    ensures IsContested(Written(db, id, request, event), m)
        <==> IsContested(db, m) || Affects(request.links, m, Contests)
  {
    hide Settle, Scope.Durable, SettleAll, Effect, SeqOf, IsLifecycle;
    var after, revision := Written(db, id, request, event), NextRevision(db, id);
    KindsSettled(db, id, request, event);
    assert HeadRecorded(after, m) == HeadRecorded(db, m);
    if i :| 0 <= i < |request.links| && request.links[i].target == m && Effect(request.links[i].relation) == Contests {
      var link := request.links[i];
      assert LinkRow(id, revision, link.target, link.relation, CapWeight(link.weight), event) in after.links;
    }
  }

  lemma WriteContestsSource(db: Db, id: MemoryId, request: MemoryRequest, event: EventId)
    requires Writable(db, id, request, event) && RevisionsNumbered(db) && LinksGrounded(db)
    ensures IsContested(Written(db, id, request, event), id) <==> AnyContests(request.links)
  {
    hide Settle, Scope.Durable, SettleAll, Effect, SeqOf, IsLifecycle;
    var after, revision := Written(db, id, request, event), NextRevision(db, id);
    WrittenHeads(db, id, request, event);
    if i :| 0 <= i < |request.links| && Effect(request.links[i].relation) == Contests {
      var link := request.links[i];
      assert LinkRow(id, revision, link.target, link.relation, CapWeight(link.weight), event) in after.links;
    }
  }

  lemma WriteKeepsLedger(db: Db, id: MemoryId, request: MemoryRequest, event: EventId)
    requires RevisionsNumbered(db) && LinksGrounded(db) && AssociationsGrounded(db)
    requires Writable(db, id, request, event) && LedgerDeterminesState(db)
    ensures LedgerDeterminesState(Written(db, id, request, event))
  {
    hide Written, WasRetracted, WasSuperseded, IsContested, Affects, AnyContests, LinksGrounded, AssociationsGrounded;
    var after := Written(db, id, request, event);
    WrittenHeads(db, id, request, event);
    forall m | m in after.heads ensures after.heads[m].state == LedgerState(after, m) {
      WriteKeepsRetractions(db, id, request, event, m);
      WriteSupersedes(db, id, request, event, m);
      if m == id {
        WriteContestsSource(db, id, request, event);
        NotAffected(db, id, request, event, Supersedes);
        NotAffected(db, id, request, event, Contests);
        if id !in db.heads { NothingAboutStrangers(db, id); }
      } else {
        WriteContestsOther(db, id, request, event, m);
        ContestLeavesLive(db, m);
      }
    }
  }

  lemma NotAffected(db: Db, id: MemoryId, request: MemoryRequest, event: EventId, effect: LinkEffect)
    requires Writable(db, id, request, event)
    ensures !Affects(request.links, id, effect)
  {
  }

  lemma NothingAboutStrangers(db: Db, id: MemoryId)
    requires id !in db.heads && LinksGrounded(db) && AssociationsGrounded(db)
    ensures !WasRetracted(db, id) && !WasSuperseded(db, id)
  {
  }

  lemma ContestLeavesLive(db: Db, m: MemoryId)
    requires m in db.heads && LedgerDeterminesState(db)
    ensures db.heads[m].state == Active ==> !IsContested(db, m)
  {
  }

  lemma WriteKeepsIndex(db: Db, id: MemoryId, request: MemoryRequest, event: EventId)
    requires IndexCoversHeads(db)
    ensures IndexCoversHeads(Written(db, id, request, event))
  {
    hide Written, NextRevision;
    WrittenIndex(db, id, request, event);
    WrittenHeadRevisions(db, id, request, event);
    WrittenRetractions(db, id, request, event);
  }

  lemma WrittenRetractions(db: Db, id: MemoryId, request: MemoryRequest, event: EventId)
    ensures var after := Written(db, id, request, event);
            && id in after.heads && after.heads[id].state != Retracted
            && forall m | m in db.heads && m != id ::
                 m in after.heads && (after.heads[m].state == Retracted <==> db.heads[m].state == Retracted)
  {
    hide Written, Settle, RevisedHead, Scope.Durable;
    WrittenHeads(db, id, request, event);
    KindsSettled(db, id, request, event);
  }

  lemma WrittenIndex(db: Db, id: MemoryId, request: MemoryRequest, event: EventId)
    ensures Written(db, id, request, event).aliases
         == db.aliases[id := AliasRow(NextRevision(db, id), CODE_ALIAS_VERSION)]
    ensures Written(db, id, request, event).fts == db.fts[id := NextRevision(db, id)]
  {
    hide SettleAll, LinkRows, TargetAssociations;
  }

  lemma WrittenDerived(db: Db, id: MemoryId, request: MemoryRequest, event: EventId)
    ensures var after := Written(db, id, request, event);
            after.projections == db.projections && after.profiles == db.profiles
  {
    hide SettleAll, LinkRows, TargetAssociations, Scope.Durable;
  }

  lemma WriteKeepsProjections(db: Db, id: MemoryId, request: MemoryRequest, event: EventId)
    requires ProjectionsCurrentOnce(db) && RevisionsNumbered(db)
    ensures ProjectionsCurrentOnce(Written(db, id, request, event))
  {
    hide Written, HashOf;
    WrittenDerived(db, id, request, event);
    WrittenRetractions(db, id, request, event);
    WrittenRows(db, id, request, event);
    NextIsNew(db, id);
  }

  lemma NextIsNew(db: Db, id: MemoryId)
    requires RevisionsNumbered(db)
    ensures RevisionId(id, NextRevision(db, id)) !in db.revisions
  {
  }

  lemma LogNotEmpty(db: Db, id: MemoryId, request: MemoryRequest, event: EventId)
    requires Writable(db, id, request, event)
    ensures |db.events| > 0
  {
  }

  // A write accepted by the checks keeps the whole invariant.
  lemma WriteKeepsInv(db: Db, id: MemoryId, request: MemoryRequest, event: EventId)
    requires Inv(db) && Writable(db, id, request, event)
    ensures Inv(Written(db, id, request, event))
  {
    hide Writable, RevisionsNumbered, RevisionsOrdered, HeadsRecorded, MetadataKinds, LinksGrounded,
      AssociationsGrounded, LedgerDeterminesState, IndexCoversHeads, ProjectionsCurrentOnce, SettleAll, LinkRows,
      TargetAssociations, SeqOf;
    assert |db.events| > 0 by { LogNotEmpty(db, id, request, event); }
    WriteKeepsNumbering(db, id, request, event);
    WriteKeepsOrder(db, id, request, event);
    WriteKeepsKinds(db, id, request, event);
    WriteKeepsProjections(db, id, request, event);
    WriteKeepsHeads(db, id, request, event);
    WriteKeepsGrounding(db, id, request, event);
    WriteKeepsLedger(db, id, request, event);
    WriteKeepsIndex(db, id, request, event);
  }

  // --- transactions -----------------------------------------------------

  lemma {:induction false} LinksExist(db: Db, links: seq<LinkInput>, scope: Scope)
    requires ValidateLinks(db, links, scope).Ok?
    ensures forall i | 0 <= i < |links| :: links[i].target in db.heads
  {
    if links != [] {
      LinksExist(db, links[1..], scope);
      assert forall i | 1 <= i < |links| :: links[i] == links[1..][i - 1];
    }
  }

  ghost predicate CurrentEvent(db: Db, event: EventId) {
    SeqOf(db.events, event) == |db.events| > 0 && !IsLifecycle(db.events, event)
  }

  // Lifecycle links of the request only reach memories revised before this event.
  ghost predicate ReachesOlder(db: Db, request: MemoryRequest) {
    forall i | 0 <= i < |request.links| && Effect(request.links[i].relation) != NoEffect ::
      request.links[i].target in db.heads ==> HeadRecorded(db, request.links[i].target) < |db.events|
  }

  lemma UpsertIsWritable(db: Db, request: MemoryRequest, event: EventId, generated: MemoryId)
    requires CurrentEvent(db, event) && ReachesOlder(db, request)
    requires Upsert(db, request, event, generated).Ok?
    ensures var upserted := Upsert(db, request, event, generated).value;
            && Writable(db, upserted.id, request, event)
            && upserted.db == Written(db, upserted.id, request, event)
  {
    hide Written, IsLifecycle, SeqOf, Effect, Scope.Durable, ValidateEvidence, ValidateLinks, CheckLinks, Candidates;
    LinksExist(db, request.links, request.scope);
    NoSelfLinks(request.links, Upsert(db, request, event, generated).value.id, |request.links|);
  }

  lemma UpsertKeepsInv(db: Db, request: MemoryRequest, event: EventId, generated: MemoryId)
    requires Inv(db) && CurrentEvent(db, event) && ReachesOlder(db, request)
    requires Upsert(db, request, event, generated).Ok?
    ensures Inv(Upsert(db, request, event, generated).value.db)
    ensures Upsert(db, request, event, generated).value.db.events == db.events
  {
    hide Inv, Writable, Upsert, SettleAll, LinkRows, TargetAssociations, ReachesOlder, CurrentEvent;
    UpsertIsWritable(db, request, event, generated);
    WriteKeepsInv(db, Upsert(db, request, event, generated).value.id, request, event);
  }

  lemma JustLogged(db: Db, event: Event)
    requires !HasEvent(db, event.id) && event.kind != Lifecycle
    ensures CurrentEvent(Logged(db, event), event.id)
  {
    SeqOfAppend(db.events, event);
  }

  lemma HeadsAreOlder(db: Db, event: Event, request: MemoryRequest)
    requires Inv(db)
    ensures ReachesOlder(Logged(db, event), request)
  {
    hide Effect, EventsDistinct, LinksGrounded, AssociationsGrounded, LedgerDeterminesState, IndexCoversHeads,
      ProjectionsCurrentOnce, ReceiptsGrounded, MetadataKinds;
  }

  lemma PutKeepsInv(db: Db, key: Option<IdempotencyKey>, fingerprint: Fingerprint, receipt: Receipt)
    requires Inv(db)
    requires key.Some? && key.value.ScopedKey? && key.value.operation == CheckpointOperation ==>
      && SeqOf(db.events, receipt.eventId) == receipt.databaseSeq > 0
      && db.events[receipt.databaseSeq - 1].kind == Checkpoint
      && db.events[receipt.databaseSeq - 1].scope.Durable() == key.value.durable
    ensures Inv(PutIdempotent(db, key, fingerprint, receipt))
  {
    hide SeqOf, Scope.Durable, EventsDistinct, RevisionsNumbered, RevisionsOrdered, HeadsRecorded, MetadataKinds,
      LinksGrounded, AssociationsGrounded, LedgerDeterminesState, HashOf;
    CanonKeepsInv(db, PutIdempotent(db, key, fingerprint, receipt));
  }

  // The canonical tables, leaving out receipts and derived tables.
  ghost predicate SameCanon(db: Db, after: Db) {
    && after.events == db.events && after.heads == db.heads && after.revisions == db.revisions
    && after.metadata == db.metadata && after.attachments == db.attachments
    && after.links == db.links && after.latestLinks == db.latestLinks && after.associations == db.associations
  }

  lemma CanonStructure(db: Db, after: Db)
    requires SameCanon(db, after)
    ensures EventsDistinct(after) == EventsDistinct(db) && RevisionsNumbered(after) == RevisionsNumbered(db)
    ensures RevisionsOrdered(after) == RevisionsOrdered(db) && MetadataKinds(after) == MetadataKinds(db)
  {
  }

  lemma CanonHeads(db: Db, after: Db)
    requires SameCanon(db, after)
    ensures HeadsRecorded(after) == HeadsRecorded(db) && LinksGrounded(after) == LinksGrounded(db)
    ensures AssociationsGrounded(after) == AssociationsGrounded(db)
  {
    hide SeqOf, Scope.Durable;
  }

  lemma CanonLedger(db: Db, after: Db)
    requires SameCanon(db, after)
    ensures LedgerDeterminesState(after) == LedgerDeterminesState(db)
  {
    hide SeqOf, IsLifecycle, Effect;
    assert forall id :: WasRetracted(after, id) == WasRetracted(db, id);
    assert forall id :: WasSuperseded(after, id) == WasSuperseded(db, id);
    assert forall id | id in db.heads :: IsContested(after, id) == IsContested(db, id);
  }

  // Only receipts and derived tables need looking at when the rest is unchanged.
  lemma CanonKeepsInv(db: Db, after: Db)
    requires Inv(db) && SameCanon(db, after)
    requires IndexCoversHeads(after) && ProjectionsCurrentOnce(after) && ReceiptsGrounded(after)
    ensures Inv(after)
  {
    hide EventsDistinct, RevisionsNumbered, RevisionsOrdered, HeadsRecorded, MetadataKinds, LinksGrounded,
      AssociationsGrounded, LedgerDeterminesState, IndexCoversHeads, ProjectionsCurrentOnce, ReceiptsGrounded;
    CanonStructure(db, after);
    CanonHeads(db, after);
    CanonLedger(db, after);
  }

  // Observing keeps the invariant.
  lemma ObserveKeepsInv(db: Db, redactor: Redactor, request: ObserveRequest, generated: EventId)
    requires Inv(db)
    ensures Inv(ObserveStep(db, redactor, request, generated).db)
  {
    hide Inv, GetIdempotent, HasEvent;
    var prepared := PrepareObserve(redactor, request);
    var id := if request.eventId.Some? then request.eventId.value else generated;
    var event := Event(id, request.kind, request.scope, prepared.content, prepared.attributes);
    if !HasEvent(db, id) {
      InsertEventKeepsInv(db, event);
      PutKeepsInv(Logged(db, event), ScopedIdempotencyKey(ObserveOperation, request.scope, request.idempotencyKey),
                  ObserveFingerprintOf(prepared), Receipt(id, [], |db.events| + 1, false));
    }
  }

  // Remembering keeps the invariant.
  lemma RememberKeepsInv(db: Db, redactor: Redactor, request: RememberRequest, event: EventId, generated: MemoryId)
    requires Inv(db)
    ensures Inv(RememberStep(db, redactor, request, event, generated).db)
  {
    hide Inv, GetIdempotent, HasEvent, ValidateEvidence, ValidateLinks, Upsert, PrepareMemory, Scope.Durable,
      CurrentEvent, ReachesOlder;
    var prepared := PrepareMemory(redactor, request.memory);
    var entry := Event(event, ExplicitMemory, prepared.scope, prepared.body, prepared.attributes);
    if !HasEvent(db, event) {
      var logged := Logged(db, entry);
      InsertEventKeepsInv(db, entry);
      JustLogged(db, entry);
      HeadsAreOlder(db, entry, prepared);
      var written := Upsert(logged, prepared, event, generated);
      if written.Ok? {
        UpsertKeepsInv(logged, prepared, event, generated);
        PutKeepsInv(written.value.db, ScopedIdempotencyKey(RememberOperation, prepared.scope, request.idempotencyKey),
                    RememberFingerprintOf(prepared),
                    Receipt(event, [written.value.id], |written.value.db.events|, false));
      }
    }
  }

  // --- checkpoints ------------------------------------------------------

  ghost predicate Quiet(request: MemoryRequest) {
    forall i | 0 <= i < |request.links| :: Effect(request.links[i].relation) == NoEffect
  }

  lemma StructuralRelations()
    ensures Trim("belongs_to") == "belongs_to" && Trim("attempted_for") == "attempted_for"
    ensures Effect("belongs_to") == NoEffect && Effect("attempted_for") == NoEffect
  {
    assert AsciiLower("belongs_to")[0] == 'b';
    assert AsciiLower("attempted_for")[0] == 'a';
  }

  lemma MembersAreQuiet(redactor: Redactor, request: CheckpointRequest, episode: MemoryId)
    ensures Quiet(PrepareMemory(redactor, EpisodeRequest(request)))
    ensures forall i | 0 <= i < |MemberRequests(request, episode)| ::
              Quiet(PrepareMemory(redactor, MemberRequests(request, episode)[i]))
  {
    hide Trim, Effect;
    StructuralRelations();
  }

  lemma {:induction false} UpsertAllKeepsInv(
    db: Db, redactor: Redactor, requests: seq<MemoryRequest>, event: EventId, generated: nat -> MemoryId)
    requires Inv(db) && CurrentEvent(db, event)
    requires forall i | 0 <= i < |requests| :: Quiet(PrepareMemory(redactor, requests[i]))
    requires UpsertAll(db, redactor, requests, event, generated).Ok?
    ensures Inv(UpsertAll(db, redactor, requests, event, generated).value.db)
    ensures UpsertAll(db, redactor, requests, event, generated).value.db.events == db.events
  {
    hide Inv, Upsert, PrepareMemory;
    if requests != [] {
      var n := |requests| - 1;
      UpsertAllKeepsInv(db, redactor, requests[..n], event, generated);
      var before := UpsertAll(db, redactor, requests[..n], event, generated).value;
      UpsertKeepsInv(before.db, PrepareMemory(redactor, requests[n]), event, generated(n + 1));
    }
  }

  lemma CheckpointWritesKeepInv(
    db: Db, redactor: Redactor, safe: CheckpointRequest, event: EventId, generated: nat -> MemoryId)
    requires Inv(db) && CheckpointWrites(db, redactor, safe, event, generated).Ok?
    ensures var after := CheckpointWrites(db, redactor, safe, event, generated).value.db;
            && Inv(after) && !HasEvent(db, event)
            && after.events == db.events + [Event(event, Checkpoint, safe.scope, safe.summary,
                                                  CheckpointAttributes(redactor, safe))]
  {
    hide Inv, HasEvent, ValidateEvidence, Upsert, UpsertAll, PrepareMemory, EpisodeRequest, MemberRequests,
      CheckpointAttributes, CurrentEvent;
    var entry := Event(event, Checkpoint, safe.scope, safe.summary, CheckpointAttributes(redactor, safe));
    var logged := Logged(db, entry);
    InsertEventKeepsInv(db, entry);
    JustLogged(db, entry);
    var first := PrepareMemory(redactor, EpisodeRequest(safe));
    var episode := Upsert(logged, first, event, generated(0)).value;
    MembersAreQuiet(redactor, safe, episode.id);
    UpsertKeepsInv(logged, first, event, generated(0));
    SameLogSameEvent(logged, episode.db, event);
    UpsertAllKeepsInv(episode.db, redactor, MemberRequests(safe, episode.id), event, generated);
  }

  lemma SameLogSameEvent(db: Db, after: Db, event: EventId)
    requires CurrentEvent(db, event) && after.events == db.events
    ensures CurrentEvent(after, event)
  {
  }

  // Checkpointing keeps the invariant.
  lemma CheckpointKeepsInv(
    db: Db, redactor: Redactor, request: CheckpointRequest, event: EventId, generated: nat -> MemoryId)
    requires Inv(db)
    ensures Inv(CheckpointStep(db, redactor, request, event, generated).db)
  {
    hide Inv, GetIdempotent, CheckpointWrites, RedactCheckpoint, CheckpointAttributes;
    var safe := RedactCheckpoint(redactor, request);
    RedactionKeepsScope(redactor, request);
    var written := CheckpointWrites(db, redactor, safe, event, generated);
    if written.Ok? {
      CheckpointWritesKeepInv(db, redactor, safe, event, generated);
      var after := written.value.db;
      SeqOfAppend(db.events, after.events[|db.events|]);
      PutKeepsInv(after, ScopedIdempotencyKey(CheckpointOperation, request.scope, request.idempotencyKey),
                  CheckpointFingerprintOf(safe), Receipt(event, written.value.ids, |after.events|, false));
    }
  }

  lemma RedactionKeepsScope(redactor: Redactor, request: CheckpointRequest)
    ensures RedactCheckpoint(redactor, request).scope == request.scope
  {
  }

  // --- retraction -------------------------------------------------------

  lemma RetractionKeepsLedger(db: Db, id: MemoryId, event: EventId)
    requires id in db.heads && IsLifecycle(db.events, event) && RevisionsNumbered(db) && LedgerDeterminesState(db)
    ensures LedgerDeterminesState(WithRetraction(db, id, event))
  {
    hide SeqOf, IsLifecycle, Effect;
    var after := WithRetraction(db, id, event);
    assert Association(event, id) in after.associations;
    forall m | m in db.heads && m != id
      ensures WasRetracted(after, m) == WasRetracted(db, m)
      ensures WasSuperseded(after, m) == WasSuperseded(db, m)
      ensures IsContested(after, m) == IsContested(db, m)
    {
      assert HeadRecorded(after, m) == HeadRecorded(db, m);
    }
  }

  lemma RetractionKeepsGrounding(db: Db, id: MemoryId, event: EventId)
    requires id in db.heads && HasEvent(db, event) && LinksGrounded(db) && AssociationsGrounded(db)
    ensures LinksGrounded(WithRetraction(db, id, event)) && AssociationsGrounded(WithRetraction(db, id, event))
  {
    hide SeqOf;
  }

  lemma RetractionKeepsHeads(db: Db, id: MemoryId, event: EventId)
    requires id in db.heads && HeadRecorded(db, id) < |db.events| && HeadsRecorded(db)
    ensures HeadsRecorded(WithRetraction(db, id, event))
  {
    hide Scope.Durable;
  }

  lemma RetractionKeepsRevisions(db: Db, id: MemoryId, event: EventId)
    requires id in db.heads && RevisionsNumbered(db)
    ensures RevisionsNumbered(WithRetraction(db, id, event))
  {
  }

  lemma RetractionKeepsOrder(db: Db, id: MemoryId, event: EventId)
    requires id in db.heads && RevisionsOrdered(db)
    ensures RevisionsOrdered(WithRetraction(db, id, event))
  {
  }

  lemma RetractionKeepsKinds(db: Db, id: MemoryId, event: EventId)
    requires id in db.heads && MetadataKinds(db)
    ensures MetadataKinds(WithRetraction(db, id, event))
  {
  }

  lemma RetractionKeepsIndex(db: Db, id: MemoryId, event: EventId)
    requires id in db.heads && IndexCoversHeads(db) && ProjectionsCurrentOnce(db)
    ensures IndexCoversHeads(WithRetraction(db, id, event)) && ProjectionsCurrentOnce(WithRetraction(db, id, event))
  {
    hide HashOf;
  }

  lemma RetractionKeepsInv(db: Db, id: MemoryId, event: EventId)
    requires Inv(db) && id in db.heads && HeadRecorded(db, id) < |db.events|
    requires SeqOf(db.events, event) > 0 && IsLifecycle(db.events, event)
    ensures Inv(WithRetraction(db, id, event))
  {
    hide HeadsRecorded, MetadataKinds, RevisionsNumbered, IndexCoversHeads, ProjectionsCurrentOnce,
      LedgerDeterminesState, LinksGrounded, AssociationsGrounded, SeqOf, IsLifecycle;
    hide RevisionsOrdered;
    RetractionKeepsLedger(db, id, event);
    RetractionKeepsGrounding(db, id, event);
    RetractionKeepsHeads(db, id, event);
    RetractionKeepsRevisions(db, id, event);
    RetractionKeepsOrder(db, id, event);
    RetractionKeepsKinds(db, id, event);
    RetractionKeepsIndex(db, id, event);
  }

  // Retracting keeps the invariant.
  lemma RetractKeepsInv(db: Db, redactor: Redactor, request: RetractRequest, event: EventId)
    requires Inv(db)
    ensures Inv(RetractStep(db, redactor, request, event).db)
  {
    hide Inv, GetIdempotent, HasEvent, WithRetraction, IsLifecycle, HeadRecorded;
    var id := request.memoryId;
    if id in db.heads && !HasEvent(db, event) && HeadScope(db, id).Some? {
      var entry := Event(event, Lifecycle, HeadScope(db, id).value, redactor.text(request.reason), NO_ATTRIBUTES);
      var logged := Logged(db, entry);
      InsertEventKeepsInv(db, entry);
      RetractedLater(db, id, entry);
      RetractionKeepsInv(logged, id, event);
      var key := if request.idempotencyKey.None? then None
                 else Some(RetractKey(db.heads[id].durable.key.namespace, id, request.idempotencyKey.value));
      PutKeepsInv(WithRetraction(logged, id, event), key, RetractFingerprint(id, redactor.text(request.reason)),
                  Receipt(event, [id], |logged.events|, false));
    }
  }

  lemma RetractedLater(db: Db, id: MemoryId, entry: Event)
    requires Inv(db) && id in db.heads && !HasEvent(db, entry.id) && entry.kind == Lifecycle
    ensures HeadRecorded(Logged(db, entry), id) < |Logged(db, entry).events|
    ensures SeqOf(Logged(db, entry).events, entry.id) > 0 && IsLifecycle(Logged(db, entry).events, entry.id)
  {
    SeqOfAppend(db.events, entry);
  }
}
