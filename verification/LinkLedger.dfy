// The table of latest links against the ledger of all link revisions, over runs.
module LinkLedger {
  import opened Basics
  import opened Domain
  import opened Strings
  import opened Database
  import opened Ledger
  import opened Extension
  import SearchIndex

  function KeyOf(row: LinkRow): LinkKey { LinkKey(row.source, row.target, row.relation) }

  // The ledger's primary key.
  ghost predicate LinkPrimary(db: Db) {
    forall a, b | a in db.links && b in db.links && KeyOf(a) == KeyOf(b) && a.sourceRevision == b.sourceRevision ::
        a == b
  }

  ghost predicate IsLedgered(db: Db, key: LinkKey, link: LatestLink) {
    exists revision :: LinkRow(key.source, revision, key.target, key.relation, link.weight, link.event) in db.links
  }

  // The latest link of a pair is one of its ledger rows,
  ghost predicate LatestLedgered(db: Db) {
    forall key | key in db.latestLinks :: IsLedgered(db, key, db.latestLinks[key])
  }

  // and no other row is newer.
  ghost predicate NoneNewer(db: Db) {
    forall row | row in db.links ::
      KeyOf(row) in db.latestLinks
      && SeqOf(db.events, row.event) <= SeqOf(db.events, db.latestLinks[KeyOf(row)].event)
  }

  // Revisions of one memory recorded by one event carry the same links.
  ghost predicate LinksUniform(db: Db) {
    forall row, at | row in db.links && at in db.revisions && at.memory == row.source
                     && db.revisions[at].recordedSeq == SeqOf(db.events, row.event) ::
      row.(sourceRevision := at.revision) in db.links
  }

  ghost predicate LinkInv(db: Db) { LinkPrimary(db) && LatestLedgered(db) && NoneNewer(db) && LinksUniform(db) }

  lemma EmptyLinkInv()
    ensures LinkInv(EMPTY)
  {
  }

  // --- steps that write no links ----------------------------------------

  lemma RowsPersist(db: Db, after: Db)
    requires LinksGrounded(db) && EventsDistinct(after) && db.events <= after.events
    ensures forall row | row in db.links :: SeqOf(after.events, row.event) == SeqOf(db.events, row.event)
  {
    hide SeqOf;
    forall row | row in db.links ensures SeqOf(after.events, row.event) == SeqOf(db.events, row.event) {
      SeqOfPersists(db.events, after.events, row.event);
    }
  }

  lemma LedgeredRow(db: Db, key: LinkKey, link: LatestLink) returns (row: LinkRow)
    requires IsLedgered(db, key, link)
    ensures row in db.links && KeyOf(row) == key && row.weight == link.weight && row.event == link.event
  {
    var revision :| LinkRow(key.source, revision, key.target, key.relation, link.weight, link.event) in db.links;
    row := LinkRow(key.source, revision, key.target, key.relation, link.weight, link.event);
  }

  lemma MoreRowsLedger(db: Db, after: Db, key: LinkKey, link: LatestLink)
    requires IsLedgered(db, key, link) && db.links <= after.links
    ensures IsLedgered(after, key, link)
  {
    var revision :| LinkRow(key.source, revision, key.target, key.relation, link.weight, link.event) in db.links;
    assert LinkRow(key.source, revision, key.target, key.relation, link.weight, link.event) in after.links;
  }

  lemma SameLinksLatest(db: Db, after: Db)
    requires LatestLedgered(db) && NoneNewer(db)
    requires after.links == db.links && after.latestLinks == db.latestLinks
    requires forall row | row in db.links :: SeqOf(after.events, row.event) == SeqOf(db.events, row.event)
    ensures LatestLedgered(after) && NoneNewer(after)
  {
    hide SeqOf, IsLedgered;
    forall key | key in db.latestLinks ensures IsLedgered(after, key, db.latestLinks[key]) {
      MoreRowsLedger(db, after, key, db.latestLinks[key]);
    }
    forall row | row in db.links
      ensures SeqOf(after.events, row.event) <= SeqOf(after.events, db.latestLinks[KeyOf(row)].event)
    {
      var latest := LedgeredRow(db, KeyOf(row), db.latestLinks[KeyOf(row)]);
    }
  }

  lemma SameLinksKeepInv(db: Db, after: Db)
    requires LinkInv(db) && LinksGrounded(db) && EventsDistinct(after) && db.events <= after.events
    requires after.links == db.links && after.latestLinks == db.latestLinks && after.revisions == db.revisions
    ensures LinkInv(after)
  {
    hide SeqOf, LatestLedgered, NoneNewer, EventsDistinct, LinksGrounded;
    RowsPersist(db, after);
    SameLinksLatest(db, after);
  }

  // --- one memory write -------------------------------------------------

  ghost predicate DistinctLinks(links: seq<LinkInput>) {
    forall i, j | 0 <= i < j < |links| :: links[i].target != links[j].target || links[i].relation != links[j].relation
  }

  lemma {:induction false} CheckedAreDistinct(links: seq<LinkInput>, id: MemoryId, n: nat)
    requires n <= |links| && CheckLinks(links, id, n).Ok?
    ensures forall i, j | 0 <= i < j < n :: links[i].target != links[j].target || links[i].relation != links[j].relation
  {
    if n > 0 { CheckedAreDistinct(links, id, n - 1); }
  }

  lemma {:induction false} LatestAfterIs(latest: map<LinkKey, LatestLink>, id: MemoryId, links: seq<LinkInput>,
      event: EventId)
    requires DistinctLinks(links)
    ensures var after := LatestAfter(latest, id, links, event);
            && latest.Keys <= after.Keys
            && (forall i | 0 <= i < |links| ::
                  var key := LinkKey(id, links[i].target, links[i].relation);
                  key in after && after[key] == LatestLink(CapWeight(links[i].weight), event))
            && (forall key | key in after ::
                  || (key in latest && after[key] == latest[key])
                  || (exists i :: 0 <= i < |links| && key == LinkKey(id, links[i].target, links[i].relation)))
  {
    hide CapWeight;
    if links != [] {
      var n := |links| - 1;
      LatestAfterIs(latest, id, links[..n], event);
    }
  }

  // Revisions this event already recorded for the memory have the request's links.
  ghost predicate Even(db: Db, id: MemoryId, request: MemoryRequest, event: EventId) {
    forall at | at in db.revisions && at.memory == id && db.revisions[at].recordedSeq == |db.events| ::
      forall row :: row in LinkRows(id, at.revision, request.links, event)
               <==> row in db.links && row.source == id && row.sourceRevision == at.revision
  }

  lemma WritePrimary(db: Db, id: MemoryId, request: MemoryRequest, event: EventId)
    requires LinkPrimary(db) && LinksGrounded(db) && RevisionsNumbered(db) && DistinctLinks(request.links)
    ensures LinkPrimary(Written(db, id, request, event))
  {
    hide Written, SeqOf, CapWeight;
    WrittenLedgerRows(db, id, request, event);
  }

  lemma WrittenLatest(db: Db, id: MemoryId, request: MemoryRequest, event: EventId)
    ensures Written(db, id, request, event).latestLinks == LatestAfter(db.latestLinks, id, request.links, event)
  {
    hide SettleAll, LinkRows, TargetAssociations, LatestAfter, Scope.Durable;
  }

  lemma WriteLedgered(db: Db, id: MemoryId, request: MemoryRequest, event: EventId)
    requires LatestLedgered(db) && DistinctLinks(request.links)
    ensures LatestLedgered(Written(db, id, request, event))
  {
    hide Written, CapWeight, DistinctLinks, LatestAfter, IsLedgered, NextRevision;
    var after, revision := Written(db, id, request, event), NextRevision(db, id);
    WrittenLedgerRows(db, id, request, event);
    WrittenLatest(db, id, request, event);
    LatestAfterIs(db.latestLinks, id, request.links, event);
    forall key | key in after.latestLinks ensures IsLedgered(after, key, after.latestLinks[key]) {
      if key in db.latestLinks && after.latestLinks[key] == db.latestLinks[key] {
        MoreRowsLedger(db, after, key, db.latestLinks[key]);
      } else {
        var i :| 0 <= i < |request.links| && key == LinkKey(id, request.links[i].target, request.links[i].relation);
        NewRowLedgers(after, id, revision, request.links, i, event);
      }
    }
  }

  lemma NewRowLedgers(after: Db, id: MemoryId, revision: nat, links: seq<LinkInput>, i: nat, event: EventId)
    requires i < |links| && LinkRows(id, revision, links, event) <= after.links
    ensures IsLedgered(after, LinkKey(id, links[i].target, links[i].relation),
        LatestLink(CapWeight(links[i].weight), event))
  {
    hide CapWeight;
    assert LinkRow(id, revision, links[i].target, links[i].relation, CapWeight(links[i].weight), event)
        in LinkRows(id, revision, links, event);
  }

  lemma WriteNoneNewer(db: Db, id: MemoryId, request: MemoryRequest, event: EventId)
    requires NoneNewer(db) && SeqOf(db.events, event) == |db.events| && DistinctLinks(request.links)
    ensures NoneNewer(Written(db, id, request, event))
  {
    hide Written, SeqOf, CapWeight, DistinctLinks, LatestAfter, NextRevision;
    WrittenLedgerRows(db, id, request, event);
    WrittenLatest(db, id, request, event);
    WrittenRows(db, id, request, event);
    LatestAfterIs(db.latestLinks, id, request.links, event);
    SeqOfAll(db.events);
  }

  lemma SeqOfAll(events: seq<Event>)
    ensures forall id :: SeqOf(events, id) <= |events|
  {
  }

  lemma WriteUniform(db: Db, id: MemoryId, request: MemoryRequest, event: EventId)
    requires LinksUniform(db) && LinksGrounded(db) && RevisionsNumbered(db)
    requires SeqOf(db.events, event) == |db.events| && Even(db, id, request, event)
    ensures LinksUniform(Written(db, id, request, event))
  {
    hide Written, SeqOf, CapWeight, NextRevision;
    var after, revision := Written(db, id, request, event), NextRevision(db, id);
    WrittenLedgerRows(db, id, request, event);
    WrittenRows(db, id, request, event);
    WrittenRevisions(db, id, request, event);
    forall row, at | row in after.links && at in after.revisions && at.memory == row.source
                     && after.revisions[at].recordedSeq == SeqOf(after.events, row.event)
      ensures row.(sourceRevision := at.revision) in after.links
    {
      UniformRow(db, id, request, event, row, at);
    }
  }

  lemma UniformRow(db: Db, id: MemoryId, request: MemoryRequest, event: EventId, row: LinkRow, at: RevisionId)
    requires LinksUniform(db) && LinksGrounded(db) && RevisionsNumbered(db)
    requires SeqOf(db.events, event) == |db.events| && Even(db, id, request, event)
    requires var revision := NextRevision(db, id);
             && (row in db.links || row in LinkRows(id, revision, request.links, event))
             && (at in db.revisions || at == RevisionId(id, revision)) && at.memory == row.source
             && (if at in db.revisions then db.revisions[at].recordedSeq else |db.events|)
                   == SeqOf(db.events, row.event)
    ensures row.(sourceRevision := at.revision) in db.links + LinkRows(id, NextRevision(db, id), request.links, event)
  {
    hide SeqOf, CapWeight, NextRevision, RevisionsNumbered;
    var revision := NextRevision(db, id);
    if row in LinkRows(id, revision, request.links, event) {
      MovedRow(id, revision, at.revision, request.links, event, row);
    } else if at !in db.revisions {
      var own := RevisionId(row.source, row.sourceRevision);
      assert db.revisions[own].recordedSeq == |db.events|;
      assert row in LinkRows(id, row.sourceRevision, request.links, event);
      MovedRow(id, row.sourceRevision, revision, request.links, event, row);
    }
  }

  lemma MovedRow(id: MemoryId, from: nat, to: nat, links: seq<LinkInput>, event: EventId, row: LinkRow)
    requires row in LinkRows(id, from, links, event)
    ensures row.(sourceRevision := to) in LinkRows(id, to, links, event)
  {
    hide CapWeight;
  }

  lemma WriteKeepsLinks(db: Db, id: MemoryId, request: MemoryRequest, event: EventId)
    requires LinkInv(db) && LinksGrounded(db) && RevisionsNumbered(db)
    requires SeqOf(db.events, event) == |db.events| && Even(db, id, request, event)
    requires CheckLinks(request.links, id, |request.links|).Ok?
    ensures LinkInv(Written(db, id, request, event))
  {
    hide LinkPrimary, LatestLedgered, NoneNewer, LinksUniform, LinksGrounded, RevisionsNumbered, Even, Written;
    CheckedAreDistinct(request.links, id, |request.links|);
    WritePrimary(db, id, request, event);
    WriteLedgered(db, id, request, event);
    WriteNoneNewer(db, id, request, event);
    WriteUniform(db, id, request, event);
  }

  lemma UpsertParts(db: Db, request: MemoryRequest, event: EventId, generated: MemoryId)
    requires Upsert(db, request, event, generated).Ok?
    ensures var upserted := Upsert(db, request, event, generated).value;
            && upserted.db == Written(db, upserted.id, request, event)
            && CheckLinks(request.links, upserted.id, |request.links|).Ok?
            && (upserted.id in db.heads ==> db.heads[upserted.id].kind == request.kind)
  {
    hide Written, CheckLinks, ValidateEvidence, ValidateLinks, Scope.Durable, Candidates;
  }

  // Right after an event is logged no revision is recorded by it yet.
  lemma NothingRecorded(db: Db, event: Event)
    requires RevisionsOrdered(db)
    ensures forall at | at in Logged(db, event).revisions ::
              Logged(db, event).revisions[at].recordedSeq < |Logged(db, event).events|
  {
  }

  lemma FreshIsEven(db: Db, id: MemoryId, request: MemoryRequest, event: EventId)
    requires forall at | at in db.revisions :: db.revisions[at].recordedSeq < |db.events|
    ensures Even(db, id, request, event)
  {
  }

  lemma LogKeepsLinks(db: Db, entry: Event)
    requires Inv(db) && LinkInv(db) && !HasEvent(db, entry.id)
    ensures LinkInv(Logged(db, entry)) && Inv(Logged(db, entry))
  {
    hide Inv, LinkInv, HasEvent;
    InsertEventKeepsInv(db, entry);
    Grounded(db);
    Grounded(Logged(db, entry));
    SameLinksKeepInv(db, Logged(db, entry));
  }

  lemma Grounded(db: Db)
    requires Inv(db)
    ensures LinksGrounded(db) && EventsDistinct(db) && RevisionsNumbered(db) && RevisionsOrdered(db)
  {
  }

  lemma RememberKeepsLinks(db: Db, redactor: Redactor, request: RememberRequest, event: EventId, generated: MemoryId)
    requires Inv(db) && LinkInv(db)
    ensures LinkInv(RememberStep(db, redactor, request, event, generated).db)
  {
    hide Inv, LinkInv, GetIdempotent, HasEvent, ValidateEvidence, ValidateLinks, Upsert, PrepareMemory, Scope.Durable,
      Even, Written, RevisionsNumbered, LinksGrounded, EventsDistinct, SeqOf, RememberFingerprintOf, RevisionsOrdered,
      CheckLinks;
    var prepared := PrepareMemory(redactor, request.memory);
    var entry := Event(event, ExplicitMemory, prepared.scope, prepared.body, prepared.attributes);
    if !HasEvent(db, event) {
      var logged := Logged(db, entry);
      LogKeepsLinks(db, entry);
      Grounded(db);
      Grounded(logged);
      SeqOfAppend(db.events, entry);
      var written := Upsert(logged, prepared, event, generated);
      if written.Ok? {
        UpsertParts(logged, prepared, event, generated);
        NothingRecorded(db, entry);
        FreshIsEven(logged, written.value.id, prepared, event);
        WriteKeepsLinks(logged, written.value.id, prepared, event);
        var after := RememberStep(db, redactor, request, event, generated).db;
        if after != db { IdempotencyAside(written.value.db, after); }
      }
    }
  }

  lemma IdempotencyAside(db: Db, after: Db)
    requires after == db.(idempotency := after.idempotency) && LinkInv(db)
    ensures LinkInv(after)
  {
    hide SeqOf, LinkPrimary, LinksUniform, IsLedgered;
    forall key | key in db.latestLinks ensures IsLedgered(after, key, db.latestLinks[key]) {
      MoreRowsLedger(db, after, key, db.latestLinks[key]);
    }
    SameTables(db, after);
  }

  lemma SameTables(db: Db, after: Db)
    requires after.links == db.links && after.revisions == db.revisions && after.events == db.events
    ensures LinkPrimary(db) ==> LinkPrimary(after)
    ensures LinksUniform(db) ==> LinksUniform(after)
  {
    hide SeqOf;
  }

  // --- checkpoints ------------------------------------------------------

  // The links of everything a checkpoint writes, by kind.
  function Template(kind: MemoryKind, episode: MemoryId): seq<LinkInput> {
    match kind
    case Decision => [LinkInput(episode, "belongs_to", 900)]
    case Outcome => [LinkInput(episode, "attempted_for", 900)]
    case Task => [LinkInput(episode, "belongs_to", 850)]
    case _ => []
  }

  // Everything the current event recorded carries the links of its kind.
  ghost predicate Templated(db: Db, episode: MemoryId, event: EventId) {
    forall at | at in db.revisions && db.revisions[at].recordedSeq == |db.events| ::
      at.memory in db.heads
      && forall row :: row in LinkRows(at.memory, at.revision, Template(db.heads[at.memory].kind, episode), event)
                  <==> row in db.links && row.source == at.memory && row.sourceRevision == at.revision
  }

  lemma TemplatedIsEven(db: Db, id: MemoryId, request: MemoryRequest, episode: MemoryId, event: EventId)
    requires Templated(db, episode, event) && request.links == Template(request.kind, episode)
    requires id in db.heads ==> db.heads[id].kind == request.kind
    ensures Even(db, id, request, event)
  {
    hide LinkRows, Template;
  }

  lemma WriteKeepsTemplate(db: Db, id: MemoryId, request: MemoryRequest, episode: MemoryId, event: EventId)
    requires Templated(db, episode, event) && request.links == Template(request.kind, episode)
    requires id in db.heads ==> db.heads[id].kind == request.kind
    requires RevisionsNumbered(db) && LinksGrounded(db)
    ensures Templated(Written(db, id, request, event), episode, event)
  {
    hide Written, Template, CapWeight, SeqOf, NextRevision, Settle, Scope.Durable, RevisedHead;
    var after, revision := Written(db, id, request, event), NextRevision(db, id);
    WrittenLedgerRows(db, id, request, event);
    WrittenRows(db, id, request, event);
    WrittenHeads(db, id, request, event);
    WrittenRevisions(db, id, request, event);
    KindsSettled(db, id, request, event);
    forall row | row in db.links ensures RevisionId(row.source, row.sourceRevision) != RevisionId(id, revision) {}
    forall row | row in LinkRows(id, revision, request.links, event)
      ensures row.source == id && row.sourceRevision == revision {}
  }

  // A member of a checkpoint, prepared.
  ghost predicate FitsTemplate(request: MemoryRequest, episode: MemoryId) {
    request.links == Template(request.kind, episode)
  }

  lemma MembersFit(redactor: Redactor, safe: CheckpointRequest, episode: MemoryId)
    ensures FitsTemplate(PrepareMemory(redactor, EpisodeRequest(safe)), episode)
    ensures forall i | 0 <= i < |MemberRequests(safe, episode)| ::
              FitsTemplate(PrepareMemory(redactor, MemberRequests(safe, episode)[i]), episode)
  {
    hide Trim;
    StructuralRelations();
    forall i | 0 <= i < |MemberRequests(safe, episode)|
      ensures FitsTemplate(PrepareMemory(redactor, MemberRequests(safe, episode)[i]), episode)
    {
      var member := MemberRequests(safe, episode)[i];
      assert member.links == Template(member.kind, episode) && |member.links| == 1;
      assert PrepareMemory(redactor, member).links[0] == member.links[0];
    }
  }

  // What a batch keeps after each of its writes.
  ghost predicate BatchInv(db: Db, episode: MemoryId, event: EventId) {
    && LinkInv(db) && LinksGrounded(db) && RevisionsNumbered(db) && Templated(db, episode, event)
    && SeqOf(db.events, event) == |db.events| > 0 && !IsLifecycle(db.events, event)
  }

  lemma UpsertKeepsBatch(db: Db, request: MemoryRequest, event: EventId, generated: MemoryId, episode: MemoryId)
    requires BatchInv(db, episode, event) && FitsTemplate(request, episode) && Quiet(request)
    requires Upsert(db, request, event, generated).Ok?
    ensures BatchInv(Upsert(db, request, event, generated).value.db, episode, event)
  {
    hide LinkInv, LinksGrounded, RevisionsNumbered, Templated, SeqOf, Upsert, Written, Even, CheckLinks, Template,
      Writable, IsLifecycle, Scope.Durable;
    var upserted := Upsert(db, request, event, generated).value;
    UpsertParts(db, request, event, generated);
    TemplatedIsEven(db, upserted.id, request, episode, event);
    WriteKeepsLinks(db, upserted.id, request, event);
    WriteKeepsTemplate(db, upserted.id, request, episode, event);
    WriteKeepsNumbering(db, upserted.id, request, event);
    WrittenRows(db, upserted.id, request, event);
    UpsertIsWritable(db, request, event, generated);
    GroundedOnly(db, upserted.id, request, event);
  }

  lemma GroundedOnly(db: Db, id: MemoryId, request: MemoryRequest, event: EventId)
    requires RevisionsNumbered(db) && LinksGrounded(db) && Writable(db, id, request, event)
    ensures LinksGrounded(Written(db, id, request, event))
  {
    hide Settle, Scope.Durable, IsLifecycle, SeqOf, Effect, Written, CapWeight;
    WrittenHeads(db, id, request, event);
    WrittenRows(db, id, request, event);
    WrittenLedgerRows(db, id, request, event);
  }

  lemma {:induction false} UpsertAllKeepsBatch(
    db: Db, redactor: Redactor, requests: seq<MemoryRequest>, event: EventId, draws: nat -> MemoryId, episode: MemoryId)
    requires BatchInv(db, episode, event)
    requires forall i | 0 <= i < |requests| ::
               FitsTemplate(PrepareMemory(redactor, requests[i]), episode)
                   && Quiet(PrepareMemory(redactor, requests[i]))
    requires UpsertAll(db, redactor, requests, event, draws).Ok?
    ensures BatchInv(UpsertAll(db, redactor, requests, event, draws).value.db, episode, event)
  {
    hide BatchInv, Upsert, PrepareMemory, FitsTemplate, Quiet;
    if requests != [] {
      var n := |requests| - 1;
      UpsertAllKeepsBatch(db, redactor, requests[..n], event, draws, episode);
      var before := UpsertAll(db, redactor, requests[..n], event, draws).value.db;
      UpsertKeepsBatch(before, PrepareMemory(redactor, requests[n]), event, draws(n + 1), episode);
    }
  }

  lemma LoggedBatch(db: Db, entry: Event, episode: MemoryId)
    requires Inv(db) && LinkInv(db) && !HasEvent(db, entry.id) && entry.kind != Lifecycle
    ensures BatchInv(Logged(db, entry), episode, entry.id)
  {
    hide Inv, LinkInv, HasEvent, LinksGrounded, RevisionsNumbered, RevisionsOrdered, EventsDistinct, SeqOf, IsLifecycle;
    LogKeepsLinks(db, entry);
    Grounded(db);
    Grounded(Logged(db, entry));
    JustLogged(db, entry);
    NothingRecorded(db, entry);
  }

  lemma CheckpointKeepsLinks(
    db: Db, redactor: Redactor, request: CheckpointRequest, event: EventId, draws: nat -> MemoryId)
    requires Inv(db) && LinkInv(db)
    ensures LinkInv(CheckpointStep(db, redactor, request, event, draws).db)
  {
    hide Inv, LinkInv, GetIdempotent, RedactCheckpoint, CheckpointWrites, CheckpointFingerprintOf, Scope.Durable;
    var safe := RedactCheckpoint(redactor, request);
    if CheckpointWrites(db, redactor, safe, event, draws).Ok? {
      CheckpointWritesKeepLinks(db, redactor, safe, event, draws);
      var after := CheckpointStep(db, redactor, request, event, draws).db;
      if after != db {
        IdempotencyAside(CheckpointWrites(db, redactor, safe, event, draws).value.db, after);
      }
    }
  }

  lemma CheckpointWritesKeepLinks(
    db: Db, redactor: Redactor, safe: CheckpointRequest, event: EventId, draws: nat -> MemoryId)
    requires Inv(db) && LinkInv(db) && CheckpointWrites(db, redactor, safe, event, draws).Ok?
    ensures LinkInv(CheckpointWrites(db, redactor, safe, event, draws).value.db)
  {
    hide Inv, LinkInv, HasEvent, ValidateEvidence, Upsert, UpsertAll, PrepareMemory, EpisodeRequest, MemberRequests,
      CheckpointAttributes, LinksGrounded, RevisionsNumbered, Templated, SeqOf, IsLifecycle, FitsTemplate, Quiet;
    var entry := Event(event, Checkpoint, safe.scope, safe.summary, CheckpointAttributes(redactor, safe));
    var logged := Logged(db, entry);
    var first := PrepareMemory(redactor, EpisodeRequest(safe));
    var episode := Upsert(logged, first, event, draws(0)).value;
    LoggedBatch(db, entry, episode.id);
    MembersFit(redactor, safe, episode.id);
    MembersAreQuiet(redactor, safe, episode.id);
    UpsertKeepsBatch(logged, first, event, draws(0), episode.id);
    UpsertAllKeepsBatch(episode.db, redactor, MemberRequests(safe, episode.id), event, draws, episode.id);
  }

  // --- runs -------------------------------------------------------------

  // Everything a memory write records.
  ghost predicate SameRecords(db: Db, after: Db) {
    && after.links == db.links && after.latestLinks == db.latestLinks && after.revisions == db.revisions
    && after.attachments == db.attachments && after.heads.Keys == db.heads.Keys
  }

  lemma LoggedKeepsRecords(
    db: Db, entry: Event, key: Option<IdempotencyKey>, fingerprint: Fingerprint, receipt: Receipt)
    ensures SameRecords(db, db) && SameRecords(db, PutIdempotent(Logged(db, entry), key, fingerprint, receipt))
  {
  }

  lemma ObserveKeepsRecords(db: Db, redactor: Redactor, request: ObserveRequest, generated: EventId)
    ensures SameRecords(db, ObserveStep(db, redactor, request, generated).db)
  {
    hide HasEvent, Scope.Durable, GetIdempotent, ObserveFingerprintOf, ScopedIdempotencyKey, PutIdempotent, SameRecords;
    var prepared := PrepareObserve(redactor, request);
    var id := if request.eventId.Some? then request.eventId.value else generated;
    var entry := Event(id, request.kind, request.scope, prepared.content, prepared.attributes);
    LoggedKeepsRecords(
      db, entry, ScopedIdempotencyKey(ObserveOperation, request.scope, request.idempotencyKey),
      ObserveFingerprintOf(prepared), Receipt(id, [], |Logged(db, entry).events|, false));
  }

  lemma RetractKeepsRecords(db: Db, redactor: Redactor, request: RetractRequest, event: EventId)
    ensures SameRecords(db, RetractStep(db, redactor, request, event).db)
  {
    hide HasEvent, Scope.Durable, HeadScope, GetIdempotent, WithRetraction;
    if request.memoryId in db.heads && HeadScope(db, request.memoryId).Some? {
      var entry := Event(
        event, Lifecycle, HeadScope(db, request.memoryId).value, redactor.text(request.reason), NO_ATTRIBUTES);
      RetractionKeepsRecords(Logged(db, entry), request.memoryId, event);
    }
  }

  lemma RetractionKeepsRecords(db: Db, id: MemoryId, event: EventId)
    requires id in db.heads
    ensures SameRecords(db, WithRetraction(db, id, event))
  {
  }

  // Steps that only touch derived tables.
  lemma DerivedStepsKeepRecords(db: Db, redactor: Redactor, op: Op)
    requires Inv(db) && (op.RegisterProfileOp? || op.RemoveProfileOp? || op.RegisterOp? || op.RebuildOp?)
    ensures SameRecords(db, Apply(db, redactor, op))
  {
    hide Inv, SearchIndex.RegisterAll, SearchIndex.Rebuilt, SearchIndex.Malformed, SearchIndex.Repeats, ObserveStep,
      RetractStep, RememberStep, CheckpointStep;
    if op.RegisterOp? {
      if SearchIndex.RegisterSpec(db, op.profile, op.settings, op.durable, op.inputs).Ok? {
        SearchIndex.RegisterAllKeeps(db, op.profile, op.durable, op.inputs);
      }
    } else if op.RebuildOp? {
      RebuildKeepsInv(db);
    }
  }

  lemma ApplyKeepsLinks(db: Db, redactor: Redactor, op: Op)
    requires Inv(db) && LinkInv(db)
    ensures LinkInv(Apply(db, redactor, op))
  {
    hide Inv, LinkInv, ObserveStep, RetractStep, RememberStep, CheckpointStep, Extends, SameRecords,
      SearchIndex.RegisterSpec, SearchIndex.Rebuilt, SearchIndex.RegisterProfile, SearchIndex.RemoveProfile;
    ApplyKeeps(db, redactor, op);
    match op {
      case RememberOp(request, event, generated) => RememberKeepsLinks(db, redactor, request, event, generated);
      case CheckpointOp(request, event, draws) => CheckpointKeepsLinks(db, redactor, request, event, draws);
      case ObserveOp(request, event) =>
        ObserveKeepsRecords(db, redactor, request, event);
        QuietStepKeepsLinks(db, Apply(db, redactor, op));
      case RetractOp(request, event) =>
        RetractKeepsRecords(db, redactor, request, event);
        QuietStepKeepsLinks(db, Apply(db, redactor, op));
      case _ =>
        DerivedStepsKeepRecords(db, redactor, op);
        QuietStepKeepsLinks(db, Apply(db, redactor, op));
    }
  }

  lemma QuietStepKeepsLinks(db: Db, after: Db)
    requires Inv(db) && Inv(after) && Extends(db, after) && LinkInv(db) && SameRecords(db, after)
    ensures LinkInv(after)
  {
    hide Inv, LinkInv, RevisionsGrow, LedgersGrow, HeadsPersist, ReceiptsPersist, LinksGrounded, EventsDistinct,
      RevisionsNumbered, RevisionsOrdered;
    Grounded(db);
    Grounded(after);
    SameLinksKeepInv(db, after);
  }

  // In every run the latest-link table stays the newest part of the ledger, and
  // revisions of one memory recorded by one event carry the same links.
  lemma {:induction false} RunKeepsLinks(db: Db, redactor: Redactor, ops: seq<Op>)
    requires Inv(db) && LinkInv(db)
    ensures Inv(Run(db, redactor, ops)) && LinkInv(Run(db, redactor, ops))
  {
    hide Inv, LinkInv, Apply, Extends;
    if ops != [] {
      var front := ops[..|ops| - 1];
      RunKeepsLinks(db, redactor, front);
      ApplyKeeps(Run(db, redactor, front), redactor, ops[|ops| - 1]);
      ApplyKeepsLinks(Run(db, redactor, front), redactor, ops[|ops| - 1]);
    }
  }

  // In particular from the empty store.
  lemma ReachableLinks(db: Db, redactor: Redactor)
    requires Reachable(db, redactor)
    ensures Inv(db) && LinkInv(db)
  {
    hide Inv, LinkInv, Run;
    EmptyInv();
    EmptyLinkInv();
    var ops :| db == Run(EMPTY, redactor, ops);
    RunKeepsLinks(EMPTY, redactor, ops);
  }
}
