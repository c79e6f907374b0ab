// Restoring a snapshot that predates per-revision metadata and the link ledger:
// the missing tables are projected from the current heads and the latest links.
module LegacyBackfill {
  import opened Basics
  import opened Domain
  import opened Database
  import opened Ledger
  import opened LinkLedger

  // Rows derived from the heads; only untouched current revisions are marked complete.
  function BackfillMetadata(db: Db): Db {
    db.(metadata := map at | at in db.revisions && (at in db.metadata || at.memory in db.heads) ::
      if at in db.metadata then db.metadata[at]
      else
        var head := db.heads[at.memory];
        Metadata(head.kind, head.state, head.key, head.ranking,
                 at.revision == head.headRevision && db.revisions[at].recordedSeq == head.updatedSeq))
  }

  function WithoutMetadata(db: Db): Db { db.(metadata := map[]) }

  // A current revision whose head nothing has changed since it was recorded.
  predicate Untouched(db: Db, at: RevisionId) {
    at.memory in db.heads && at == HeadAt(db, at.memory)
        && db.heads[at.memory].updatedSeq == HeadRecorded(db, at.memory)
  }

  // Every revision gets a row, every row marked complete carries the original
  // values, and a row is complete exactly when it is the head's revision and
  // nothing has touched the head since.
  lemma BackfillIsSound(db: Db)
    requires Inv(db)
    ensures var filled := BackfillMetadata(WithoutMetadata(db)).metadata;
            && filled.Keys == db.metadata.Keys
            && (forall at | at in filled && filled[at].complete :: filled[at] == db.metadata[at].(complete := true))
            && (forall at | at in filled :: filled[at].kind == db.metadata[at].kind)
            && (forall at | at in filled :: filled[at].complete == Untouched(db, at))
  {
    hide Inv, BackfillMetadata, Untouched;
    var filled := BackfillMetadata(WithoutMetadata(db)).metadata;
    forall at ensures at in filled <==> at in db.metadata { BackfilledRow(db, at); }
    forall at | at in filled
      ensures filled[at].complete ==> filled[at] == db.metadata[at].(complete := true)
      ensures filled[at].kind == db.metadata[at].kind
      ensures filled[at].complete == Untouched(db, at)
    {
      BackfilledRow(db, at);
    }
  }

  lemma BackfilledRow(db: Db, at: RevisionId)
    requires Inv(db)
    ensures var filled := BackfillMetadata(WithoutMetadata(db)).metadata;
            && (at in filled <==> at in db.metadata)
            && (at in filled ==>
                  && filled[at].kind == db.metadata[at].kind
                  && filled[at].complete == Untouched(db, at)
                  && (filled[at].complete ==> filled[at] == db.metadata[at].(complete := true)))
  {
    hide Scope.Durable, EventsDistinct, LinksGrounded, AssociationsGrounded, LedgerDeterminesState,
      IndexCoversHeads, ProjectionsCurrentOnce, ReceiptsGrounded, RevisionsOrdered;
  }

  // Existing rows are never overwritten.
  lemma BackfillKeepsRows(db: Db)
    requires Inv(db)
    ensures BackfillMetadata(db) == db
  {
    hide Scope.Durable, SeqOf, EventsDistinct, LinksGrounded, AssociationsGrounded, LedgerDeterminesState,
      IndexCoversHeads, ProjectionsCurrentOnce, ReceiptsGrounded, HeadsRecorded, MetadataKinds, RevisionsOrdered;
    assert BackfillMetadata(db).metadata == db.metadata;
  }

  // --- the link ledger --------------------------------------------------

  function RowAt(key: LinkKey, link: LatestLink, revision: nat): LinkRow {
    LinkRow(key.source, revision, key.target, key.relation, link.weight, link.event)
  }

  // Every latest link, at the revisions its event recorded for its source.
  function BackfillLinks(db: Db): set<LinkRow> {
    set key, at | key in db.latestLinks && at in db.revisions && at.memory == key.source
                  && SeqOf(db.events, db.latestLinks[key].event) > 0
                  && db.revisions[at].recordedSeq == SeqOf(db.events, db.latestLinks[key].event) ::
      RowAt(key, db.latestLinks[key], at.revision)
  }

  lemma BackfilledIsLedgered(db: Db, key: LinkKey, at: RevisionId)
    requires LinkInv(db) && LinksGrounded(db) && key in db.latestLinks && at in db.revisions && at.memory == key.source
    requires db.revisions[at].recordedSeq == SeqOf(db.events, db.latestLinks[key].event)
    ensures RowAt(key, db.latestLinks[key], at.revision) in db.links
  {
    hide SeqOf, LinkPrimary, NoneNewer;
    var row := LedgeredRow(db, key, db.latestLinks[key]);
    assert row.(sourceRevision := at.revision) == RowAt(key, db.latestLinks[key], at.revision);
  }

  lemma LatestIsBackfilled(db: Db, row: LinkRow)
    requires LinkInv(db) && LinksGrounded(db) && row in db.links && KeyOf(row) in db.latestLinks
    requires db.latestLinks[KeyOf(row)].event == row.event
    ensures row in BackfillLinks(db)
  {
    hide SeqOf, NoneNewer, LinksUniform, IsLedgered;
    var at := RevisionId(row.source, row.sourceRevision);
    BackfilledIsLedgered(db, KeyOf(row), at);
    assert RowAt(KeyOf(row), db.latestLinks[KeyOf(row)], at.revision) == row;
  }

  // The rebuilt ledger holds exactly the original rows that were not replaced by
  // a later event for the same pair and relation.
  lemma LinkBackfillIsExact(db: Db)
    requires LinkInv(db) && LinksGrounded(db)
    ensures forall row :: row in BackfillLinks(db)
              <==> row in db.links && KeyOf(row) in db.latestLinks && db.latestLinks[KeyOf(row)].event == row.event
  {
    hide SeqOf, LinkInv, LinksGrounded;
    forall row
      ensures row in BackfillLinks(db)
         <==> row in db.links && KeyOf(row) in db.latestLinks && db.latestLinks[KeyOf(row)].event == row.event
    {
      if row in BackfillLinks(db) {
        var key, at :| && key in db.latestLinks && at in db.revisions && at.memory == key.source
                       && SeqOf(db.events, db.latestLinks[key].event) > 0
                       && db.revisions[at].recordedSeq == SeqOf(db.events, db.latestLinks[key].event)
                       && row == RowAt(key, db.latestLinks[key], at.revision);
        BackfilledIsLedgered(db, key, at);
      } else if row in db.links && KeyOf(row) in db.latestLinks && db.latestLinks[KeyOf(row)].event == row.event {
        LatestIsBackfilled(db, row);
      }
    }
  }

  function WithBackfilledLinks(db: Db): Db { db.(links := BackfillLinks(db)) }

  // For every ledger row there is a backfilled one of its pair that is no older.
  lemma NewerIsBackfilled(db: Db, row: LinkRow) returns (newest: LinkRow)
    requires LinkInv(db) && LinksGrounded(db) && row in db.links
    ensures newest in BackfillLinks(db) && KeyOf(newest) == KeyOf(row)
    ensures SeqOf(db.events, newest.event) >= SeqOf(db.events, row.event)
    ensures newest in db.links
  {
    hide SeqOf, LinkPrimary, LinksUniform, IsLedgered;
    assert KeyOf(row) in db.latestLinks;
    newest := LedgeredRow(db, KeyOf(row), db.latestLinks[KeyOf(row)]);
    LatestIsBackfilled(db, newest);
  }

  // A row of the head's own revision is the newest of its pair.
  lemma OwnRowIsBackfilled(db: Db, row: LinkRow)
    requires Inv(db) && LinkInv(db) && row in db.links
    requires row.source in db.heads && row.sourceRevision == db.heads[row.source].headRevision
    ensures row in BackfillLinks(db)
  {
    hide SeqOf, LinkPrimary, LinksUniform, IsLedgered, HeadsRecorded, MetadataKinds, AssociationsGrounded,
      LedgerDeterminesState, IndexCoversHeads, ProjectionsCurrentOnce, ReceiptsGrounded;
    var newest := LedgeredRow(db, KeyOf(row), db.latestLinks[KeyOf(row)]);
    var own, other := RevisionId(row.source, row.sourceRevision), RevisionId(row.source, newest.sourceRevision);
    assert db.revisions[other].recordedSeq <= db.revisions[own].recordedSeq;
    SameSeqSameEvent(db.events, row.event, newest.event);
    LatestIsBackfilled(db, row);
  }

  lemma SameSeqSameEvent(events: seq<Event>, a: EventId, b: EventId)
    requires SeqOf(events, a) == SeqOf(events, b) > 0
    ensures a == b
  {
  }

  // A store restored with the rebuilt ledger still explains every head.
  lemma BackfilledLedgerExplainsHeads(db: Db)
    requires Inv(db) && LinkInv(db)
    ensures LedgerDeterminesState(WithBackfilledLinks(db))
  {
    hide Inv, LinkInv, LinksGrounded, SeqOf, IsLifecycle, Effect, BackfillLinks;
    var after := WithBackfilledLinks(db);
    assert LinksGrounded(db) && LedgerDeterminesState(db) by { GroundedState(db); }
    LinkBackfillIsExact(db);
    forall id | id in db.heads
      ensures WasRetracted(after, id) == WasRetracted(db, id)
      ensures WasSuperseded(after, id) == WasSuperseded(db, id)
      ensures IsContested(after, id) == IsContested(db, id)
    {
      if row :| row in db.links && row.target == id && Effect(row.relation) == Supersedes {
        var newest := NewerIsBackfilled(db, row);
        assert newest.target == id && newest.relation == row.relation;
      }
      BackfilledContest(db, id);
    }
  }

  lemma GroundedState(db: Db)
    requires Inv(db)
    ensures LinksGrounded(db) && LedgerDeterminesState(db)
  {
  }

  lemma BackfilledContest(db: Db, id: MemoryId)
    requires Inv(db) && LinkInv(db) && id in db.heads
    ensures IsContested(WithBackfilledLinks(db), id) == IsContested(db, id)
  {
    hide Inv, LinkInv, SeqOf, Effect, BackfillLinks, LinksGrounded;
    GroundedState(db);
    LinkBackfillIsExact(db);
    var after := WithBackfilledLinks(db);
    assert HeadRecorded(after, id) == HeadRecorded(db, id);
    if IsContested(db, id) {
      var row :| && row in db.links && Effect(row.relation) == Contests
                 && ((row.target == id && SeqOf(db.events, row.event) > HeadRecorded(db, id))
                     || (row.source == id && row.sourceRevision == db.heads[id].headRevision));
      if row.target == id && SeqOf(db.events, row.event) > HeadRecorded(db, id) {
        var newest := NewerIsBackfilled(db, row);
        assert newest in after.links && newest.target == id && newest.relation == row.relation;
      } else {
        OwnRowIsBackfilled(db, row);
        assert row in after.links;
      }
    }
  }
}
