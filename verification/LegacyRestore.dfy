// A store restored from a first-version snapshot: it satisfies the invariant of
// every other store, and what it still knows of the time before.
module LegacyRestore {
  import opened Basics
  import opened Domain
  import opened Database
  import opened Ledger
  import opened Extension
  import opened LinkLedger
  import opened LegacyBackfill
  import opened Provenance
  import opened TimeTravel

  // A first-version snapshot holds neither revision metadata nor the link ledger;
  // search profiles are never part of a snapshot.
  function Restored(db: Db): Db {
    BackfillMetadata(db.(metadata := map[], links := BackfillLinks(db), profiles := map[], projections := map[]))
  }

  // Every revision carries what its memory's head says.
  lemma RestoredTables(db: Db)
    requires RevisionsNumbered(db)
    ensures var r := Restored(db);
            && r == db.(metadata := r.metadata, links := BackfillLinks(db), profiles := map[], projections := map[])
            && r.metadata.Keys == db.revisions.Keys
            && forall at | at in db.revisions ::
                 && at.memory in db.heads
                 && r.metadata[at].kind == db.heads[at.memory].kind && r.metadata[at].state == db.heads[at.memory].state
                 && r.metadata[at].key == db.heads[at.memory].key
                       && r.metadata[at].ranking == db.heads[at.memory].ranking
  {
    hide BackfillLinks;
  }

  // --- the restored store is a valid store ------------------------------

  lemma RestoredStructure(db: Db)
    requires RevisionsNumbered(db) && RevisionsOrdered(db)
    ensures var r := Restored(db); RevisionsNumbered(r) && RevisionsOrdered(r) && MetadataKinds(r)
  {
    hide Restored;
    RestoredTables(db);
  }

  lemma RestoredHeads(db: Db)
    requires RevisionsNumbered(db) && HeadsRecorded(db)
    ensures HeadsRecorded(Restored(db))
  {
    hide Restored, Scope.Durable, RevisionsNumbered;
    RestoredTables(db);
    var r := Restored(db);
    forall id | id in r.heads ensures HeadAt(r, id) in r.metadata && r.metadata[HeadAt(r, id)].key == r.heads[id].key {
      assert HeadAt(r, id) == HeadAt(db, id);
    }
  }

  lemma RestoredLinks(db: Db)
    requires LinksGrounded(db) && LinkInv(db) && RevisionsNumbered(db)
    ensures LinksGrounded(Restored(db))
  {
    hide Restored, SeqOf, BackfillLinks, LinkInv, RevisionsNumbered;
    RestoredTables(db);
    LinkBackfillIsExact(db);
  }

  lemma SameLedgersSameState(a: Db, b: Db)
    requires a.events == b.events && a.heads == b.heads && a.revisions == b.revisions
    requires a.links == b.links && a.associations == b.associations
    ensures LedgerDeterminesState(a) == LedgerDeterminesState(b)
  {
    hide SeqOf, Effect, IsLifecycle;
    forall id | id in a.heads ensures LedgerState(a, id) == LedgerState(b, id) {
      assert WasRetracted(a, id) == WasRetracted(b, id) && WasSuperseded(a, id) == WasSuperseded(b, id);
      assert IsContested(a, id) == IsContested(b, id);
    }
  }

  lemma RestoredState(db: Db)
    requires Inv(db) && LinkInv(db)
    ensures LedgerDeterminesState(Restored(db)) && AssociationsGrounded(Restored(db))
  {
    hide Inv, LinkInv, Restored, BackfillLinks, LedgerDeterminesState, AssociationsGrounded, LinksGrounded,
      RevisionsNumbered, EventsDistinct;
    GroundedParts(db);
    RestoredTables(db);
    BackfilledLedgerExplainsHeads(db);
    SameLedgersSameState(WithBackfilledLinks(db), Restored(db));
    SameAssociations(db, Restored(db));
  }

  lemma SameAssociations(a: Db, b: Db)
    requires a.events == b.events && a.heads == b.heads && a.associations == b.associations && AssociationsGrounded(a)
    ensures AssociationsGrounded(b)
  {
    hide SeqOf;
  }

  lemma RestoredLinkInv(db: Db)
    requires LinkInv(db) && LinksGrounded(db) && RevisionsNumbered(db)
    ensures LinkInv(Restored(db))
  {
    hide Restored, SeqOf, BackfillLinks, RevisionsNumbered, IsLedgered, LinksGrounded;
    var r := Restored(db);
    RestoredTables(db);
    LinkBackfillIsExact(db);
    forall key | key in r.latestLinks ensures IsLedgered(r, key, r.latestLinks[key]) {
      var row := LedgeredRow(db, key, db.latestLinks[key]);
      assert row in r.links;
      RowIsLedgered(r, row);
    }
  }

  lemma RowIsLedgered(db: Db, row: LinkRow)
    requires row in db.links
    ensures IsLedgered(db, KeyOf(row), LatestLink(row.weight, row.event))
  {
    assert LinkRow(row.source, row.sourceRevision, row.target, row.relation, row.weight, row.event) in db.links;
  }

  // So every theorem about runs holds for what happens after the restore.
  lemma RestoredInv(db: Db)
    requires Inv(db) && LinkInv(db)
    ensures Inv(Restored(db)) && LinkInv(Restored(db))
    ensures Traceable(db) ==> Traceable(Restored(db))
  {
    hide Restored, LinkInv, LedgerDeterminesState, HeadsRecorded, MetadataKinds, RevisionsNumbered, RevisionsOrdered,
      LinksGrounded, AssociationsGrounded, SeqOf, BackfillLinks, Traceable;
    RestoredTables(db);
    RestoredStructure(db);
    RestoredHeads(db);
    RestoredLinks(db);
    RestoredState(db);
    RestoredLinkInv(db);
    assert LinksGrounded(db) && RevisionsNumbered(db) by { GroundedParts(db); }
    if Traceable(db) { RestoredProvenance(db); }
  }

  lemma RestoredProvenance(db: Db)
    requires LinkInv(db) && LinksGrounded(db) && RevisionsNumbered(db) && Traceable(db)
    ensures Traceable(Restored(db))
  {
    hide Restored, LinkInv, LinksGrounded, RevisionsNumbered, BackfillLinks, Cites, Scope.Durable;
    RestoredTables(db);
    LinkBackfillIsExact(db);
  }

  // --- history is fixed -------------------------------------------------

  lemma LatestFixed(r: Db, t: Db, at: RevisionId, boundary: nat)
    requires RevisionsGrow(r, t) && boundary <= Boundary(r) && at in t.revisions
    ensures LatestBefore(t, at, boundary) <==> at in r.revisions && LatestBefore(r, at, boundary)
  {
  }

  lemma RetractedFixed(r: Db, t: Db, id: MemoryId, boundary: nat)
    requires Extends(r, t) && EventsDistinct(t) && AssociationsGrounded(r) && boundary <= Boundary(r)
    ensures RetractedBefore(t, id, boundary) == RetractedBefore(r, id, boundary)
  {
    hide SeqOf, RevisionsGrow, HeadsPersist, ReceiptsPersist;
    forall a | a in r.associations
      ensures SeqOf(t.events, a.event) == SeqOf(r.events, a.event)
      ensures IsLifecycle(t.events, a.event) == IsLifecycle(r.events, a.event)
    {
      SeqOfPersists(r.events, t.events, a.event);
    }
  }

  lemma SupersededFixed(r: Db, t: Db, id: MemoryId, boundary: nat)
    requires Extends(r, t) && EventsDistinct(t) && LinksGrounded(r) && boundary <= Boundary(r)
    ensures SupersededBefore(t, id, boundary) == SupersededBefore(r, id, boundary)
  {
    hide SeqOf, RevisionsGrow, HeadsPersist, ReceiptsPersist, Effect;
    forall row | row in r.links ensures SeqOf(t.events, row.event) == SeqOf(r.events, row.event) {
      SeqOfPersists(r.events, t.events, row.event);
    }
  }

  // A query about the past has the same answer on every later store.
  lemma HistoryIsFixed(r: Db, t: Db, durable: DurableScope, keys: set<string>, boundary: nat)
    requires Inv(r) && Inv(t) && Extends(r, t) && boundary <= Boundary(r)
    ensures HistoricalRows(t, durable, keys, boundary) == HistoricalRows(r, durable, keys, boundary)
  {
    hide Inv, Extends, HistoricalRows;
    forall at
      ensures at in HistoricalRows(t, durable, keys, boundary) <==> at in HistoricalRows(r, durable, keys, boundary)
    {
      RowFixed(r, t, durable, keys, boundary, at);
    }
  }

  lemma GroundedParts(db: Db)
    requires Inv(db)
    ensures EventsDistinct(db) && LinksGrounded(db) && AssociationsGrounded(db) && RevisionsNumbered(db)
  {
  }

  lemma RowFixed(r: Db, t: Db, durable: DurableScope, keys: set<string>, boundary: nat, at: RevisionId)
    requires Inv(r) && Inv(t) && Extends(r, t) && boundary <= Boundary(r)
    ensures at in HistoricalRows(t, durable, keys, boundary) <==> at in HistoricalRows(r, durable, keys, boundary)
  {
    hide Inv, Extends, LatestBefore, RetractedBefore, SupersededBefore, Failing, LinksGrounded, AssociationsGrounded,
      EventsDistinct, RevisionsNumbered;
    GroundedParts(r);
    GroundedParts(t);
    if at in r.revisions { RowPersists(r, t, at); }
    if at in t.revisions {
      assert RevisionsGrow(r, t) by { GrowthParts(r, t); }
      LatestFixed(r, t, at, boundary);
      RetractedFixed(r, t, at.memory, boundary);
      SupersededFixed(r, t, at.memory, boundary);
    }
  }

  lemma GrowthParts(s: Db, t: Db)
    requires Extends(s, t)
    ensures RevisionsGrow(s, t)
  {
  }

  // --- boundaries before the snapshot -----------------------------------

  // A latest link that superseded a memory by the end of `s` still says so.
  ghost predicate StillDated(s: Db, db: Db, id: MemoryId) {
    exists key | key in db.latestLinks ::
      && key.target == id && Effect(key.relation) == Supersedes
      && 0 < SeqOf(db.events, db.latestLinks[key].event) <= |s.events|
  }

  // A failing attempt that was not retracted on `s`.
  predicate FailedThen(s: Db, id: MemoryId) {
    && id in s.heads && s.heads[id].kind == Outcome && s.heads[id].state != Retracted
    && HeadAt(s, id) in s.revisions && Failing(s.revisions[HeadAt(s, id)])
  }

  // The snapshot of `db` still tells what was live on its earlier state `s`: no
  // failing attempt that was live changed its key since, and of one that was
  // superseded either the superseding link was not recorded again or no key is
  // left to look it up by.
  ghost predicate Remembered(s: Db, db: Db) {
    forall id | id in s.heads && id in db.heads && FailedThen(s, id) ::
      if s.heads[id].state != Superseded then db.heads[id].key == s.heads[id].key
      else StillDated(s, db, id) || db.heads[id].key.None?
  }

  lemma SupersededRestored(s: Db, db: Db, id: MemoryId)
    requires LinkInv(db) && LinksGrounded(db) && RevisionsNumbered(db)
    ensures SupersededBefore(Restored(db), id, Boundary(s)) == StillDated(s, db, id)
  {
    hide SeqOf, Effect, BackfillLinks, Restored, LinksGrounded, LinkInv, RevisionsNumbered;
    RestoredTables(db);
    LinkBackfillIsExact(db);
    if StillDated(s, db, id) {
      var key :| key in db.latestLinks && key.target == id && Effect(key.relation) == Supersedes
                 && 0 < SeqOf(db.events, db.latestLinks[key].event) <= |s.events|;
      assert LatestLedgered(db) by { LedgeredPart(db); }
      var row := LedgeredRow(db, key, db.latestLinks[key]);
      assert row in Restored(db).links;
    }
    if SupersededBefore(Restored(db), id, Boundary(s)) {
      var row :| row in Restored(db).links && row.target == id && Effect(row.relation) == Supersedes
                 && 0 < SeqOf(db.events, row.event) < Boundary(s);
      assert KeyOf(row) in db.latestLinks;
    }
  }

  lemma LedgeredPart(db: Db)
    requires LinkInv(db)
    ensures LatestLedgered(db)
  {
  }

  // What the restored store is asked about a revision, in the tables of `db`.
  ghost predicate Asked(s: Db, db: Db, durable: DurableScope, keys: set<string>, at: RevisionId) {
    && at in db.revisions && at.memory in db.heads
    && db.heads[at.memory].durable == durable && db.heads[at.memory].kind == Outcome
    && LatestBefore(db, at, Boundary(s)) && !RetractedBefore(db, at.memory, Boundary(s))
    && !StillDated(s, db, at.memory)
    && db.heads[at.memory].key.Some? && db.heads[at.memory].key.value in keys
    && Failing(db.revisions[at])
  }

  lemma RestoredQuery(s: Db, db: Db, durable: DurableScope, keys: set<string>, at: RevisionId)
    requires Inv(db) && LinkInv(db)
    ensures at in HistoricalRows(Restored(db), durable, keys, Boundary(s)) <==> Asked(s, db, durable, keys, at)
  {
    hide Inv, LinkInv, Restored, LatestBefore, RetractedBefore, SupersededBefore, StillDated, Failing, BackfillLinks,
      LinksGrounded, AssociationsGrounded, EventsDistinct, RevisionsNumbered;
    GroundedParts(db);
    RestoredTables(db);
    SupersededRestored(s, db, at.memory);
    SameHistoryTables(db, Restored(db), at, Boundary(s));
  }

  // The same in the heads of `s` and the keys and latest links of `db`.
  ghost predicate Recalled(s: Db, db: Db, durable: DurableScope, keys: set<string>, at: RevisionId) {
    && at.memory in s.heads && at == HeadAt(s, at.memory) && FailedThen(s, at.memory)
    && s.heads[at.memory].durable == durable
    && at.memory in db.heads && !StillDated(s, db, at.memory)
    && db.heads[at.memory].key.Some? && db.heads[at.memory].key.value in keys
  }

  lemma RestoredRow(s: Db, db: Db, durable: DurableScope, keys: set<string>, at: RevisionId)
    requires Inv(s) && Inv(db) && LinkInv(db) && Extends(s, db)
    ensures at in HistoricalRows(Restored(db), durable, keys, Boundary(s))
       <==> Recalled(s, db, durable, keys, at)
  {
    hide Inv, LinkInv, Extends, HistoricalRows, Restored, LatestBefore, RetractedBefore, SupersededBefore, StillDated,
      WasRetracted, WasSuperseded, Failing;
    RestoredQuery(s, db, durable, keys, at);
    if at in s.revisions {
      RowPersists(s, db, at);
      RowLatestThen(s, db, at);
      HeadStaysPut(s, db, at.memory);
      RetractedIffRecorded(s, at.memory);
    } else if at in db.revisions {
      RowLatestThen(s, db, at);
    }
    if at.memory in s.heads { HeadIsRevision(s, at.memory); }
  }

  lemma HeadIsRevision(db: Db, id: MemoryId)
    requires Inv(db) && id in db.heads
    ensures HeadAt(db, id) in db.revisions
  {
  }

  lemma RetractedIffRecorded(s: Db, id: MemoryId)
    requires Inv(s) && id in s.heads
    ensures s.heads[id].state == Retracted <==> WasRetracted(s, id)
  {
    hide WasRetracted, WasSuperseded, IsContested;
  }

  lemma SameHistoryTables(db: Db, r: Db, at: RevisionId, boundary: nat)
    requires r.events == db.events && r.revisions == db.revisions && r.associations == db.associations
    ensures RetractedBefore(r, at.memory, boundary) == RetractedBefore(db, at.memory, boundary)
    ensures at in db.revisions ==> LatestBefore(r, at, boundary) == LatestBefore(db, at, boundary)
  {
    hide SeqOf;
  }

  // After a restore the historical query at an earlier boundary still selects
  // what was live then, in every scope and under every key, exactly when the
  // snapshot remembers it.
  lemma RestoredTimeTravel(s: Db, db: Db, t: Db)
    requires Inv(s) && Inv(db) && LinkInv(db) && Extends(s, db)
    requires Inv(t) && Extends(Restored(db), t)
    ensures SameRows(s, t) <==> Remembered(s, db)
  {
    hide Inv, LinkInv, Extends, Restored, HistoricalRows, LiveRows, StillDated, FailedThen;
    RestoredInv(db);
    RestoredBoundary(s, db);
    forall durable, keys
      ensures HistoricalRows(t, durable, keys, Boundary(s)) == HistoricalRows(Restored(db), durable, keys, Boundary(s))
    {
      HistoryIsFixed(Restored(db), t, durable, keys, Boundary(s));
    }
    if Remembered(s, db) {
      forall durable, keys ensures HistoricalRows(t, durable, keys, Boundary(s)) == LiveRows(s, durable, keys) {
        RememberedRows(s, db, durable, keys);
      }
    }
    if SameRows(s, t) {
      forall id | id in s.heads && id in db.heads && FailedThen(s, id)
        ensures if s.heads[id].state != Superseded then db.heads[id].key == s.heads[id].key
                else StillDated(s, db, id) || db.heads[id].key.None?
      {
        assert HistoricalRows(Restored(db), s.heads[id].durable, KeysOf(s, id), Boundary(s))
            == LiveRows(s, s.heads[id].durable, KeysOf(s, id));
        assert HistoricalRows(Restored(db), s.heads[id].durable, KeysOf(db, id), Boundary(s))
            == LiveRows(s, s.heads[id].durable, KeysOf(db, id));
        SelectedIsRemembered(s, db, id);
      }
    }
  }

  function KeysOf(db: Db, id: MemoryId): set<string>
    requires id in db.heads
  {
    if db.heads[id].key.Some? then {db.heads[id].key.value} else {}
  }

  lemma RestoredBoundary(s: Db, db: Db)
    requires Inv(db) && Extends(s, db)
    ensures Boundary(s) <= Boundary(Restored(db))
  {
    hide BackfillLinks, RevisionsGrow, LedgersGrow, HeadsPersist, ReceiptsPersist;
  }

  // Which rows of `s` are live, in the columns of its heads.
  predicate LiveThen(s: Db, durable: DurableScope, keys: set<string>, at: RevisionId) {
    && at.memory in s.heads && at == HeadAt(s, at.memory) && FailedThen(s, at.memory)
    && s.heads[at.memory].durable == durable && s.heads[at.memory].state != Superseded
    && s.heads[at.memory].key.Some? && s.heads[at.memory].key.value in keys
  }

  lemma LiveRow(s: Db, durable: DurableScope, keys: set<string>, at: RevisionId)
    requires Inv(s)
    ensures at in LiveRows(s, durable, keys)
       <==> LiveThen(s, durable, keys, at)
  {
    hide Failing, Inv;
    if at.memory in s.heads { HeadIsRevision(s, at.memory); }
  }

  lemma DatedWasSuperseded(s: Db, db: Db, id: MemoryId)
    requires LinkInv(db) && StillDated(s, db, id)
    ensures SupersededBefore(db, id, Boundary(s))
  {
    hide SeqOf, Effect, LinkInv, IsLedgered;
    var key :| key in db.latestLinks && key.target == id && Effect(key.relation) == Supersedes
               && 0 < SeqOf(db.events, db.latestLinks[key].event) <= |s.events|;
    assert LatestLedgered(db) by { LedgeredPart(db); }
    var row := LedgeredRow(db, key, db.latestLinks[key]);
  }

  lemma NotYetDated(s: Db, db: Db, id: MemoryId)
    requires Inv(s) && Inv(db) && LinkInv(db) && Extends(s, db) && id in s.heads
    requires s.heads[id].state != Superseded && s.heads[id].state != Retracted
    ensures !StillDated(s, db, id)
  {
    hide Inv, LinkInv, Extends, StillDated, WasSuperseded, WasRetracted, SupersededBefore, LinksGrounded,
      EventsDistinct;
    GroundedParts(s);
    GroundedParts(db);
    LiveIffNotEnded(s, id);
    SupersededThen(s, db, id);
    if StillDated(s, db, id) { DatedWasSuperseded(s, db, id); }
  }

  lemma RememberedRows(s: Db, db: Db, durable: DurableScope, keys: set<string>)
    requires Inv(s) && Inv(db) && LinkInv(db) && Extends(s, db) && Remembered(s, db)
    ensures HistoricalRows(Restored(db), durable, keys, Boundary(s)) == LiveRows(s, durable, keys)
  {
    hide Inv, LinkInv, Extends, Restored, HistoricalRows, LiveRows, StillDated, FailedThen;
    forall at
      ensures at in HistoricalRows(Restored(db), durable, keys, Boundary(s)) <==> at in LiveRows(s, durable, keys)
    {
      RestoredRow(s, db, durable, keys, at);
      LiveRow(s, durable, keys, at);
      if at.memory in s.heads {
        HeadStaysPut(s, db, at.memory);
        if FailedThen(s, at.memory) {
          NotRetracted(s, at.memory);
          if s.heads[at.memory].state != Superseded { NotYetDated(s, db, at.memory); }
        }
      }
    }
  }

  lemma NotRetracted(s: Db, id: MemoryId)
    requires FailedThen(s, id)
    ensures id in s.heads && s.heads[id].state != Retracted
  {
  }

  lemma HeadStaysPut(s: Db, t: Db, id: MemoryId)
    requires Extends(s, t) && id in s.heads
    ensures id in t.heads && t.heads[id].durable == s.heads[id].durable && t.heads[id].kind == s.heads[id].kind
  {
    hide RevisionsGrow, LedgersGrow, ReceiptsPersist, LogGrows;
  }

  lemma SelectedIsRemembered(s: Db, db: Db, id: MemoryId)
    requires Inv(s) && Inv(db) && LinkInv(db) && Extends(s, db) && FailedThen(s, id) && id in db.heads
    requires id in s.heads
    requires HistoricalRows(Restored(db), s.heads[id].durable, KeysOf(s, id), Boundary(s))
          == LiveRows(s, s.heads[id].durable, KeysOf(s, id))
    requires HistoricalRows(Restored(db), s.heads[id].durable, KeysOf(db, id), Boundary(s))
          == LiveRows(s, s.heads[id].durable, KeysOf(db, id))
    ensures if s.heads[id].state != Superseded then db.heads[id].key == s.heads[id].key
            else StillDated(s, db, id) || db.heads[id].key.None?
  {
    hide Inv, LinkInv, Extends, Restored, HistoricalRows, LiveRows, StillDated, FailedThen;
    var at, durable := HeadAt(s, id), s.heads[id].durable;
    NotRetracted(s, id);
    RestoredRow(s, db, durable, KeysOf(s, id), at);
    RestoredRow(s, db, durable, KeysOf(db, id), at);
    LiveRow(s, durable, KeysOf(s, id), at);
    LiveRow(s, durable, KeysOf(db, id), at);
    if s.heads[id].state != Superseded { NotYetDated(s, db, id); }
  }
}
