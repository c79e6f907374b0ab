// The keys and references between the canonical tables, and why the tables of a
// reachable store satisfy them: its export can always be restored.
module CanonicalTables {
  import opened Basics
  import opened Domain
  import opened Strings
  import opened AttachmentTables
  import opened Database
  import opened Ledger
  import opened Extension
  import opened LinkLedger
  import opened Provenance
  import opened Tables
  import Snapshot

  const TABLE_NAMES: seq<string> := [
    "events", "memory_heads", "memory_revisions", "memory_evidence", "memory_tags", "entities", "memory_entities",
    "artifacts", "memory_artifacts", "memory_links", "event_memories", "feedback", "idempotency",
    "memory_revision_metadata", "memory_link_revisions"]

  // --- keys and references ----------------------------------------------

  const EVENT_CONSTRAINTS: seq<Constraint> := [Unique("events", ["seq"]), Unique("events", ["event_id"])]

  const HEAD_CONSTRAINTS: seq<Constraint> := [
    Unique("memory_heads", ["memory_id"]),
    Reference("memory_heads", ["created_seq"], "events", ["seq"]),
    Reference("memory_heads", ["updated_seq"], "events", ["seq"])]

  const REVISION_CONSTRAINTS: seq<Constraint> := [
    Unique("memory_revisions", ["memory_id", "revision"]),
    Reference("memory_revisions", ["memory_id"], "memory_heads", ["memory_id"]),
    Reference("memory_revisions", ["recorded_seq"], "events", ["seq"])]

  const EVIDENCE_CONSTRAINTS: seq<Constraint> := [
    Unique("memory_evidence", ["memory_id", "revision", "event_id", "relation"]),
    Reference("memory_evidence", ["event_id"], "events", ["event_id"]),
    Reference("memory_evidence", ["memory_id", "revision"], "memory_revisions", ["memory_id", "revision"])]

  const TAG_CONSTRAINTS: seq<Constraint> := [
    Unique("memory_tags", ["memory_id", "revision", "normalized"]),
    Reference("memory_tags", ["memory_id", "revision"], "memory_revisions", ["memory_id", "revision"])]

  const LATEST_CONSTRAINTS: seq<Constraint> := [
    Unique("memory_links", ["source_memory_id", "target_memory_id", "relation"]),
    Reference("memory_links", ["source_memory_id"], "memory_heads", ["memory_id"]),
    Reference("memory_links", ["target_memory_id"], "memory_heads", ["memory_id"]),
    Reference("memory_links", ["created_event_id"], "events", ["event_id"])]

  const ASSOCIATION_CONSTRAINTS: seq<Constraint> := [
    Unique("event_memories", ["event_id", "memory_id"]),
    Reference("event_memories", ["event_id"], "events", ["event_id"]),
    Reference("event_memories", ["memory_id"], "memory_heads", ["memory_id"])]

  const METADATA_CONSTRAINTS: seq<Constraint> := [
    Unique("memory_revision_metadata", ["memory_id", "revision"]),
    Reference("memory_revision_metadata", ["memory_id", "revision"], "memory_revisions", ["memory_id", "revision"])]

  const LINK_CONSTRAINTS: seq<Constraint> := [
    Unique("memory_link_revisions", ["source_memory_id", "source_revision", "target_memory_id", "relation"]),
    Reference("memory_link_revisions", ["source_memory_id", "source_revision"],
              "memory_revisions", ["memory_id", "revision"]),
    Reference("memory_link_revisions", ["target_memory_id"], "memory_heads", ["memory_id"]),
    Reference("memory_link_revisions", ["created_event_id"], "events", ["event_id"])]

  const CONSTRAINTS: seq<Constraint> :=
    EVENT_CONSTRAINTS + HEAD_CONSTRAINTS + REVISION_CONSTRAINTS + EVIDENCE_CONSTRAINTS + TAG_CONSTRAINTS
    + LATEST_CONSTRAINTS + ASSOCIATION_CONSTRAINTS + METADATA_CONSTRAINTS + LINK_CONSTRAINTS

  // --- tables that hold a set of items ----------------------------------

  // The rows of a table are these items in some order, each once.
  ghost predicate Lists<K(!new)>(store: Store, table: string, order: seq<K>, items: set<K>) {
    && table in store && |store[table]| == |order|
    && (forall i, j | 0 <= i < j < |order| :: order[i] != order[j])
    && (forall item :: item in order <==> item in items)
  }

  type Key<!K> = K -> seq<Cell>

  // Row for row, what some columns hold.
  ghost predicate Holds<K(!new)>(store: Store, table: string, order: seq<K>, columns: seq<string>, key: Key<K>) {
    && table in store && |store[table]| == |order|
    && forall i | 0 <= i < |order| :: CellsAt(store[table][i], columns) == key(order[i])
  }

  // Items that differ in a key are listed in rows that differ in it.
  lemma ListedUnique<K(!new)>(
    store: Store, table: string, order: seq<K>, items: set<K>, columns: seq<string>, key: Key<K>)
    requires Lists(store, table, order, items) && Holds(store, table, order, columns, key)
    requires forall a, b | a in items && b in items && key(a) == key(b) :: a == b
    ensures Satisfies(store, Unique(table, columns))
  {
    hide CellsAt, HasNull;
    var rows := store[table];
    forall i, j | 0 <= i < j < |rows| ensures CellsAt(rows[i], columns) != CellsAt(rows[j], columns) {
      assert order[i] in items && order[j] in items;
    }
  }

  // Items that refer to listed items are listed in rows that refer to their rows.
  lemma ListedReference<K(!new), L(!new)>(
    store: Store, table: string, order: seq<K>, items: set<K>, columns: seq<string>, key: Key<K>,
    target: string, order2: seq<L>, items2: set<L>, targets: seq<string>, key2: Key<L>)
    requires Lists(store, table, order, items) && Holds(store, table, order, columns, key)
    requires Lists(store, target, order2, items2) && Holds(store, target, order2, targets, key2)
    requires forall item | item in items :: exists other :: other in items2 && key2(other) == key(item)
    ensures Satisfies(store, Reference(table, columns, target, targets))
  {
    hide CellsAt, HasNull;
    var rows, rows2 := store[table], store[target];
    forall i | 0 <= i < |rows| ensures Found(rows2, targets, CellsAt(rows[i], columns)) {
      var item := order[i];
      assert item in items;
      var other :| other in items2 && key2(other) == key(item);
      assert other in order2;
      var j :| 0 <= j < |order2| && order2[j] == other;
      assert CellsAt(rows2[j], targets) == CellsAt(rows[i], columns);
    }
  }

  // --- keys -------------------------------------------------------------

  function One(a: nat): seq<Cell> { [IntegerCell(a)] }

  function Two(a: nat, b: nat): seq<Cell> { [IntegerCell(a), IntegerCell(b)] }

  function RevisionKey(at: RevisionId): seq<Cell> { Two(at.memory, at.revision) }

  lemma OneTells(a: nat, b: nat)
    ensures One(a) == One(b) ==> a == b
  {
    assert One(a)[0] == IntegerCell(a) && One(b)[0] == IntegerCell(b);
  }

  lemma PrefixTells(a: nat, b: nat, c: nat, d: nat, more: seq<Cell>, others: seq<Cell>)
    ensures Two(a, b) + more == Two(c, d) + others ==> a == c && b == d && more == others
  {
    if Two(a, b) + more == Two(c, d) + others {
      var left, right := Two(a, b) + more, Two(c, d) + others;
      assert left[0] == IntegerCell(a) && right[0] == IntegerCell(c);
      assert left[1] == IntegerCell(b) && right[1] == IntegerCell(d);
      assert more == left[2..] && others == right[2..];
    }
  }

  lemma RevisionTells(a: RevisionId, b: RevisionId)
    ensures RevisionKey(a) == RevisionKey(b) ==> a == b
  {
    PrefixTells(a.memory, a.revision, b.memory, b.revision, [], []);
    assert RevisionKey(a) == Two(a.memory, a.revision) + [] && RevisionKey(b) == Two(b.memory, b.revision) + [];
  }

  // --- the tables of a store --------------------------------------------

  // The i-th attachment of a revision.
  datatype Place = Place(at: RevisionId, index: nat)

  // The order of rows in every table.
  datatype Listing = Listing(
    events: seq<EventId>, heads: seq<MemoryId>, revisions: seq<RevisionId>, evidence: seq<Place>, tags: seq<Place>,
    latest: seq<LinkKey>, associations: seq<Association>, metadata: seq<RevisionId>, links: seq<LinkRow>)

  function EventIds(db: Db): set<EventId> { set i | 0 <= i < |db.events| :: db.events[i].id }

  ghost predicate EventRows(db: Db, store: Store, order: seq<EventId>) {
    && Lists(store, "events", order, EventIds(db))
    && Holds(store, "events", order, ["seq"], (id: EventId) => One(SeqOf(db.events, id)))
    && Holds(store, "events", order, ["event_id"], (id: EventId) => One(id))
  }

  ghost predicate HeadRows(db: Db, store: Store, order: seq<MemoryId>) {
    && Lists(store, "memory_heads", order, db.heads.Keys)
    && Holds(store, "memory_heads", order, ["memory_id"], (id: MemoryId) => One(id))
    && Holds(store, "memory_heads", order, ["created_seq"], Created(db))
    && Holds(store, "memory_heads", order, ["updated_seq"], Updated(db))
  }

  function Created(db: Db): Key<MemoryId> {
    (id: MemoryId) => One(if id in db.heads then db.heads[id].createdSeq else 0)
  }

  function Updated(db: Db): Key<MemoryId> {
    (id: MemoryId) => One(if id in db.heads then db.heads[id].updatedSeq else 0)
  }

  ghost predicate RevisionRows(db: Db, store: Store, order: seq<RevisionId>) {
    && Lists(store, "memory_revisions", order, db.revisions.Keys)
    && Holds(store, "memory_revisions", order, ["memory_id", "revision"], (at: RevisionId) => RevisionKey(at))
    && Holds(store, "memory_revisions", order, ["memory_id"], (at: RevisionId) => One(at.memory))
    && Holds(store, "memory_revisions", order, ["recorded_seq"], Recorded(db))
  }

  function Recorded(db: Db): Key<RevisionId> {
    (at: RevisionId) => One(if at in db.revisions then db.revisions[at].recordedSeq else 0)
  }

  function EvidencePlaces(db: Db): set<Place> {
    set at, i | at in db.attachments && 0 <= i < |db.attachments[at].evidence| :: Place(at, i)
  }

  function EvidenceAt(db: Db, place: Place): Evidence {
    if place.at in db.attachments && place.index < |db.attachments[place.at].evidence|
    then db.attachments[place.at].evidence[place.index] else Evidence(0, "")
  }

  function EvidenceKey(db: Db): Key<Place> {
    (place: Place) => RevisionKey(place.at)
                      + [IntegerCell(EvidenceAt(db, place).event), TextCell(EvidenceAt(db, place).relation)]
  }

  ghost predicate EvidenceRows(db: Db, store: Store, order: seq<Place>) {
    && Lists(store, "memory_evidence", order, EvidencePlaces(db))
    && Holds(store, "memory_evidence", order, ["memory_id", "revision", "event_id", "relation"], EvidenceKey(db))
    && Holds(store, "memory_evidence", order, ["event_id"], (place: Place) => One(EvidenceAt(db, place).event))
    && Holds(store, "memory_evidence", order, ["memory_id", "revision"], (place: Place) => RevisionKey(place.at))
  }

  function TagPlaces(db: Db): set<Place> {
    set at, i | at in db.attachments && 0 <= i < |db.attachments[at].tags| :: Place(at, i)
  }

  function TagAt(db: Db, place: Place): string {
    if place.at in db.attachments && place.index < |db.attachments[place.at].tags|
    then db.attachments[place.at].tags[place.index] else ""
  }

  function TagKey(db: Db): Key<Place> {
    (place: Place) => RevisionKey(place.at) + [TextCell(AsciiLower(TagAt(db, place)))]
  }

  ghost predicate TagRows(db: Db, store: Store, order: seq<Place>) {
    && Lists(store, "memory_tags", order, TagPlaces(db))
    && Holds(store, "memory_tags", order, ["memory_id", "revision", "normalized"], TagKey(db))
    && Holds(store, "memory_tags", order, ["memory_id", "revision"], (place: Place) => RevisionKey(place.at))
  }

  function LatestKey(key: LinkKey): seq<Cell> { Two(key.source, key.target) + [TextCell(key.relation)] }

  ghost predicate LatestRows(db: Db, store: Store, order: seq<LinkKey>) {
    && Lists(store, "memory_links", order, db.latestLinks.Keys)
    && Holds(store, "memory_links", order, ["source_memory_id", "target_memory_id", "relation"],
             (key: LinkKey) => LatestKey(key))
    && Holds(store, "memory_links", order, ["source_memory_id"], (key: LinkKey) => One(key.source))
    && Holds(store, "memory_links", order, ["target_memory_id"], (key: LinkKey) => One(key.target))
    && Holds(store, "memory_links", order, ["created_event_id"], Linked(db))
  }

  function Linked(db: Db): Key<LinkKey> {
    (key: LinkKey) => One(if key in db.latestLinks then db.latestLinks[key].event else 0)
  }

  ghost predicate AssociationRows(db: Db, store: Store, order: seq<Association>) {
    && Lists(store, "event_memories", order, db.associations)
    && Holds(store, "event_memories", order, ["event_id", "memory_id"], (a: Association) => Two(a.event, a.memory))
    && Holds(store, "event_memories", order, ["event_id"], (a: Association) => One(a.event))
    && Holds(store, "event_memories", order, ["memory_id"], (a: Association) => One(a.memory))
  }

  ghost predicate MetadataRows(db: Db, store: Store, order: seq<RevisionId>) {
    && Lists(store, "memory_revision_metadata", order, db.metadata.Keys)
    && Holds(store, "memory_revision_metadata", order, ["memory_id", "revision"], (at: RevisionId) => RevisionKey(at))
  }

  function LinkRowKey(row: LinkRow): seq<Cell> {
    Two(row.source, row.sourceRevision) + [IntegerCell(row.target), TextCell(row.relation)]
  }

  ghost predicate LinkRevisionRows(db: Db, store: Store, order: seq<LinkRow>) {
    && Lists(store, "memory_link_revisions", order, db.links)
    && Holds(store, "memory_link_revisions", order,
             ["source_memory_id", "source_revision", "target_memory_id", "relation"],
             (row: LinkRow) => LinkRowKey(row))
    && Holds(store, "memory_link_revisions", order, ["source_memory_id", "source_revision"],
             (row: LinkRow) => Two(row.source, row.sourceRevision))
    && Holds(store, "memory_link_revisions", order, ["target_memory_id"], (row: LinkRow) => One(row.target))
    && Holds(store, "memory_link_revisions", order, ["created_event_id"], (row: LinkRow) => One(row.event))
  }

  ghost predicate Tabulates(db: Db, store: Store, listing: Listing) {
    && EventRows(db, store, listing.events) && HeadRows(db, store, listing.heads)
    && RevisionRows(db, store, listing.revisions)
    && EvidenceRows(db, store, listing.evidence) && TagRows(db, store, listing.tags)
    && LatestRows(db, store, listing.latest) && AssociationRows(db, store, listing.associations)
    && MetadataRows(db, store, listing.metadata) && LinkRevisionRows(db, store, listing.links)
  }

  // --- keys and references of each table --------------------------------

  lemma SeqIsLogged(db: Db, n: nat)
    requires EventsDistinct(db) && 1 <= n <= |db.events|
    ensures exists id :: id in EventIds(db) && SeqOf(db.events, id) == n
  {
    var id := db.events[n - 1].id;
    assert id in EventIds(db) && SeqOf(db.events, id) == n;
  }

  lemma IdIsLogged(db: Db, id: EventId)
    requires SeqOf(db.events, id) > 0
    ensures id in EventIds(db)
  {
    assert db.events[SeqOf(db.events, id) - 1].id == id;
  }

  lemma SeqTells(db: Db, a: EventId, b: EventId)
    requires a in EventIds(db) && b in EventIds(db) && SeqOf(db.events, a) == SeqOf(db.events, b)
    ensures a == b
  {
  }

  lemma EventsValid(db: Db, store: Store, order: seq<EventId>)
    requires EventRows(db, store, order)
    ensures Satisfies(store, Unique("events", ["seq"])) && Satisfies(store, Unique("events", ["event_id"]))
  {
    hide Lists, Holds, Satisfies, SeqOf, One, EventIds;
    forall a: EventId, b: EventId | a in EventIds(db) && b in EventIds(db)
      ensures One(SeqOf(db.events, a)) == One(SeqOf(db.events, b)) ==> a == b
      ensures One(a) == One(b) ==> a == b
    {
      OneTells(a, b);
      OneTells(SeqOf(db.events, a), SeqOf(db.events, b));
      if SeqOf(db.events, a) == SeqOf(db.events, b) { SeqTells(db, a, b); }
    }
    ListedUnique<EventId>(store, "events", order, EventIds(db), ["seq"], (id: EventId) => One(SeqOf(db.events, id)));
    ListedUnique<EventId>(store, "events", order, EventIds(db), ["event_id"], (id: EventId) => One(id));
  }

  // Sequence columns refer to the log.
  lemma SeqReference<K(!new)>(
    db: Db, store: Store, events: seq<EventId>, table: string, order: seq<K>, items: set<K>, columns: seq<string>,
    key: Key<K>, seqOf: K -> nat)
    requires EventRows(db, store, events) && EventsDistinct(db)
    requires Lists(store, table, order, items) && Holds(store, table, order, columns, key)
    requires forall item | item in items :: key(item) == One(seqOf(item)) && 1 <= seqOf(item) <= |db.events|
    ensures Satisfies(store, Reference(table, columns, "events", ["seq"]))
  {
    hide Lists, Holds, Satisfies, SeqOf, One, EventIds, EventsDistinct;
    var key2 := (id: EventId) => One(SeqOf(db.events, id));
    forall item | item in items ensures exists id :: id in EventIds(db) && key2(id) == key(item) {
      SeqIsLogged(db, seqOf(item));
      var id :| id in EventIds(db) && SeqOf(db.events, id) == seqOf(item);
      assert key2(id) == key(item);
    }
    ListedReference<K, EventId>(
      store, table, order, items, columns, key, "events", events, EventIds(db), ["seq"], key2);
  }

  // Event columns refer to the log.
  lemma EventReference<K(!new)>(
    db: Db, store: Store, events: seq<EventId>, table: string, order: seq<K>, items: set<K>, columns: seq<string>,
    key: Key<K>, eventOf: K -> EventId)
    requires EventRows(db, store, events)
    requires Lists(store, table, order, items) && Holds(store, table, order, columns, key)
    requires forall item | item in items :: key(item) == One(eventOf(item)) && SeqOf(db.events, eventOf(item)) > 0
    ensures Satisfies(store, Reference(table, columns, "events", ["event_id"]))
  {
    hide Lists, Holds, Satisfies, SeqOf, One, EventIds;
    var key2 := (id: EventId) => One(id);
    forall item | item in items ensures exists id :: id in EventIds(db) && key2(id) == key(item) {
      IdIsLogged(db, eventOf(item));
      assert key2(eventOf(item)) == key(item);
    }
    ListedReference<K, EventId>(
      store, table, order, items, columns, key, "events", events, EventIds(db), ["event_id"], key2);
  }

  // Memory columns refer to the heads.
  lemma MemoryReference<K(!new)>(
    db: Db, store: Store, heads: seq<MemoryId>, table: string, order: seq<K>, items: set<K>, columns: seq<string>,
    key: Key<K>, memoryOf: K -> MemoryId)
    requires HeadRows(db, store, heads)
    requires Lists(store, table, order, items) && Holds(store, table, order, columns, key)
    requires forall item | item in items :: key(item) == One(memoryOf(item)) && memoryOf(item) in db.heads
    ensures Satisfies(store, Reference(table, columns, "memory_heads", ["memory_id"]))
  {
    hide Lists, Holds, Satisfies, One;
    var key2 := (id: MemoryId) => One(id);
    forall item | item in items ensures exists id :: id in db.heads.Keys && key2(id) == key(item) {
      assert memoryOf(item) in db.heads.Keys && key2(memoryOf(item)) == key(item);
    }
    ListedReference<K, MemoryId>(
      store, table, order, items, columns, key, "memory_heads", heads, db.heads.Keys, ["memory_id"], key2);
  }

  // Revision columns refer to the revisions.
  lemma RevisionReference<K(!new)>(
    db: Db, store: Store, revisions: seq<RevisionId>, table: string, order: seq<K>, items: set<K>,
    columns: seq<string>, key: Key<K>, revisionOf: K -> RevisionId)
    requires RevisionRows(db, store, revisions)
    requires Lists(store, table, order, items) && Holds(store, table, order, columns, key)
    requires forall item | item in items ::
        key(item) == RevisionKey(revisionOf(item)) && revisionOf(item) in db.revisions
    ensures Satisfies(store, Reference(table, columns, "memory_revisions", ["memory_id", "revision"]))
  {
    hide Lists, Holds, Satisfies, RevisionKey;
    var key2 := (at: RevisionId) => RevisionKey(at);
    forall item | item in items ensures exists at :: at in db.revisions.Keys && key2(at) == key(item) {
      assert revisionOf(item) in db.revisions.Keys && key2(revisionOf(item)) == key(item);
    }
    ListedReference<K, RevisionId>(
      store, table, order, items, columns, key,
      "memory_revisions", revisions, db.revisions.Keys, ["memory_id", "revision"], key2);
  }

  lemma HeadsValid(db: Db, store: Store, listing: Listing)
    requires EventRows(db, store, listing.events) && HeadRows(db, store, listing.heads)
    requires EventsDistinct(db) && CreationRecorded(db)
    requires forall id | id in db.heads :: 1 <= db.heads[id].updatedSeq <= |db.events|
    ensures Satisfies(store, Unique("memory_heads", ["memory_id"]))
    ensures Satisfies(store, Reference("memory_heads", ["created_seq"], "events", ["seq"]))
    ensures Satisfies(store, Reference("memory_heads", ["updated_seq"], "events", ["seq"]))
  {
    hide Lists, Holds, Satisfies, EventRows, One, EventsDistinct;
    forall a: MemoryId, b: MemoryId ensures One(a) == One(b) ==> a == b { OneTells(a, b); }
    ListedUnique<MemoryId>(
      store, "memory_heads", listing.heads, db.heads.Keys, ["memory_id"], (id: MemoryId) => One(id));
    SeqReference<MemoryId>(
      db, store, listing.events, "memory_heads", listing.heads, db.heads.Keys, ["created_seq"], Created(db),
      (id: MemoryId) => if id in db.heads then db.heads[id].createdSeq else 0);
    SeqReference<MemoryId>(
      db, store, listing.events, "memory_heads", listing.heads, db.heads.Keys, ["updated_seq"], Updated(db),
      (id: MemoryId) => if id in db.heads then db.heads[id].updatedSeq else 0);
  }

  lemma RevisionsValid(db: Db, store: Store, listing: Listing)
    requires EventRows(db, store, listing.events) && HeadRows(db, store, listing.heads)
    requires RevisionRows(db, store, listing.revisions)
    requires EventsDistinct(db) && RevisionsNumbered(db) && RevisionsOrdered(db)
    ensures Satisfies(store, Unique("memory_revisions", ["memory_id", "revision"]))
    ensures Satisfies(store, Reference("memory_revisions", ["memory_id"], "memory_heads", ["memory_id"]))
    ensures Satisfies(store, Reference("memory_revisions", ["recorded_seq"], "events", ["seq"]))
  {
    hide Lists, Holds, Satisfies, EventRows, HeadRows, One, EventsDistinct, RevisionKey;
    forall a, b ensures RevisionKey(a) == RevisionKey(b) ==> a == b { RevisionTells(a, b); }
    ListedUnique<RevisionId>(store, "memory_revisions", listing.revisions, db.revisions.Keys, ["memory_id", "revision"],
                             (at: RevisionId) => RevisionKey(at));
    MemoryReference<RevisionId>(
      db, store, listing.heads, "memory_revisions", listing.revisions, db.revisions.Keys, ["memory_id"],
      (at: RevisionId) => One(at.memory), (at: RevisionId) => at.memory);
    SeqReference<RevisionId>(
      db, store, listing.events, "memory_revisions", listing.revisions, db.revisions.Keys, ["recorded_seq"],
      Recorded(db), (at: RevisionId) => if at in db.revisions then db.revisions[at].recordedSeq else 0);
  }

  // --- attachments ------------------------------------------------------

  lemma EvidenceTells(db: Db, a: Place, b: Place)
    requires AttachmentsKeyed(db) && a in EvidencePlaces(db) && b in EvidencePlaces(db)
    requires EvidenceKey(db)(a) == EvidenceKey(db)(b)
    ensures a == b
  {
    hide EvidenceBefore, RevisionKey;
    var x, y := EvidenceAt(db, a), EvidenceAt(db, b);
    var more, others := [IntegerCell(x.event), TextCell(x.relation)], [IntegerCell(y.event), TextCell(y.relation)];
    RevisionSplits(a.at, b.at, more, others);
    assert more[0] == others[0] && more[1] == others[1];
    SameEvidenceKey(x, y);
  }

  lemma RevisionSplits(a: RevisionId, b: RevisionId, more: seq<Cell>, others: seq<Cell>)
    requires RevisionKey(a) + more == RevisionKey(b) + others
    ensures a == b && more == others
  {
    PrefixTells(a.memory, a.revision, b.memory, b.revision, more, others);
  }

  lemma SameEvidenceKey(x: Evidence, y: Evidence)
    requires x.event == y.event && x.relation == y.relation
    ensures !EvidenceBefore(x, y) && !EvidenceBefore(y, x)
  {
    TextOrder(x.relation, x.relation, x.relation);
  }

  lemma EvidenceValid(db: Db, store: Store, listing: Listing)
    requires EventRows(db, store, listing.events) && RevisionRows(db, store, listing.revisions)
    requires EvidenceRows(db, store, listing.evidence)
    requires EvidenceGrounded(db) && AttachmentsKeyed(db) && RevisionsNumbered(db)
    ensures Satisfies(store, Unique("memory_evidence", ["memory_id", "revision", "event_id", "relation"]))
    ensures Satisfies(store, Reference("memory_evidence", ["event_id"], "events", ["event_id"]))
    ensures Satisfies(
      store, Reference("memory_evidence", ["memory_id", "revision"], "memory_revisions", ["memory_id", "revision"]))
  {
    hide Lists, Holds, Satisfies, EventRows, RevisionRows, One, RevisionKey, AttachmentsKeyed, EvidenceKey, SeqOf,
      Scope.Durable;
    forall a, b | a in EvidencePlaces(db) && b in EvidencePlaces(db) && EvidenceKey(db)(a) == EvidenceKey(db)(b)
      ensures a == b
    {
      EvidenceTells(db, a, b);
    }
    forall place | place in EvidencePlaces(db) ensures SeqOf(db.events, EvidenceAt(db, place).event) > 0 {
      var source := EvidenceAt(db, place);
      assert source in db.attachments[place.at].evidence;
      assert Cites(db.events, source, db.revisions[place.at].scope.Durable(), db.revisions[place.at].recordedSeq);
    }
    ListedUnique<Place>(store, "memory_evidence", listing.evidence, EvidencePlaces(db),
                        ["memory_id", "revision", "event_id", "relation"], EvidenceKey(db));
    EventReference<Place>(
      db, store, listing.events, "memory_evidence", listing.evidence, EvidencePlaces(db), ["event_id"],
      (place: Place) => One(EvidenceAt(db, place).event), (place: Place) => EvidenceAt(db, place).event);
    RevisionReference<Place>(
      db, store, listing.revisions, "memory_evidence", listing.evidence, EvidencePlaces(db), ["memory_id", "revision"],
      (place: Place) => RevisionKey(place.at), (place: Place) => place.at);
  }

  lemma TagTells(db: Db, a: Place, b: Place)
    requires AttachmentsKeyed(db) && a in TagPlaces(db) && b in TagPlaces(db)
    requires TagKey(db)(a) == TagKey(db)(b)
    ensures a == b
  {
    hide TextBefore, RevisionKey, AsciiLower;
    var more, others := [TextCell(AsciiLower(TagAt(db, a)))], [TextCell(AsciiLower(TagAt(db, b)))];
    RevisionSplits(a.at, b.at, more, others);
    assert more[0] == others[0];
    TextOrder(AsciiLower(TagAt(db, a)), "", "");
  }

  lemma TagsValid(db: Db, store: Store, listing: Listing)
    requires RevisionRows(db, store, listing.revisions) && TagRows(db, store, listing.tags)
    requires AttachmentsKeyed(db) && RevisionsNumbered(db)
    ensures Satisfies(store, Unique("memory_tags", ["memory_id", "revision", "normalized"]))
    ensures Satisfies(
      store, Reference("memory_tags", ["memory_id", "revision"], "memory_revisions", ["memory_id", "revision"]))
  {
    hide Lists, Holds, Satisfies, RevisionRows, RevisionKey, AttachmentsKeyed, TagKey;
    forall a, b | a in TagPlaces(db) && b in TagPlaces(db) && TagKey(db)(a) == TagKey(db)(b) ensures a == b {
      TagTells(db, a, b);
    }
    ListedUnique<Place>(
      store, "memory_tags", listing.tags, TagPlaces(db), ["memory_id", "revision", "normalized"], TagKey(db));
    RevisionReference<Place>(
      db, store, listing.revisions, "memory_tags", listing.tags, TagPlaces(db), ["memory_id", "revision"],
      (place: Place) => RevisionKey(place.at), (place: Place) => place.at);
  }

  // --- links, associations and metadata ---------------------------------

  lemma LatestTells(a: LinkKey, b: LinkKey)
    requires LatestKey(a) == LatestKey(b)
    ensures a == b
  {
    PrefixTells(a.source, a.target, b.source, b.target, [TextCell(a.relation)], [TextCell(b.relation)]);
    assert [TextCell(a.relation)][0] == TextCell(a.relation) && [TextCell(b.relation)][0] == TextCell(b.relation);
  }

  // Every latest link is grounded by one of its ledger rows.
  lemma LatestGrounded(db: Db, key: LinkKey)
    requires LinkInv(db) && LinksGrounded(db) && key in db.latestLinks
    ensures key.source in db.heads && key.target in db.heads && SeqOf(db.events, db.latestLinks[key].event) > 0
  {
    hide SeqOf, LinkPrimary, NoneNewer, LinksUniform, IsLedgered;
    var row := LedgeredRow(db, key, db.latestLinks[key]);
  }

  lemma LatestValid(db: Db, store: Store, listing: Listing)
    requires EventRows(db, store, listing.events) && HeadRows(db, store, listing.heads)
    requires LatestRows(db, store, listing.latest) && LinkInv(db) && LinksGrounded(db)
    ensures Satisfies(store, Unique("memory_links", ["source_memory_id", "target_memory_id", "relation"]))
    ensures Satisfies(store, Reference("memory_links", ["source_memory_id"], "memory_heads", ["memory_id"]))
    ensures Satisfies(store, Reference("memory_links", ["target_memory_id"], "memory_heads", ["memory_id"]))
    ensures Satisfies(store, Reference("memory_links", ["created_event_id"], "events", ["event_id"]))
  {
    hide Lists, Holds, Satisfies, EventRows, HeadRows, One, LatestKey, LinkInv, LinksGrounded, SeqOf;
    forall a, b | LatestKey(a) == LatestKey(b) ensures a == b { LatestTells(a, b); }
    forall key | key in db.latestLinks
      ensures key.source in db.heads && key.target in db.heads && SeqOf(db.events, db.latestLinks[key].event) > 0
    {
      LatestGrounded(db, key);
    }
    var items := db.latestLinks.Keys;
    ListedUnique<LinkKey>(store, "memory_links", listing.latest, items,
                          ["source_memory_id", "target_memory_id", "relation"], (key: LinkKey) => LatestKey(key));
    MemoryReference<LinkKey>(
      db, store, listing.heads, "memory_links", listing.latest, items, ["source_memory_id"],
      (key: LinkKey) => One(key.source), (key: LinkKey) => key.source);
    MemoryReference<LinkKey>(
      db, store, listing.heads, "memory_links", listing.latest, items, ["target_memory_id"],
      (key: LinkKey) => One(key.target), (key: LinkKey) => key.target);
    EventReference<LinkKey>(
      db, store, listing.events, "memory_links", listing.latest, items, ["created_event_id"], Linked(db),
      (key: LinkKey) => if key in db.latestLinks then db.latestLinks[key].event else 0);
  }

  lemma AssociationTells(a: Association, b: Association)
    requires Two(a.event, a.memory) == Two(b.event, b.memory)
    ensures a == b
  {
    PrefixTells(a.event, a.memory, b.event, b.memory, [], []);
    assert Two(a.event, a.memory) == Two(a.event, a.memory) + []
        && Two(b.event, b.memory) == Two(b.event, b.memory) + [];
  }

  lemma AssociationsValid(db: Db, store: Store, listing: Listing)
    requires EventRows(db, store, listing.events) && HeadRows(db, store, listing.heads)
    requires AssociationRows(db, store, listing.associations) && AssociationsGrounded(db)
    ensures Satisfies(store, Unique("event_memories", ["event_id", "memory_id"]))
    ensures Satisfies(store, Reference("event_memories", ["event_id"], "events", ["event_id"]))
    ensures Satisfies(store, Reference("event_memories", ["memory_id"], "memory_heads", ["memory_id"]))
  {
    hide Lists, Holds, Satisfies, EventRows, HeadRows, One, Two, SeqOf;
    forall a: Association, b: Association | Two(a.event, a.memory) == Two(b.event, b.memory) ensures a == b {
      AssociationTells(a, b);
    }
    ListedUnique<Association>(store, "event_memories", listing.associations, db.associations, ["event_id", "memory_id"],
                              (a: Association) => Two(a.event, a.memory));
    EventReference<Association>(
      db, store, listing.events, "event_memories", listing.associations, db.associations, ["event_id"],
      (a: Association) => One(a.event), (a: Association) => a.event);
    MemoryReference<Association>(
      db, store, listing.heads, "event_memories", listing.associations, db.associations, ["memory_id"],
      (a: Association) => One(a.memory), (a: Association) => a.memory);
  }

  lemma MetadataValid(db: Db, store: Store, listing: Listing)
    requires RevisionRows(db, store, listing.revisions) && MetadataRows(db, store, listing.metadata)
    requires RevisionsNumbered(db)
    ensures Satisfies(store, Unique("memory_revision_metadata", ["memory_id", "revision"]))
    ensures Satisfies(store, Reference("memory_revision_metadata", ["memory_id", "revision"],
                                       "memory_revisions", ["memory_id", "revision"]))
  {
    hide Lists, Holds, Satisfies, RevisionRows, RevisionKey;
    forall a, b ensures RevisionKey(a) == RevisionKey(b) ==> a == b { RevisionTells(a, b); }
    ListedUnique<RevisionId>(store, "memory_revision_metadata", listing.metadata, db.metadata.Keys,
                             ["memory_id", "revision"], (at: RevisionId) => RevisionKey(at));
    RevisionReference<RevisionId>(
      db, store, listing.revisions, "memory_revision_metadata", listing.metadata, db.metadata.Keys,
      ["memory_id", "revision"], (at: RevisionId) => RevisionKey(at), (at: RevisionId) => at);
  }

  lemma LinkRowTells(db: Db, a: LinkRow, b: LinkRow)
    requires LinkPrimary(db) && a in db.links && b in db.links && LinkRowKey(a) == LinkRowKey(b)
    ensures a == b
  {
    var more, others := [IntegerCell(a.target), TextCell(a.relation)], [IntegerCell(b.target), TextCell(b.relation)];
    PrefixTells(a.source, a.sourceRevision, b.source, b.sourceRevision, more, others);
    assert more[0] == others[0] && more[1] == others[1];
  }

  lemma LinkRevisionsValid(db: Db, store: Store, listing: Listing)
    requires EventRows(db, store, listing.events) && HeadRows(db, store, listing.heads)
    requires RevisionRows(db, store, listing.revisions) && LinkRevisionRows(db, store, listing.links)
    requires LinkPrimary(db) && LinksGrounded(db)
    ensures Satisfies(store, Unique("memory_link_revisions",
                                    ["source_memory_id", "source_revision", "target_memory_id", "relation"]))
    ensures Satisfies(store, Reference("memory_link_revisions", ["source_memory_id", "source_revision"],
                                       "memory_revisions", ["memory_id", "revision"]))
    ensures Satisfies(store, Reference("memory_link_revisions", ["target_memory_id"], "memory_heads", ["memory_id"]))
    ensures Satisfies(store, Reference("memory_link_revisions", ["created_event_id"], "events", ["event_id"]))
  {
    hide Lists, Holds, Satisfies, EventRows, HeadRows, RevisionRows, One, Two, LinkRowKey, LinkPrimary, SeqOf;
    forall a, b | a in db.links && b in db.links && LinkRowKey(a) == LinkRowKey(b) ensures a == b {
      LinkRowTells(db, a, b);
    }
    ListedUnique<LinkRow>(store, "memory_link_revisions", listing.links, db.links,
                          ["source_memory_id", "source_revision", "target_memory_id", "relation"],
                          (row: LinkRow) => LinkRowKey(row));
    RevisionReference<LinkRow>(
      db, store, listing.revisions, "memory_link_revisions", listing.links, db.links,
      ["source_memory_id", "source_revision"], (row: LinkRow) => Two(row.source, row.sourceRevision),
      (row: LinkRow) => RevisionId(row.source, row.sourceRevision));
    MemoryReference<LinkRow>(
      db, store, listing.heads, "memory_link_revisions", listing.links, db.links, ["target_memory_id"],
      (row: LinkRow) => One(row.target), (row: LinkRow) => row.target);
    EventReference<LinkRow>(
      db, store, listing.events, "memory_link_revisions", listing.links, db.links, ["created_event_id"],
      (row: LinkRow) => One(row.event), (row: LinkRow) => row.event);
  }

  // --- every key and reference holds ------------------------------------

  lemma StoreFacts(db: Db)
    requires Inv(db) && LinkInv(db) && Traceable(db)
    ensures EventsDistinct(db) && RevisionsNumbered(db) && RevisionsOrdered(db) && LinksGrounded(db)
    ensures AssociationsGrounded(db) && LinkPrimary(db)
    ensures EvidenceGrounded(db) && AttachmentsKeyed(db) && CreationRecorded(db)
    ensures forall id | id in db.heads :: 1 <= db.heads[id].updatedSeq <= |db.events|
  {
    hide LedgerDeterminesState, IndexCoversHeads, ProjectionsCurrentOnce, ReceiptsGrounded, MetadataKinds, NoneNewer,
      LatestLedgered, LinksUniform, LinksInScope, SeqOf, Scope.Durable;
  }

  // The canonical tables of a store satisfy every key and reference between them.
  lemma KeysAndReferencesHold(db: Db, store: Store, listing: Listing)
    requires Inv(db) && LinkInv(db) && Traceable(db) && Tabulates(db, store, listing)
    ensures forall constraint | constraint in CONSTRAINTS :: Satisfies(store, constraint)
  {
    hide Inv, LinkInv, Traceable, Satisfies, EventsDistinct, RevisionsNumbered, RevisionsOrdered, LinksGrounded,
      AssociationsGrounded, LinkPrimary, EvidenceGrounded, AttachmentsKeyed, CreationRecorded, EventRows, HeadRows,
      RevisionRows, EvidenceRows, TagRows, LatestRows, AssociationRows, MetadataRows, LinkRevisionRows;
    StoreFacts(db);
    EventsValid(db, store, listing.events);
    HeadsValid(db, store, listing);
    RevisionsValid(db, store, listing);
    EvidenceValid(db, store, listing);
    TagsValid(db, store, listing);
    LatestValid(db, store, listing);
    AssociationsValid(db, store, listing);
    MetadataValid(db, store, listing);
    LinkRevisionsValid(db, store, listing);
  }

  // --- restoring an export ----------------------------------------------

  predicate HasCanonicalTables(tables: seq<Snapshot.TableSpec>) {
    |tables| == |TABLE_NAMES| && forall i | 0 <= i < |tables| :: tables[i].name == TABLE_NAMES[i]
  }

  // References lead to the log, the heads or the revisions, from tables after them.
  predicate LeadsBack(constraint: Constraint) {
    constraint.Reference? ==>
      match constraint.target
      case "events" => constraint.table !in ["events"]
      case "memory_heads" => constraint.table !in ["events", "memory_heads"]
      case "memory_revisions" => constraint.table !in ["events", "memory_heads", "memory_revisions"]
      case _ => false
  }

  lemma HeadsLeadBack()
    ensures forall constraint | constraint in EVENT_CONSTRAINTS + HEAD_CONSTRAINTS + REVISION_CONSTRAINTS ::
              LeadsBack(constraint)
  {
  }

  lemma AttachmentsLeadBack()
    ensures forall constraint | constraint in EVIDENCE_CONSTRAINTS + TAG_CONSTRAINTS + METADATA_CONSTRAINTS ::
              LeadsBack(constraint)
  {
  }

  lemma LinksLeadBack()
    ensures forall constraint | constraint in LATEST_CONSTRAINTS + ASSOCIATION_CONSTRAINTS + LINK_CONSTRAINTS ::
              LeadsBack(constraint)
  {
  }

  lemma ReferencesLeadBack()
    ensures forall constraint | constraint in CONSTRAINTS :: LeadsBack(constraint)
  {
    hide LeadsBack, EVENT_CONSTRAINTS, HEAD_CONSTRAINTS, REVISION_CONSTRAINTS, EVIDENCE_CONSTRAINTS, TAG_CONSTRAINTS,
      METADATA_CONSTRAINTS, LATEST_CONSTRAINTS, ASSOCIATION_CONSTRAINTS, LINK_CONSTRAINTS;
    HeadsLeadBack();
    AttachmentsLeadBack();
    LinksLeadBack();
  }

  // The tables are listed after the tables they refer to.
  lemma CanonicalOrder(tables: seq<Snapshot.TableSpec>, check: (string, Row) -> bool)
    requires HasCanonicalTables(tables)
    ensures Snapshot.Ordered(Schema(CONSTRAINTS, check), tables)
  {
    hide LeadsBack;
    ReferencesLeadBack();
    assert tables[0].name == "events" && tables[1].name == "memory_heads" && tables[2].name == "memory_revisions";
    forall i, constraint | 0 <= i < |tables| && constraint in CONSTRAINTS && constraint.Reference?
                           && constraint.table == tables[i].name
      ensures constraint.target in Snapshot.Names(tables[..i])
    {
      LedBack(constraint, tables, i);
    }
  }

  lemma LedBack(constraint: Constraint, tables: seq<Snapshot.TableSpec>, i: nat)
    requires LeadsBack(constraint) && constraint.Reference? && i < |tables| && |tables| >= 3
    requires tables[0].name == "events" && tables[1].name == "memory_heads" && tables[2].name == "memory_revisions"
    requires constraint.table == tables[i].name
    ensures constraint.target in Snapshot.Names(tables[..i])
  {
    var k := if constraint.target == "events" then 0 else if constraint.target == "memory_heads" then 1 else 2;
    assert k < i;
    assert tables[..i][k].name == constraint.target;
  }

  lemma NamesDiffer()
    ensures forall i, j | 0 <= i < j < |TABLE_NAMES| :: TABLE_NAMES[i] != TABLE_NAMES[j]
  {
  }

  lemma OrderedTogether(
    a: seq<Constraint>, b: seq<Constraint>, check: (string, Row) -> bool, tables: seq<Snapshot.TableSpec>)
    requires Snapshot.Ordered(Schema(a, check), tables) && Snapshot.Ordered(Schema(b, check), tables)
    ensures Snapshot.Ordered(Schema(a + b, check), tables)
  {
    hide Snapshot.Names;
  }

  // The parts of the schema this model does not hold: `rest` and the row checks.
  predicate RestValid(format: Snapshot.Format, store: Store, rest: seq<Constraint>) {
    forall name | name in Snapshot.Names(Snapshot.CurrentTables(format)) && name in store ::
      Checked(format.schema, name, store[name])
      && forall constraint | constraint in rest && constraint.table == name :: Satisfies(store, constraint)
  }

  lemma ValidIsRestValid(format: Snapshot.Format, store: Store, rest: seq<Constraint>)
    requires format.schema.constraints == CONSTRAINTS + rest
    requires Snapshot.Names(Snapshot.CurrentTables(format)) <= store.Keys
    requires forall constraint | constraint in CONSTRAINTS :: Satisfies(store, constraint)
    ensures Snapshot.StoreValid(format.schema, store, Snapshot.CurrentTables(format)) == RestValid(format, store, rest)
  {
    hide Satisfies, Snapshot.Names, Snapshot.CurrentTables, Checked;
  }

  // An export of any such store can be restored into an empty one, row by row,
  // exactly when its rows are clean and the rest of the schema holds: the keys
  // and references between the canonical tables never stand in the way.
  lemma ExportIsAccepted(
    format: Snapshot.Format, rest: seq<Constraint>, db: Db, store: Store, listing: Listing, target: Store)
    requires Inv(db) && LinkInv(db) && Traceable(db) && Tabulates(db, store, listing)
    requires HasCanonicalTables(Snapshot.CurrentTables(format))
    requires format.schema.constraints == CONSTRAINTS + rest
    requires Snapshot.Ordered(Schema(rest, format.schema.check), Snapshot.CurrentTables(format))
    requires Snapshot.Conforms(format, store) && target.Keys == store.Keys
    requires Snapshot.EmptyTarget(target, Snapshot.CurrentTables(format))
    requires Snapshot.Export(format, store).Ok?
    ensures forall name | name in store :: Snapshot.AllExportable(store[name])
    ensures Snapshot.Names(Snapshot.CurrentTables(format)) <= target.Keys
    ensures var copy := Snapshot.Import(format, target, Snapshot.Export(format, store).value);
            && copy.Ok? == (Snapshot.Clean(format, store) && RestValid(format, store, rest))
            && (copy.Ok? ==> copy.value == store)
  {
    hide Inv, LinkInv, Traceable, Tabulates, Satisfies, Snapshot.CurrentTables, Snapshot.Names, Snapshot.Export,
      Snapshot.Import, Snapshot.Ordered, RestValid, Snapshot.StoreValid, Snapshot.Clean, Snapshot.AllExportable,
      Snapshot.EmptyTarget;
    var tables := Snapshot.CurrentTables(format);
    KeysAndReferencesHold(db, store, listing);
    NamesDiffer();
    assert Snapshot.DistinctNames(tables);
    CanonicalOrder(tables, format.schema.check);
    OrderedTogether(CONSTRAINTS, rest, format.schema.check, tables);
    assert format.schema == Schema(CONSTRAINTS + rest, format.schema.check);
    Snapshot.ConformingKeys(format, store);
    Snapshot.RoundTrip(format, store, target);
    ValidIsRestValid(format, store, rest);
  }

  // In particular reachable stores satisfy them.
  lemma ReachableKeysHold(redactor: Redactor, db: Db, store: Store, listing: Listing)
    requires Reachable(db, redactor) && Tabulates(db, store, listing)
    ensures forall constraint | constraint in CONSTRAINTS :: Satisfies(store, constraint)
  {
    hide Inv, LinkInv, Traceable, Reachable, Tabulates, Satisfies;
    ReachableLinks(db, redactor);
    ReachableProvenance(db, redactor);
    KeysAndReferencesHold(db, store, listing);
  }
}
