// The derived search tables: alias and full-text coverage, and caller-generated
// projections.
module SearchIndex {
  import opened Basics
  import opened Domain
  import opened Database
  import opened Ledger

  const REPAIR_BATCH: nat := 256

  // --- alias and full-text coverage -------------------------------------

  function Indexable(db: Db): set<MemoryId> {
    set id | id in db.heads && db.heads[id].state != Retracted
  }

  predicate Covered(db: Db, id: MemoryId)
    requires id in db.heads
  {
    id in db.aliases && db.aliases[id] == AliasRow(db.heads[id].headRevision, CODE_ALIAS_VERSION)
  }

  // Heads the repair query selects.
  function Uncovered(db: Db): set<MemoryId> {
    set id | id in Indexable(db) && !Covered(db, id)
  }

  // Rebuilding one memory needs its current revision.
  predicate Loadable(db: Db, id: MemoryId) {
    id in db.heads && RevisionId(id, db.heads[id].headRevision) in db.revisions
  }

  function CoverAliases(aliases: map<MemoryId, AliasRow>, heads: map<MemoryId, Head>, ids: set<MemoryId>):
    map<MemoryId, AliasRow>
    requires ids <= heads.Keys
  {
    aliases + map id | id in ids :: AliasRow(heads[id].headRevision, CODE_ALIAS_VERSION)
  }

  function CoverFts(fts: map<MemoryId, nat>, heads: map<MemoryId, Head>, ids: set<MemoryId>): map<MemoryId, nat>
    requires ids <= heads.Keys
  {
    fts + map id | id in ids :: heads[id].headRevision
  }

  function WithCoverage(db: Db, ids: set<MemoryId>): Db
    requires ids <= db.heads.Keys
  {
    db.(aliases := CoverAliases(db.aliases, db.heads, ids), fts := CoverFts(db.fts, db.heads, ids))
  }

  lemma OneCovered(
    aliases: map<MemoryId, AliasRow>, fts: map<MemoryId, nat>, heads: map<MemoryId, Head>, id: MemoryId)
    requires id in heads
    ensures CoverAliases(aliases, heads, {id}) == aliases[id := AliasRow(heads[id].headRevision, CODE_ALIAS_VERSION)]
    ensures CoverFts(fts, heads, {id}) == fts[id := heads[id].headRevision]
  {
  }

  method RebuildMemory(db: Db, id: MemoryId) returns (r: Result<Db>)
    ensures r == if Loadable(db, id) then Ok(WithCoverage(db, {id})) else Err(NotFound)
  {
    if id !in db.heads || RevisionId(id, db.heads[id].headRevision) !in db.revisions {
      return Err(NotFound);
    }
    hide CoverAliases, CoverFts;
    var revision := db.heads[id].headRevision;
    var after := db.(fts := db.fts[id := revision],
                     aliases := db.aliases[id := AliasRow(revision, CODE_ALIAS_VERSION)]);
    OneCovered(db.aliases, db.fts, db.heads, id);
    r := Ok(after);
  }

  // A batch of at most `limit` members of a set.
  method TakeBatch(from: set<MemoryId>, limit: nat) returns (batch: set<MemoryId>)
    ensures batch <= from && |batch| <= limit
    ensures from != {} && limit > 0 ==> batch != {}
    ensures |from| <= limit ==> batch == from
  {
    batch := {};
    var rest := from;
    while rest != {} && |batch| < limit
      invariant rest <= from && batch == from - rest && |batch| <= limit
      invariant |batch| + |rest| == |from|
      decreases |rest|
    {
      var id :| id in rest;
      rest := rest - {id};
      batch := batch + {id};
    }
    assert rest != {} ==> |rest| > 0;
    assert from - {} == from;
  }

  lemma CoverageKeepsHeads(db: Db, ids: set<MemoryId>)
    requires ids <= db.heads.Keys
    ensures var after := WithCoverage(db, ids);
            after.heads == db.heads && Indexable(after) == Indexable(db)
            && forall id :: Loadable(after, id) == Loadable(db, id)
  {
  }

  lemma NoCoverage(db: Db)
    ensures WithCoverage(db, {}) == db
  {
    assert WithCoverage(db, {}).aliases == db.aliases;
    assert WithCoverage(db, {}).fts == db.fts;
  }

  method RebuildBatch(db: Db, ids: set<MemoryId>) returns (r: Result<Db>)
    requires ids <= db.heads.Keys
    ensures r.Ok? <==> forall id | id in ids :: Loadable(db, id)
    ensures r.Ok? ==> r.value == WithCoverage(db, ids)
    ensures r.Err? ==> r.error == NotFound
  {
    hide WithCoverage, Loadable;
    var tx, rest := db, ids;
    NoCoverage(db);
    assert ids - ids == {};
    while rest != {}
      invariant rest <= ids && tx == WithCoverage(db, ids - rest)
      invariant forall id | id in ids - rest :: Loadable(db, id)
      decreases |rest|
    {
      var id :| id in rest;
      CoverageKeepsHeads(db, ids - rest);
      var rebuilt := RebuildMemory(tx, id);
      if rebuilt.Err? { return Err(NotFound); }
      CoverageAddsUp(db, ids - rest, id);
      assert ids - (rest - {id}) == (ids - rest) + {id};
      rest := rest - {id};
      tx := rebuilt.value;
    }
    assert ids - {} == ids;
    r := Ok(tx);
  }

  lemma CoverageAddsUp(db: Db, ids: set<MemoryId>, id: MemoryId)
    requires ids <= db.heads.Keys && id in db.heads
    ensures WithCoverage(WithCoverage(db, ids), {id}) == WithCoverage(db, ids + {id})
  {
    hide WithCoverage;
    CoverageUnion(db, ids, {id});
  }

  function Rebuilt(db: Db): Result<Db> {
    if forall id | id in Indexable(db) :: Loadable(db, id)
    then Ok(WithCoverage(db.(fts := map[], aliases := map[]), Indexable(db)))
    else Err(NotFound)
  }

  // Full rebuild: whatever was in the derived tables, they end up covering
  // exactly the heads that are not retracted.
  method RebuildAllFts(db: Db) returns (r: Result<Db>)
    ensures r == Rebuilt(db)
    ensures r.Ok? <==> forall id | id in Indexable(db) :: Loadable(db, id)
    ensures r.Ok? ==> IndexCoversHeads(r.value)
                      && r.value == db.(aliases := r.value.aliases, fts := r.value.fts)
    ensures r.Ok? && IndexCoversHeads(db) ==> r.value == db
  {
    hide WithCoverage, Loadable, IndexCoversHeads, Indexable;
    var tx := db.(fts := map[], aliases := map[]);
    ghost var cleared := tx;
    var rest := Indexable(db);
    ClearedKeepsHeads(db);
    NoCoverage(cleared);
    assert rest - rest == {};
    while rest != {}
      invariant rest <= Indexable(db) && tx == WithCoverage(cleared, Indexable(db) - rest)
      invariant forall id | id in Indexable(db) - rest :: Loadable(db, id)
      decreases |rest|
    {
      CoverageKeepsHeads(cleared, Indexable(db) - rest);
      var chunk := TakeBatch(rest, REPAIR_BATCH);
      var rebuilt := RebuildBatch(tx, chunk);
      if rebuilt.Err? {
        assert exists id :: id in chunk && !Loadable(tx, id);
        return Err(NotFound);
      }
      Shrinks(rest, chunk);
      CoverageUnion(cleared, Indexable(db) - rest, chunk);
      assert Indexable(db) - (rest - chunk) == (Indexable(db) - rest) + chunk;
      rest := rest - chunk;
      tx := rebuilt.value;
    }
    assert Indexable(db) - {} == Indexable(db);
    RebuiltCovers(db, tx);
    r := Ok(tx);
  }

  lemma ClearedKeepsHeads(db: Db)
    ensures var cleared := db.(fts := map[], aliases := map[]);
            && Indexable(cleared) == Indexable(db) && Indexable(db) <= db.heads.Keys
            && forall id :: Loadable(cleared, id) == Loadable(db, id)
  {
  }

  lemma CoverageUnion(db: Db, ids: set<MemoryId>, more: set<MemoryId>)
    requires ids <= db.heads.Keys && more <= db.heads.Keys
    ensures WithCoverage(WithCoverage(db, ids), more) == WithCoverage(db, ids + more)
  {
    AliasUnion(db.aliases, db.heads, ids, more);
    FtsUnion(db.fts, db.heads, ids, more);
    hide CoverAliases, CoverFts;
  }

  lemma AliasUnion(
    aliases: map<MemoryId, AliasRow>, heads: map<MemoryId, Head>, ids: set<MemoryId>, more: set<MemoryId>)
    requires ids <= heads.Keys && more <= heads.Keys
    ensures CoverAliases(CoverAliases(aliases, heads, ids), heads, more) == CoverAliases(aliases, heads, ids + more)
  {
  }

  lemma FtsUnion(fts: map<MemoryId, nat>, heads: map<MemoryId, Head>, ids: set<MemoryId>, more: set<MemoryId>)
    requires ids <= heads.Keys && more <= heads.Keys
    ensures CoverFts(CoverFts(fts, heads, ids), heads, more) == CoverFts(fts, heads, ids + more)
  {
  }

  lemma RebuiltIndex(db: Db, after: Db)
    requires after == WithCoverage(db.(fts := map[], aliases := map[]), Indexable(db))
    ensures IndexCoversHeads(after) && after == db.(aliases := after.aliases, fts := after.fts)
  {
  }

  // The heads determine a covering index.
  lemma IndexIsDetermined(db: Db, after: Db)
    requires IndexCoversHeads(db) && IndexCoversHeads(after) && after.heads == db.heads
    ensures after.aliases == db.aliases && after.fts == db.fts
  {
  }

  lemma RebuiltCovers(db: Db, after: Db)
    requires after == WithCoverage(db.(fts := map[], aliases := map[]), Indexable(db))
    ensures IndexCoversHeads(after) && after == db.(aliases := after.aliases, fts := after.fts)
    ensures IndexCoversHeads(db) ==> after == db
  {
    RebuiltIndex(db, after);
    hide IndexCoversHeads, WithCoverage;
    if IndexCoversHeads(db) { IndexIsDetermined(db, after); }
  }

  // Batched repair: it ends from any alias table and leaves no head uncovered,
  // touching only rows of heads that were uncovered.
  method RepairIncompleteFts(db: Db) returns (r: Result<Db>)
    ensures (forall id | id in Uncovered(db) :: Loadable(db, id)) ==> r.Ok?
    ensures r.Ok? ==> Uncovered(r.value) == {} && r.value == WithCoverage(db, Uncovered(db))
  {
    hide WithCoverage, Loadable, Uncovered;
    var tx := db;
    ghost var done: set<MemoryId> := {};
    NoCoverage(db);
    UncoveredHeads(db);
    while true
      invariant done <= Uncovered(db) && tx == WithCoverage(db, done)
      decreases |Uncovered(tx)|
    {
      RemainingUncovered(db, done);
      CoverageKeepsHeads(db, done);
      UncoveredHeads(tx);
      var missing := Uncovered(tx);
      if missing == {} {
        assert done == Uncovered(db);
        return Ok(tx);
      }
      var batch := TakeBatch(missing, REPAIR_BATCH);
      var rebuilt := RebuildBatch(tx, batch);
      if rebuilt.Err? {
        assert exists id :: id in batch && !Loadable(tx, id);
        return Err(NotFound);
      }
      CoverageUnion(db, done, batch);
      RemainingUncovered(db, done + batch);
      assert Uncovered(rebuilt.value) == missing - batch;
      Shrinks(missing, batch);
      done := done + batch;
      tx := rebuilt.value;
    }
  }

  lemma UncoveredHeads(db: Db)
    ensures Uncovered(db) <= db.heads.Keys
  {
  }

  lemma Shrinks(all: set<MemoryId>, part: set<MemoryId>)
    requires part <= all && part != {}
    ensures |all - part| < |all|
  {
    assert all == (all - part) + part;
  }

  lemma RemainingUncovered(db: Db, done: set<MemoryId>)
    requires done <= Uncovered(db)
    ensures Uncovered(WithCoverage(db, done)) == Uncovered(db) - done
  {
  }

  // --- profiles ---------------------------------------------------------

  // Profiles are immutable: registering one again must repeat its settings.
  function RegisterProfile(db: Db, id: string, profile: Profile): Result<Db> {
    if id in db.profiles then if db.profiles[id] == profile then Ok(db) else Err(Conflict)
    else Ok(db.(profiles := db.profiles[id := profile]))
  }

  function RemoveProfile(db: Db, id: string): Db {
    db.(profiles := db.profiles - {id},
        projections := map key | key in db.projections && key.profile != id :: db.projections[key])
  }

  // --- projections ------------------------------------------------------

  datatype ProjectionInput = ProjectionInput(
    memory: MemoryId, revision: nat, contentHash: ContentHash, expansion: string, dense: Option<Dense>)

  datatype Registration = Registration(db: Db, registered: nat, identical: nat)

  // Checks made before the transaction, against the profile read earlier.
  predicate Malformed(input: ProjectionInput, profile: Profile) {
    input.revision == 0 || input.dense.Some? != profile.dimensions.Some?
  }

  predicate Repeats(inputs: seq<ProjectionInput>) {
    exists i, j | 0 <= i < j < |inputs| :: inputs[i].memory == inputs[j].memory
  }

  function AsProjection(input: ProjectionInput): Projection {
    Projection(input.revision, input.contentHash, input.expansion, input.dense)
  }

  predicate CurrentHead(db: Db, durable: DurableScope, id: MemoryId) {
    && id in db.heads && db.heads[id].durable == durable && db.heads[id].state != Retracted
    && RevisionId(id, db.heads[id].headRevision) in db.revisions
  }

  // One projection of the batch: compare-and-swap against the current head.
  function RegisterOne(db: Db, profile: string, durable: DurableScope, input: ProjectionInput): Result<Registration> {
    var key := ProjectionKey(profile, input.memory);
    if !CurrentHead(db, durable, input.memory) then Err(Conflict)
    else
      var revision := db.heads[input.memory].headRevision;
      if revision != input.revision
         || HashOf(db.revisions[RevisionId(input.memory, revision)]) != input.contentHash then Err(Conflict)
      else if key in db.projections && db.projections[key] == AsProjection(input) then Ok(Registration(db, 0, 1))
      else if key in db.projections && db.projections[key].revision == input.revision
              && db.projections[key].contentHash == input.contentHash then Err(Conflict)
      else Ok(Registration(db.(projections := db.projections[key := AsProjection(input)]), 1, 0))
  }

  function RegisterAll(db: Db, profile: string, durable: DurableScope, inputs: seq<ProjectionInput>):
    Result<Registration>
  {
    if inputs == [] then Ok(Registration(db, 0, 0))
    else
      var n := |inputs| - 1;
      var before :- RegisterAll(db, profile, durable, inputs[..n]);
      var last :- RegisterOne(before.db, profile, durable, inputs[n]);
      Ok(Registration(last.db, before.registered + last.registered, before.identical + last.identical))
  }

  // `observed` is the profile as it was when the batch was prepared.
  function RegisterSpec(
    db: Db, profile: string, observed: Profile, durable: DurableScope, inputs: seq<ProjectionInput>):
    Result<Registration>
  {
    if Repeats(inputs) || exists i | 0 <= i < |inputs| :: Malformed(inputs[i], observed) then Err(InvalidInput)
    else if profile !in db.profiles then Err(NotFound)
    else if db.profiles[profile] != observed then Err(Conflict)
    else RegisterAll(db, profile, durable, inputs)
  }

  method PrepareProjections(observed: Profile, inputs: seq<ProjectionInput>) returns (r: Result<()>)
    ensures r == if Repeats(inputs) || exists i | 0 <= i < |inputs| :: Malformed(inputs[i], observed)
                 then Err(InvalidInput) else Ok(())
  {
    var seen: set<MemoryId> := {};
    for i := 0 to |inputs|
      invariant forall j | 0 <= j < i :: inputs[j].memory in seen && !Malformed(inputs[j], observed)
      invariant forall id | id in seen :: exists j :: 0 <= j < i && inputs[j].memory == id
      invariant forall j, k | 0 <= j < k < i :: inputs[j].memory != inputs[k].memory
    {
      var input := inputs[i];
      if input.revision == 0 { return Err(InvalidInput); }
      if input.memory in seen {
        var j :| 0 <= j < i && inputs[j].memory == input.memory;
        assert Repeats(inputs);
        return Err(InvalidInput);
      }
      if input.dense.Some? != observed.dimensions.Some? { return Err(InvalidInput); }
      seen := seen + {input.memory};
    }
    r := Ok(());
  }

  // Registering a batch: the caller commits the result, or nothing at all.
  method RegisterSearchProjections(
    db: Db, profile: string, observed: Profile, durable: DurableScope, inputs: seq<ProjectionInput>)
    returns (r: Result<Registration>)
    ensures r == RegisterSpec(db, profile, observed, durable, inputs)
  {
    hide HashOf, Repeats, Malformed, CurrentHead, AsProjection;
    var prepared := PrepareProjections(observed, inputs);
    if prepared.Err? { return Err(prepared.error); }
    if profile !in db.profiles { return Err(NotFound); }
    if db.profiles[profile] != observed { return Err(Conflict); }
    var tx := db;
    var registered: nat, identical: nat := 0, 0;
    for i := 0 to |inputs|
      invariant RegisterAll(db, profile, durable, inputs[..i]) == Ok(Registration(tx, registered, identical))
    {
      assert inputs[..i + 1][..i] == inputs[..i];
      var one := StoreProjection(tx, profile, durable, inputs[i]);
      if one.Err? {
        RegisterStops(db, profile, durable, inputs, i + 1);
        return Err(one.error);
      }
      tx := one.value.db;
      registered := registered + one.value.registered;
      identical := identical + one.value.identical;
    }
    assert inputs[..|inputs|] == inputs;
    r := Ok(Registration(tx, registered, identical));
  }

  method StoreProjection(tx: Db, profile: string, durable: DurableScope, input: ProjectionInput)
    returns (r: Result<Registration>)
    ensures r == RegisterOne(tx, profile, durable, input)
  {
    var key := ProjectionKey(profile, input.memory);
    if !CurrentHead(tx, durable, input.memory) { return Err(Conflict); }
    var revision := tx.heads[input.memory].headRevision;
    if revision != input.revision || HashOf(tx.revisions[RevisionId(input.memory, revision)]) != input.contentHash {
      return Err(Conflict);
    }
    if key in tx.projections && tx.projections[key] == AsProjection(input) {
      return Ok(Registration(tx, 0, 1));
    }
    if key in tx.projections && tx.projections[key].revision == input.revision
       && tx.projections[key].contentHash == input.contentHash {
      return Err(Conflict);
    }
    var stored := tx.(projections := tx.projections[key := AsProjection(input)]);
    r := Ok(Registration(stored, 1, 0));
  }

  // The first refusal decides the batch.
  lemma {:induction false} RegisterStops(
    db: Db, profile: string, durable: DurableScope, inputs: seq<ProjectionInput>, n: nat)
    requires n <= |inputs| && RegisterAll(db, profile, durable, inputs[..n]).Err?
    ensures RegisterAll(db, profile, durable, inputs) == RegisterAll(db, profile, durable, inputs[..n])
    decreases |inputs| - n
  {
    hide RegisterOne;
    if n < |inputs| {
      assert inputs[..n + 1][..n] == inputs[..n];
      RegisterStops(db, profile, durable, inputs, n + 1);
    } else {
      assert inputs[..n] == inputs;
    }
  }

  // --- what registration keeps ------------------------------------------

  lemma RegisterOneKeepsInv(db: Db, profile: string, durable: DurableScope, input: ProjectionInput)
    requires Inv(db) && profile in db.profiles && RegisterOne(db, profile, durable, input).Ok?
    ensures var after := RegisterOne(db, profile, durable, input).value.db;
            && after == db.(projections := after.projections) && ProjectionsCurrentOnce(after)
  {
    hide HashOf, RevisionsOrdered, HeadsRecorded, MetadataKinds, LinksGrounded, AssociationsGrounded,
      LedgerDeterminesState, IndexCoversHeads, ReceiptsGrounded, EventsDistinct;
  }

  lemma ProjectionsAlone(db: Db, after: Db)
    requires Inv(db) && after == db.(projections := after.projections) && ProjectionsCurrentOnce(after)
    ensures Inv(after)
  {
    hide EventsDistinct, RevisionsNumbered, RevisionsOrdered, HeadsRecorded, MetadataKinds, LinksGrounded,
      AssociationsGrounded, LedgerDeterminesState, ProjectionsCurrentOnce, SeqOf, Scope.Durable;
    CanonKeepsInv(db, after);
  }

  // A stored projection is kept or replaced by one of a later revision, or its
  // memory was retracted.
  ghost predicate Advanced(before: Db, after: Db, key: ProjectionKey)
    requires key in before.projections
  {
    || (key in after.projections
        && (after.projections[key] == before.projections[key]
            || after.projections[key].revision > before.projections[key].revision))
    || (key.memory in after.heads && after.heads[key.memory].state == Retracted)
  }

  ghost predicate NeverRewritten(before: Db, after: Db) {
    forall key | key in before.projections :: Advanced(before, after, key)
  }

  lemma RegisterOneNeverRewrites(db: Db, profile: string, durable: DurableScope, input: ProjectionInput)
    requires Inv(db) && RegisterOne(db, profile, durable, input).Ok?
    ensures NeverRewritten(db, RegisterOne(db, profile, durable, input).value.db)
  {
    hide RevisionsOrdered, HeadsRecorded, MetadataKinds, LinksGrounded, AssociationsGrounded,
      LedgerDeterminesState, IndexCoversHeads, ReceiptsGrounded, EventsDistinct;
  }

  // Registering a batch keeps the invariant, changes only projections, and
  // never rewrites the bytes of a revision.
  lemma {:induction false} RegisterAllKeeps(db: Db, profile: string, durable: DurableScope,
      inputs: seq<ProjectionInput>)
    requires Inv(db) && profile in db.profiles && RegisterAll(db, profile, durable, inputs).Ok?
    ensures var after := RegisterAll(db, profile, durable, inputs).value.db;
            Inv(after) && after == db.(projections := after.projections) && NeverRewritten(db, after)
  {
    hide Inv, RegisterOne;
    if inputs != [] {
      var n := |inputs| - 1;
      RegisterAllKeeps(db, profile, durable, inputs[..n]);
      var before := RegisterAll(db, profile, durable, inputs[..n]).value.db;
      RegisterOneKeepsInv(before, profile, durable, inputs[n]);
      RegisterOneNeverRewrites(before, profile, durable, inputs[n]);
      var after := RegisterOne(before, profile, durable, inputs[n]).value.db;
      ProjectionsAlone(before, after);
    }
  }

  // --- status -----------------------------------------------------------

  // The counting queries of the status report, as the rows they count.
  function EligibleHeads(db: Db, durable: DurableScope): set<MemoryId> {
    set id | id in db.heads && db.heads[id].durable == durable && db.heads[id].state != Retracted
  }

  predicate Matches(db: Db, profile: string, dense: bool, id: MemoryId)
    requires id in db.heads
  {
    var key, at := ProjectionKey(profile, id), RevisionId(id, db.heads[id].headRevision);
    && key in db.projections && at in db.revisions
    && db.projections[key].revision == db.heads[id].headRevision
    && db.projections[key].contentHash == HashOf(db.revisions[at])
    && (dense ==> db.projections[key].dense.Some?)
  }

  function IndexedHeads(db: Db, profile: string, dense: bool, durable: DurableScope): set<MemoryId> {
    set id | id in EligibleHeads(db, durable) && Matches(db, profile, dense, id)
  }

  // The documents a worker is asked to produce projections for.
  function PendingHeads(db: Db, profile: string, dense: bool, durable: DurableScope): set<MemoryId> {
    set id | id in EligibleHeads(db, durable) && RevisionId(id, db.heads[id].headRevision) in db.revisions
             && (!Matches(db, profile, false, id) || (dense && db.projections[ProjectionKey(profile, id)].dense.None?))
  }

  function ProfileRows(db: Db, profile: string, durable: DurableScope): set<ProjectionKey> {
    set key | key in db.projections && key.profile == profile
              && key.memory in db.heads && db.heads[key.memory].durable == durable
  }

  function StaleRows(db: Db, profile: string, dense: bool, durable: DurableScope): set<ProjectionKey> {
    set key | key in ProfileRows(db, profile, durable)
              && RevisionId(key.memory, db.heads[key.memory].headRevision) in db.revisions
              && (db.heads[key.memory].state == Retracted
                  || db.projections[key].revision != db.heads[key.memory].headRevision
                  || db.projections[key].contentHash
                     != HashOf(db.revisions[RevisionId(key.memory, db.heads[key.memory].headRevision)])
                  || (dense && db.projections[key].dense.None?))
  }

  datatype IndexStatus = IndexStatus(eligible: nat, indexed: nat, pending: nat, stale: nat)

  function SearchIndexStatus(db: Db, profile: string, durable: DurableScope): Result<IndexStatus> {
    if profile !in db.profiles then Err(NotFound)
    else
      var dense := db.profiles[profile].dimensions.Some?;
      var eligible, indexed := |EligibleHeads(db, durable)|, |IndexedHeads(db, profile, dense, durable)|;
      Ok(IndexStatus(eligible, indexed, if eligible < indexed then 0 else eligible - indexed,
                     |StaleRows(db, profile, dense, durable)|))
  }

  function KeysOf(profile: string, ids: set<MemoryId>): set<ProjectionKey> {
    set id | id in ids :: ProjectionKey(profile, id)
  }

  lemma {:induction false} KeysCount(profile: string, ids: set<MemoryId>)
    ensures |KeysOf(profile, ids)| == |ids|
    decreases ids
  {
    if ids == {} {
      assert KeysOf(profile, ids) == {};
    } else {
      var id :| id in ids;
      KeysCount(profile, ids - {id});
      assert KeysOf(profile, ids) == KeysOf(profile, ids - {id}) + {ProjectionKey(profile, id)};
    }
  }

  lemma EligibleSplits(db: Db, profile: string, dense: bool, durable: DurableScope)
    requires RevisionsNumbered(db)
    ensures var indexed, pending := IndexedHeads(db, profile, dense, durable),
        PendingHeads(db, profile, dense, durable);
            && EligibleHeads(db, durable) == indexed + pending && indexed !! pending
            && |EligibleHeads(db, durable)| == |indexed| + |pending|
  {
    hide Matches;
    var indexed, pending := IndexedHeads(db, profile, dense, durable), PendingHeads(db, profile, dense, durable);
    forall id | id in EligibleHeads(db, durable) ensures id in pending <==> id !in indexed {
      assert RevisionId(id, db.heads[id].headRevision) in db.revisions;
      DenseMatch(db, profile, dense, id);
    }
    assert EligibleHeads(db, durable) == indexed + pending;
    assert indexed * pending == {};
  }

  lemma DenseMatch(db: Db, profile: string, dense: bool, id: MemoryId)
    requires id in db.heads
    ensures Matches(db, profile, dense, id)
        <==> Matches(db, profile, false, id) && !(dense && db.projections[ProjectionKey(profile, id)].dense.None?)
  {
    hide HashOf;
  }

  lemma RowIsIndexedOrStale(db: Db, profile: string, dense: bool, durable: DurableScope, key: ProjectionKey)
    requires RevisionsNumbered(db) && ProjectionsCurrentOnce(db) && key in ProfileRows(db, profile, durable)
    ensures (key !in StaleRows(db, profile, dense, durable))
         == (key == ProjectionKey(profile, key.memory) && key.memory in IndexedHeads(db, profile, dense, durable))
  {
    hide HashOf;
    assert RevisionId(key.memory, db.heads[key.memory].headRevision) in db.revisions;
  }

  lemma ProfileRowsSplit(db: Db, profile: string, dense: bool, durable: DurableScope)
    requires RevisionsNumbered(db) && ProjectionsCurrentOnce(db)
    ensures var indexed, stale := KeysOf(profile, IndexedHeads(db, profile, dense, durable)),
        StaleRows(db, profile, dense, durable);
            && ProfileRows(db, profile, durable) == indexed + stale && indexed !! stale
            && |ProfileRows(db, profile, durable)| == |indexed| + |stale|
  {
    hide RevisionsNumbered, ProjectionsCurrentOnce;
    var heads, stale := IndexedHeads(db, profile, dense, durable), StaleRows(db, profile, dense, durable);
    var rows := ProfileRows(db, profile, durable);
    RowsContain(db, profile, dense, durable);
    hide StaleRows, IndexedHeads, ProfileRows;
    forall key | key in rows ensures (key in KeysOf(profile, heads)) == (key !in stale) {
      RowIsIndexedOrStale(db, profile, dense, durable, key);
    }
    assert rows == KeysOf(profile, heads) + stale;
    assert KeysOf(profile, heads) * stale == {};
  }

  lemma RowsContain(db: Db, profile: string, dense: bool, durable: DurableScope)
    ensures StaleRows(db, profile, dense, durable) <= ProfileRows(db, profile, durable)
    ensures KeysOf(profile, IndexedHeads(db, profile, dense, durable)) <= ProfileRows(db, profile, durable)
  {
    hide HashOf;
  }

  // The reported numbers add up: every eligible document is either indexed or
  // pending, and every stored projection of the profile is either indexed or stale.
  lemma StatusAddsUp(db: Db, profile: string, durable: DurableScope)
    requires Inv(db) && profile in db.profiles
    ensures var status, dense := SearchIndexStatus(db, profile, durable), db.profiles[profile].dimensions.Some?;
            && status.Ok?
            && status.value.eligible == status.value.indexed + status.value.pending
            && status.value.pending == |PendingHeads(db, profile, dense, durable)|
            && EligibleHeads(db, durable)
               == IndexedHeads(db, profile, dense, durable) + PendingHeads(db, profile, dense, durable)
            && IndexedHeads(db, profile, dense, durable) !! PendingHeads(db, profile, dense, durable)
            && ProfileRows(db, profile, durable)
               == KeysOf(profile, IndexedHeads(db, profile, dense, durable)) + StaleRows(db, profile, dense, durable)
            && |ProfileRows(db, profile, durable)| == status.value.indexed + status.value.stale
  {
    hide EligibleHeads, IndexedHeads, PendingHeads, ProfileRows, StaleRows, KeysOf, RevisionsNumbered,
      ProjectionsCurrentOnce;
    var dense := db.profiles[profile].dimensions.Some?;
    EligibleSplits(db, profile, dense, durable);
    ProfileRowsSplit(db, profile, dense, durable);
    KeysCount(profile, IndexedHeads(db, profile, dense, durable));
  }
}
