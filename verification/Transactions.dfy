// Row by row: what runs inside a write transaction, on the transaction's own
// view of the tables.
module Transactions {
  import opened Basics
  import opened Domain
  import opened Database
  import opened AttachmentTables

  // --- checks before a write --------------------------------------------

  method CheckEvidence(tx: Db, evidence: seq<Evidence>, scope: Scope) returns (r: Result<()>)
    ensures r == ValidateEvidence(tx, evidence, scope)
  {
    hide SeqOf, Scope.Durable, ValidRelation, ValidSpan;
    for i := 0 to |evidence|
      invariant ValidateEvidence(tx, evidence, scope) == ValidateEvidence(tx, evidence[i..], scope)
    {
      assert evidence[i..][0] == evidence[i] && evidence[i..][1..] == evidence[i + 1..];
      if !ValidRelation(evidence[i].relation) { return Err(InvalidInput); }
      var n := SeqOf(tx.events, evidence[i].event);
      if n == 0 { return Err(NotFound); }
      if tx.events[n - 1].scope.Durable() != scope.Durable() { return Err(Conflict); }
      if !ValidSpan(evidence[i], tx.events[n - 1].content) { return Err(InvalidInput); }
    }
    return Ok(());
  }

  method CheckLinkTargets(tx: Db, links: seq<LinkInput>, scope: Scope) returns (r: Result<()>)
    ensures r == ValidateLinks(tx, links, scope)
  {
    hide Scope.Durable, ValidRelation;
    for i := 0 to |links|
      invariant ValidateLinks(tx, links, scope) == ValidateLinks(tx, links[i..], scope)
    {
      assert links[i..][0] == links[i] && links[i..][1..] == links[i + 1..];
      if links[i].target !in tx.heads { return Err(NotFound); }
      if tx.heads[links[i].target].durable != scope.Durable() { return Err(Conflict); }
      if !ValidRelation(links[i].relation) { return Err(InvalidInput); }
    }
    return Ok(());
  }

  // --- resolving the memory a request revises ---------------------------

  // The first row of the canonical-key query.
  method SelectNewest(tx: Db, among: set<MemoryId>) returns (id: MemoryId)
    requires among <= tx.heads.Keys && among != {}
    ensures IsNewest(tx, id, among)
  {
    id :| id in among;
    var rest := among - {id};
    while rest != {}
      invariant rest <= among && id in among && id !in rest
      invariant IsNewest(tx, id, among - rest)
    {
      var next :| next in rest;
      assert among - (rest - {next}) == (among - rest) + {next};
      if Newer(tx, next, id) { id := next; }
      rest := rest - {next};
    }
    assert among - rest == among;
  }

  method FindExisting(tx: Db, request: MemoryRequest) returns (r: Result<Option<MemoryId>>)
    ensures r == Existing(tx, request)
  {
    hide Scope.Durable;
    if request.memoryId.Some? {
      var id := request.memoryId.value;
      if id !in tx.heads { return Ok(None); }
      if tx.heads[id].durable != request.scope.Durable() { return Err(Conflict); }
      if tx.heads[id].kind != request.kind { return Err(Conflict); }
      if tx.heads[id].state == Retracted || tx.heads[id].state == Superseded { return Err(Conflict); }
      return Ok(Some(id));
    } else if request.key.Some? {
      var among := Candidates(tx, request.scope.Durable(), request.kind, request.key.value);
      if among == {} { return Ok(None); }
      var id := SelectNewest(tx, among);
      assert id == Newest(tx, among);
      return Ok(Some(id));
    }
    return Ok(None);
  }

  // --- links ------------------------------------------------------------

  lemma {:induction false} CheckLinksFails(links: seq<LinkInput>, id: MemoryId, i: nat, n: nat)
    requires i <= n <= |links| && CheckLinks(links, id, i).Err?
    ensures CheckLinks(links, id, n) == CheckLinks(links, id, i)
    decreases n - i
  {
    if i < n { CheckLinksFails(links, id, i, n - 1); }
  }

  datatype LinkInsertion = LinkInsertion(
    rows: set<LinkRow>, latest: map<LinkKey, LatestLink>, associations: set<Association>)

  // Replaces the latest link of each pair and appends to the ledger; a second
  // ledger row with one primary key is refused.
  method InsertLinks(
    latestLinks: map<LinkKey, LatestLink>, id: MemoryId, revision: nat, links: seq<LinkInput>, event: EventId)
    returns (r: Result<LinkInsertion>)
    ensures r.Ok? == CheckLinks(links, id, |links|).Ok?
    ensures r.Err? ==> r.error == CheckLinks(links, id, |links|).error
    ensures r.Ok? ==> r.value.rows == LinkRows(id, revision, links, event)
    ensures r.Ok? ==> r.value.latest == LatestAfter(latestLinks, id, links, event)
    ensures r.Ok? ==> r.value.associations == TargetAssociations(links, event)
  {
    hide CapWeight;
    var rows: set<LinkRow>, associations: set<Association> := {}, {};
    var latest := latestLinks;
    for i := 0 to |links|
      invariant CheckLinks(links, id, i).Ok?
      invariant rows == LinkRows(id, revision, links[..i], event)
      invariant latest == LatestAfter(latestLinks, id, links[..i], event)
      invariant associations == TargetAssociations(links[..i], event)
    {
      assert links[..i + 1][..i] == links[..i];
      RowKeyTaken(id, revision, links, i, event);
      if links[i].target == id {
        CheckLinksFails(links, id, i + 1, |links|);
        return Err(InvalidInput);
      }
      if exists row | row in rows :: row.target == links[i].target && row.relation == links[i].relation {
        CheckLinksFails(links, id, i + 1, |links|);
        return Err(ConstraintViolation);
      }
      LinkRowsSnoc(id, revision, links, i, event);
      latest := latest[
        LinkKey(id, links[i].target, links[i].relation) := LatestLink(CapWeight(links[i].weight), event)];
      rows := rows + {LinkRow(id, revision, links[i].target, links[i].relation, CapWeight(links[i].weight), event)};
      associations := associations + {Association(event, links[i].target)};
    }
    assert links[..|links|] == links;
    return Ok(LinkInsertion(rows, latest, associations));
  }

  lemma RowKeyTaken(id: MemoryId, revision: nat, links: seq<LinkInput>, i: nat, event: EventId)
    requires i < |links|
    ensures (exists row | row in LinkRows(id, revision, links[..i], event) ::
               row.target == links[i].target && row.relation == links[i].relation)
         == (exists j | 0 <= j < i :: links[j].target == links[i].target && links[j].relation == links[i].relation)
  {
    hide CapWeight;
    if j :| 0 <= j < i && links[j].target == links[i].target && links[j].relation == links[i].relation {
      assert links[..i][j] == links[j];
      assert LinkRow(id, revision, links[j].target, links[j].relation, CapWeight(links[j].weight), event)
          in LinkRows(id, revision, links[..i], event);
    }
  }

  lemma LinkRowsSnoc(id: MemoryId, revision: nat, links: seq<LinkInput>, i: nat, event: EventId)
    requires i < |links|
    ensures LinkRows(id, revision, links[..i + 1], event)
         == LinkRows(id, revision, links[..i], event)
            + {LinkRow(id, revision, links[i].target, links[i].relation, CapWeight(links[i].weight), event)}
    ensures TargetAssociations(links[..i + 1], event)
         == TargetAssociations(links[..i], event) + {Association(event, links[i].target)}
  {
    hide CapWeight;
    var front, all := links[..i], links[..i + 1];
    assert all[i] == links[i] && forall j | 0 <= j < i :: all[j] == front[j];
  }

  // --- lifecycle effects of links ---------------------------------------

  // What the links make of a head they point to.
  function SettleTarget(id: MemoryId, head: Head, links: seq<LinkInput>, sequence: nat): Head {
    if Affects(links, id, Supersedes) && Live(head.state) then head.(state := Superseded, updatedSeq := sequence)
    else if Affects(links, id, Contests) && head.state == Active then
      head.(state := Contested, updatedSeq := sequence)
    else head
  }

  lemma AffectsSnoc(links: seq<LinkInput>, i: nat, id: MemoryId, effect: LinkEffect)
    requires i < |links|
    ensures Affects(links[..i + 1], id, effect)
         == (Affects(links[..i], id, effect) || (links[i].target == id && Effect(links[i].relation) == effect))
    ensures AnyContests(links[..i + 1]) == (AnyContests(links[..i]) || Effect(links[i].relation) == Contests)
  {
    hide Effect;
    var front, all := links[..i], links[..i + 1];
    assert all[i] == links[i] && forall j | 0 <= j < i :: all[j] == front[j];
  }

  function SetState(heads: map<MemoryId, Head>, id: MemoryId, state: MemoryState, sequence: nat): map<MemoryId, Head>
    requires id in heads
  {
    heads[id := heads[id].(state := state, updatedSeq := sequence)]
  }

  // One conditional update per link, in the order of the request; the result
  // does not depend on that order.
  method ApplyLinkLifecycle(heads: map<MemoryId, Head>, source: MemoryId, links: seq<LinkInput>, sequence: nat)
    returns (settled: map<MemoryId, Head>)
    requires source in heads && forall i | 0 <= i < |links| :: links[i].target != source
    ensures settled == SettleAll(heads, source, links, sequence)
  {
    hide Effect, Affects, AnyContests;
    settled := heads;
    var sourceContested := false;
    assert !AnyContests(links[..0]) && forall id, effect :: !Affects(links[..0], id, effect) by { NoLinksYet(links); }
    for i := 0 to |links|
      invariant settled.Keys == heads.Keys && sourceContested == AnyContests(links[..i])
      invariant forall id | id in heads :: settled[id] == SettleTarget(id, heads[id], links[..i], sequence)
    {
      var link := links[i];
      forall id, effect ensures Affects(links[..i + 1], id, effect)
          == (Affects(links[..i], id, effect) || (link.target == id && Effect(link.relation) == effect)) {
        AffectsSnoc(links, i, id, effect);
      }
      AffectsSnoc(links, i, source, Contests);
      match Effect(link.relation) {
        case Supersedes =>
          if link.target in settled && Live(settled[link.target].state) {
            settled := SetState(settled, link.target, Superseded, sequence);
          }
        case Contests =>
          sourceContested := true;
          if link.target in settled && settled[link.target].state == Active {
            settled := SetState(settled, link.target, Contested, sequence);
          }
        case NoEffect =>
      }
    }
    assert links[..|links|] == links;
    SourceNotAffected(links, source);
    if sourceContested && settled[source].state == Active {
      settled := SetState(settled, source, Contested, sequence);
    }
  }

  lemma NoLinksYet(links: seq<LinkInput>)
    ensures !AnyContests(links[..0]) && forall id, effect :: !Affects(links[..0], id, effect)
  {
  }

  lemma SourceNotAffected(links: seq<LinkInput>, source: MemoryId)
    requires forall i | 0 <= i < |links| :: links[i].target != source
    ensures forall effect :: !Affects(links, source, effect)
  {
  }

  // --- one memory write -------------------------------------------------

  // Inserts or revises one memory, table by table.
  method UpsertMemory(tx: Db, request: MemoryRequest, event: EventId, generated: MemoryId) returns (r: Result<Upserted>)
    ensures r == Upsert(tx, request, event, generated)
  {
    hide ValidateEvidence, ValidateLinks, Existing, CheckLinks, Scope.Durable, Written;
    var evidenceChecked := CheckEvidence(tx, request.evidence, request.scope);
    if evidenceChecked.Err? { return Err(evidenceChecked.error); }
    var linksChecked := CheckLinkTargets(tx, request.links, request.scope);
    if linksChecked.Err? { return Err(linksChecked.error); }
    var existing := FindExisting(tx, request);
    if existing.Err? { return Err(existing.error); }
    var id := generated;
    if existing.value.Some? {
      id := existing.value.value;
    } else {
      if request.memoryId.Some? { id := request.memoryId.value; }
      if id in tx.heads { return Err(ConstraintViolation); }
    }
    var written := WriteRevision(tx, id, request, event);
    if written.Err? { return Err(written.error); }
    return Ok(Upserted(written.value, id));
  }

  // One INSERT OR IGNORE per attachment.
  method InsertAll<T>(start: seq<T>, ghost done: seq<T>, items: seq<T>, before: Order<T>) returns (rows: seq<T>)
    requires start == StoreAll(done, before)
    ensures rows == StoreAll(done + items, before)
  {
    rows := start;
    assert done + items[..0] == done;
    for i := 0 to |items|
      invariant rows == StoreAll(done + items[..i], before)
    {
      assert (done + items[..i + 1])[..|done| + i] == done + items[..i];
      rows := InsertOrIgnore(rows, items[i], before);
    }
    assert done + items[..|items|] == done + items;
  }

  method InsertAttachments(request: MemoryRequest, event: EventId) returns (stored: Attachments)
    ensures stored == Stored(request.tags, request.entities, request.artifacts, request.evidence, event)
  {
    hide InsertOrIgnore;
    var evidence := InsertAll([], [], [DerivedFrom(event)], EvidenceBefore);
    assert [] + [DerivedFrom(event)] == [DerivedFrom(event)];
    evidence := InsertAll(evidence, [DerivedFrom(event)], request.evidence, EvidenceBefore);
    var tags := InsertAll([], [], request.tags, TagBefore);
    assert [] + request.tags == request.tags;
    var entities := InsertAll([], [], LowerEntities(request.entities), EntityBefore);
    assert [] + LowerEntities(request.entities) == LowerEntities(request.entities);
    var artifacts := InsertAll([], [], ArtifactRows(request.artifacts), ArtifactBefore);
    assert [] + ArtifactRows(request.artifacts) == ArtifactRows(request.artifacts);
    return Attachments(tags, entities, artifacts, evidence);
  }

  // Head, revision, attachments, links, their effects, metadata, index.
  method WriteRevision(tx: Db, id: MemoryId, request: MemoryRequest, event: EventId) returns (r: Result<Db>)
    ensures r == var checked := CheckLinks(request.links, id, |request.links|);
                 if checked.Err? then Err(checked.error) else Ok(Written(tx, id, request, event))
  {
    hide CheckLinks, SettleAll, LinkRows, LatestAfter, TargetAssociations, Scope.Durable, Stored;
    var sequence := |tx.events|;
    var revision, createdSeq := 1, sequence;
    if id in tx.heads { revision, createdSeq := tx.heads[id].headRevision + 1, tx.heads[id].createdSeq; }
    var at := RevisionId(id, revision);
    var after := tx.(revisions := tx.revisions[at :=
                       Revision(request.title, request.body, request.attributes, request.scope, sequence)]);
    after := after.(heads := after.heads[id :=
      Head(request.scope.Durable(), request.kind, Active, request.key, revision, request.ranking,
           createdSeq, sequence)]);
    var attachments := InsertAttachments(request, event);
    after := after.(attachments := after.attachments[at := attachments]);
    var inserted := InsertLinks(after.latestLinks, id, revision, request.links, event);
    if inserted.Err? { return Err(inserted.error); }
    NoSelfLinks(request.links, id, |request.links|);
    after := after.(links := after.links + inserted.value.rows, latestLinks := inserted.value.latest,
                    associations := after.associations + inserted.value.associations);
    var settled := ApplyLinkLifecycle(after.heads, id, request.links, sequence);
    assert id in settled by { SettledKeys(after.heads, id, request.links, sequence); }
    after := after.(heads := settled);
    after := after.(metadata := after.metadata[at :=
      Metadata(request.kind, after.heads[id].state, request.key, request.ranking, true)]);
    after := after.(associations := after.associations + {Association(event, id)});
    after := after.(fts := after.fts - {id});
    after := after.(fts := after.fts[id := revision]);
    after := after.(aliases := after.aliases[id := AliasRow(revision, CODE_ALIAS_VERSION)]);
    assert (tx.fts - {id})[id := revision] == tx.fts[id := revision];
    return Ok(after);
  }

  lemma SettledKeys(heads: map<MemoryId, Head>, source: MemoryId, links: seq<LinkInput>, sequence: nat)
    ensures SettleAll(heads, source, links, sequence).Keys == heads.Keys
  {
  }

  // --- the members of a checkpoint --------------------------------------

  lemma {:induction false} UpsertAllFails(
    db: Db, redactor: Redactor, requests: seq<MemoryRequest>, i: nat, event: EventId, generated: nat -> MemoryId)
    requires i <= |requests| && UpsertAll(db, redactor, requests[..i], event, generated).Err?
    ensures UpsertAll(db, redactor, requests, event, generated).Err?
    ensures UpsertAll(db, redactor, requests, event, generated).error
         == UpsertAll(db, redactor, requests[..i], event, generated).error
    decreases |requests| - i
  {
    hide Upsert, PrepareMemory;
    if i == |requests| {
      assert requests[..i] == requests;
    } else {
      assert requests[..i + 1][..i] == requests[..i];
      UpsertAllFails(db, redactor, requests, i + 1, event, generated);
    }
  }

  lemma UpsertAllSnoc(
    db: Db, redactor: Redactor, requests: seq<MemoryRequest>, request: MemoryRequest, event: EventId,
    generated: nat -> MemoryId, before: Batch)
    requires UpsertAll(db, redactor, requests, event, generated) == Ok(before)
    ensures var last := Upsert(before.db, PrepareMemory(redactor, request), event, generated(|requests| + 1));
            UpsertAll(db, redactor, requests + [request], event, generated)
            == if !MemoryFits(request) then Err(InvalidInput)
               else if last.Err? then Err(last.error) else Ok(Batch(last.value.db, before.ids + [last.value.id]))
  {
    hide Upsert, PrepareMemory;
    assert (requests + [request])[..|requests|] == requests;
  }

  // One loop of the checkpoint: `requests[i]` is the i-th member overall.
  method UpsertMembers(
    ghost base: Db, start: Batch, redactor: Redactor, ghost all: seq<MemoryRequest>, requests: seq<MemoryRequest>,
    offset: nat, event: EventId, generated: nat -> MemoryId)
    returns (r: Result<Batch>)
    requires offset + |requests| <= |all| && all[offset..offset + |requests|] == requests
    requires UpsertAll(base, redactor, all[..offset], event, generated) == Ok(start)
    ensures r.Ok? ==> UpsertAll(base, redactor, all[..offset + |requests|], event, generated) == r
    ensures r.Err? ==> UpsertAll(base, redactor, all, event, generated) == r
  {
    hide Upsert, PrepareMemory, UpsertAll;
    var tx, ids := start.db, start.ids;
    for i := 0 to |requests|
      invariant UpsertAll(base, redactor, all[..offset + i], event, generated) == Ok(Batch(tx, ids))
    {
      assert all[offset + i] == all[offset..offset + |requests|][i] == requests[i];
      assert all[..offset + i + 1] == all[..offset + i] + [requests[i]];
      UpsertAllSnoc(base, redactor, all[..offset + i], requests[i], event, generated, Batch(tx, ids));
      if !MemoryFits(requests[i]) {
        UpsertAllFails(base, redactor, all, offset + i + 1, event, generated);
        return Err(InvalidInput);
      }
      var upserted := UpsertMemory(tx, PrepareMemory(redactor, requests[i]), event, generated(offset + i + 1));
      if upserted.Err? {
        UpsertAllFails(base, redactor, all, offset + i + 1, event, generated);
        return Err(upserted.error);
      }
      tx, ids := upserted.value.db, ids + [upserted.value.id];
    }
    return Ok(Batch(tx, ids));
  }
}
