// When a checkpoint is accepted.
module CheckpointAcceptance {
  import opened Basics
  import opened Domain
  import opened Strings
  import opened Database
  import opened Ledger
  import Extension
  import Text

  // Enough identifiers were drawn: none is in use and none was drawn twice.
  ghost predicate Drawable(db: Db, draws: nat -> MemoryId, n: nat) {
    && (forall i | 0 <= i < n :: draws(i) !in db.heads)
    && (forall i, j | 0 <= i < j < n :: draws(i) != draws(j))
  }

  lemma {:induction false} TrimmedEnd(text: string)
    ensures var t := TrimEnd(text); t == "" || !IsBlank(t[|t| - 1])
    ensures TrimEnd(text) <= text
  {
    if text != "" && IsBlank(text[|text| - 1]) { TrimmedEnd(text[..|text| - 1]); }
  }

  lemma {:induction false} TrimStartKeepsEnd(text: string)
    requires text == "" || !IsBlank(text[|text| - 1])
    ensures var t := TrimStart(text); t == "" || (!IsBlank(t[0]) && !IsBlank(t[|t| - 1]))
  {
    if text != "" && IsBlank(text[0]) { TrimStartKeepsEnd(text[1..]); }
  }

  lemma TrimTwice(text: string)
    ensures Trim(Trim(text)) == Trim(text)
  {
    TrimmedEnd(text);
    TrimStartKeepsEnd(TrimEnd(text));
  }

  ghost predicate Trimmed(evidence: seq<Evidence>) {
    forall i | 0 <= i < |evidence| :: Trim(evidence[i].relation) == evidence[i].relation
  }

  lemma RedactedIsTrimmed(redactor: Redactor, request: CheckpointRequest)
    ensures Trimmed(RedactCheckpoint(redactor, request).evidence)
  {
    hide Trim;
    forall i | 0 <= i < |request.evidence|
      ensures Trim(Trim(request.evidence[i].relation)) == Trim(request.evidence[i].relation)
    {
      TrimTwice(request.evidence[i].relation);
    }
  }

  // Valid evidence stays valid while the log grows.
  lemma {:induction false} EvidenceStaysValid(db: Db, after: Db, evidence: seq<Evidence>, scope: Scope)
    requires db.events <= after.events && EventsDistinct(after)
    requires ValidateEvidence(db, evidence, scope).Ok?
    ensures ValidateEvidence(after, evidence, scope).Ok?
  {
    hide SeqOf, Scope.Durable, ValidRelation, ValidSpan;
    if evidence != [] {
      Extension.SeqOfPersists(db.events, after.events, evidence[0].event);
      EvidenceStaysValid(db, after, evidence[1..], scope);
    }
  }

  // A request written by a checkpoint: it names no memory, and its links, if
  // any, are one link to the episode.
  ghost predicate MemberOf(request: MemoryRequest, safe: CheckpointRequest, episode: MemoryId) {
    && request.memoryId.None? && request.scope == safe.scope && request.evidence == safe.evidence
    && request.kind != Episode && |request.links| == 1
    && request.links[0].target == episode
    && (request.links[0].relation == "belongs_to" || request.links[0].relation == "attempted_for")
  }

  lemma MembersLinkToEpisode(redactor: Redactor, safe: CheckpointRequest, episode: MemoryId)
    requires Trimmed(safe.evidence)
    ensures forall i | 0 <= i < |MemberRequests(safe, episode)| ::
              MemberOf(PrepareMemory(redactor, MemberRequests(safe, episode)[i]), safe, episode)
  {
    assert Trim("belongs_to") == "belongs_to" && Trim("attempted_for") == "attempted_for";
    forall i | 0 <= i < |MemberRequests(safe, episode)|
      ensures MemberOf(PrepareMemory(redactor, MemberRequests(safe, episode)[i]), safe, episode)
    {
      var member := MemberRequests(safe, episode)[i];
      assert member.scope == safe.scope && member.evidence == safe.evidence && member.kind != Episode;
      assert |member.links| == 1 && member.links[0].target == episode;
      assert PrepareMemory(redactor, member).evidence == safe.evidence;
    }
  }

  lemma StructuralRelationsValid()
    ensures ValidRelation("belongs_to") && ValidRelation("attempted_for")
  {
    assert Trim("belongs_to") == "belongs_to" && Trim("attempted_for") == "attempted_for";
    Text.AsciiBytes("belongs_to");
    Text.AsciiBytes("attempted_for");
  }

  // What members need of the tables they are written to.
  ghost predicate Ready(db: Db, safe: CheckpointRequest, episode: MemoryId) {
    && ValidateEvidence(db, safe.evidence, safe.scope).Ok?
    && episode in db.heads && db.heads[episode].kind == Episode && db.heads[episode].durable == safe.scope.Durable()
  }

  lemma MemberIsAccepted(
    db: Db, safe: CheckpointRequest, episode: MemoryId, request: MemoryRequest, event: EventId, generated: MemoryId)
    requires Ready(db, safe, episode) && MemberOf(request, safe, episode) && generated !in db.heads
    ensures Upsert(db, request, event, generated).Ok?
    ensures var after := Upsert(db, request, event, generated).value.db;
            Ready(after, safe, episode) && after.events == db.events && after.heads.Keys <= db.heads.Keys + {generated}
  {
    hide Scope.Durable, ValidateEvidence, Candidates, Written, ValidRelation;
    StructuralRelationsValid();
    assert request.links[1..] == [];
    assert ValidateLinks(db, request.links[1..], request.scope) == Ok(());
    assert ValidateLinks(db, request.links, request.scope) == Ok(());
    var id := if Existing(db, request).value.Some? then Existing(db, request).value.value else generated;
    assert CheckLinks(request.links, id, 0) == Ok(()) && CheckLinks(request.links, id, 1) == Ok(());
    assert Upsert(db, request, event, generated) == Ok(Upserted(Written(db, id, request, event), id));
    WrittenRows(db, id, request, event);
    KindsSettled(db, id, request, event);
    WrittenHeads(db, id, request, event);
    SameEventsSameEvidence(db, Upsert(db, request, event, generated).value.db, safe.evidence, safe.scope);
  }

  lemma {:induction false} SameEventsSameEvidence(db: Db, after: Db, evidence: seq<Evidence>, scope: Scope)
    requires after.events == db.events
    ensures ValidateEvidence(after, evidence, scope) == ValidateEvidence(db, evidence, scope)
  {
    hide SeqOf, Scope.Durable, ValidRelation, ValidSpan;
    if evidence != [] { SameEventsSameEvidence(db, after, evidence[1..], scope); }
  }

  lemma {:induction false} MembersAreAccepted(
    db: Db, redactor: Redactor, safe: CheckpointRequest, episode: MemoryId, requests: seq<MemoryRequest>,
    event: EventId, draws: nat -> MemoryId)
    requires Ready(db, safe, episode)
    requires forall i | 0 <= i < |requests| ::
               MemoryFits(requests[i]) && MemberOf(PrepareMemory(redactor, requests[i]), safe, episode)
    requires forall i | 1 <= i <= |requests| :: draws(i) !in db.heads
    requires forall i, j | 1 <= i < j <= |requests| :: draws(i) != draws(j)
    ensures UpsertAll(db, redactor, requests, event, draws).Ok?
    ensures var after := UpsertAll(db, redactor, requests, event, draws).value.db;
            && Ready(after, safe, episode)
            && forall id | id in after.heads :: id in db.heads || exists i :: 1 <= i <= |requests| && draws(i) == id
  {
    hide Ready, MemberOf, PrepareMemory, Upsert;
    if requests != [] {
      var n := |requests| - 1;
      MembersAreAccepted(db, redactor, safe, episode, requests[..n], event, draws);
      var before := UpsertAll(db, redactor, requests[..n], event, draws).value.db;
      assert draws(n + 1) !in before.heads;
      MemberIsAccepted(before, safe, episode, PrepareMemory(redactor, requests[n]), event, draws(n + 1));
    }
  }

  lemma EpisodeIsReady(db: Db, redactor: Redactor, safe: CheckpointRequest, event: EventId, generated: MemoryId)
    requires ValidateEvidence(db, safe.evidence, safe.scope).Ok? && Trimmed(safe.evidence) && generated !in db.heads
    ensures var episode := Upsert(db, PrepareMemory(redactor, EpisodeRequest(safe)), event, generated);
            && episode.Ok? && episode.value.id == generated && Ready(episode.value.db, safe, generated)
            && episode.value.db.heads.Keys == db.heads.Keys + {generated}
  {
    hide ValidateEvidence, Written, Scope.Durable;
    var prepared := PrepareMemory(redactor, EpisodeRequest(safe));
    EpisodeFields(redactor, safe);
    WrittenHeads(db, generated, prepared, event);
    WrittenRows(db, generated, prepared, event);
    SameEventsSameEvidence(db, Written(db, generated, prepared, event), safe.evidence, safe.scope);
  }

  lemma EpisodeFields(redactor: Redactor, safe: CheckpointRequest)
    requires Trimmed(safe.evidence)
    ensures var prepared := PrepareMemory(redactor, EpisodeRequest(safe));
            && prepared.memoryId == None && prepared.key == None && prepared.links == [] && prepared.kind == Episode
            && prepared.scope == safe.scope && prepared.evidence == safe.evidence
  {
    assert PrepareMemory(redactor, EpisodeRequest(safe)).evidence == safe.evidence;
  }

  // Decisions, attempts and tasks carry no tags and share the episode's artifacts
  // and evidence, so only the episode can be over the limits.
  lemma OnlyEpisodeLimits(safe: CheckpointRequest, episode: MemoryId)
    ensures MemoryFits(EpisodeRequest(safe)) ==>
              forall i | 0 <= i < |MemberRequests(safe, episode)| :: MemoryFits(MemberRequests(safe, episode)[i])
    ensures MemoryFits(EpisodeRequest(safe)) <==>
              && |safe.tags| <= MAX_MEMORY_TAGS && |safe.artifacts| <= MAX_COLLECTION_ITEMS
              && |safe.evidence| <= MAX_EVIDENCE_ITEMS
  {
  }

  // With fresh identifiers a checkpoint is written exactly when its event is new,
  // its evidence is valid and its episode is within the limits; no other member
  // is ever refused.
  lemma WritesAreAccepted(
    db: Db, redactor: Redactor, request: CheckpointRequest, event: EventId, draws: nat -> MemoryId)
    requires Inv(db)
    requires Drawable(db, draws, 1 + |request.decisions| + |request.attempts| + |request.openTasks|)
    ensures var safe := RedactCheckpoint(redactor, request);
            CheckpointWrites(db, redactor, safe, event, draws).Ok?
            <==> !HasEvent(db, event) && ValidateEvidence(db, safe.evidence, safe.scope).Ok?
                 && MemoryFits(EpisodeRequest(safe))
  {
    hide Inv, HasEvent, ValidateEvidence, PrepareMemory, EpisodeRequest, MemberRequests, CheckpointAttributes, Ready,
      MemberOf, MemoryFits, Upsert, UpsertAll;
    var safe := RedactCheckpoint(redactor, request);
    if !HasEvent(db, event) && ValidateEvidence(db, safe.evidence, safe.scope).Ok? && MemoryFits(EpisodeRequest(safe)) {
      var entry := Event(event, Checkpoint, safe.scope, safe.summary, CheckpointAttributes(redactor, safe));
      var logged := Logged(db, entry);
      InsertEventKeepsInv(db, entry);
      DistinctLog(logged);
      EvidenceStaysValid(db, logged, safe.evidence, safe.scope);
      RedactedIsTrimmed(redactor, request);
      EpisodeIsReady(logged, redactor, safe, event, draws(0));
      var episode := Upsert(logged, PrepareMemory(redactor, EpisodeRequest(safe)), event, draws(0)).value;
      MembersLinkToEpisode(redactor, safe, episode.id);
      MemberCount(safe, episode.id);
      OnlyEpisodeLimits(safe, episode.id);
      MembersAreAccepted(episode.db, redactor, safe, episode.id, MemberRequests(safe, episode.id), event, draws);
    }
  }

  // Under an unused key a checkpoint is accepted exactly when it is within its own
  // limits and, with fewer tags than those allow, within those of its episode,
  // its event is new, and its evidence is valid.
  lemma CheckpointIsAccepted(
    db: Db, redactor: Redactor, request: CheckpointRequest, event: EventId, draws: nat -> MemoryId)
    requires Inv(db)
    requires Drawable(db, draws, 1 + |request.decisions| + |request.attempts| + |request.openTasks|)
    requires request.idempotencyKey.Some? ==>
               ScopedKey(CheckpointOperation, request.scope.Durable(), request.idempotencyKey.value) !in db.idempotency
    ensures CheckpointStep(db, redactor, request, event, draws).result.Ok?
       <==> && CheckpointFits(request) && |request.tags| <= MAX_MEMORY_TAGS
            && !HasEvent(db, event)
            && ValidateEvidence(db, RedactCheckpoint(redactor, request).evidence, request.scope).Ok?
  {
    hide Inv, HasEvent, ValidateEvidence, CheckpointWrites, EpisodeRequest, CheckpointFingerprintOf, Scope.Durable;
    WritesAreAccepted(db, redactor, request, event, draws);
    OnlyEpisodeLimits(RedactCheckpoint(redactor, request), 0);
  }

  lemma DistinctLog(db: Db)
    requires Inv(db)
    ensures EventsDistinct(db)
  {
  }

  lemma MemberCount(safe: CheckpointRequest, episode: MemoryId)
    ensures |MemberRequests(safe, episode)| == |safe.decisions| + |safe.attempts| + |safe.openTasks|
  {
  }
}
