// What a repeated request must have in common with the first one.
module Fingerprints {
  import opened Basics
  import opened Domain
  import opened Database
  import opened AttachmentContents
  import opened AttachmentTables
  import opened Ledger
  import opened Extension
  import opened Idempotence
  import opened Strings
  import StoredRequests

  // --- observe ----------------------------------------------------------

  // Same event in the same durable scope, as far as the redactor lets it through.
  predicate SameObservation(redactor: Redactor, a: ObserveRequest, b: ObserveRequest) {
    && a.eventId == b.eventId && a.kind == b.kind && SameEventScope(a.scope, b.scope)
    && redactor.text(a.content) == redactor.text(b.content)
    && redactor.attributes(a.attributes) == redactor.attributes(b.attributes)
  }

  lemma ObservationsTold(redactor: Redactor, a: ObserveRequest, b: ObserveRequest)
    ensures ObserveFingerprintOf(PrepareObserve(redactor, a)) == ObserveFingerprintOf(PrepareObserve(redactor, b))
       <==> SameObservation(redactor, a, b)
  {
    hide Scope.Stabilize, Scope.Durable;
    DurableScopeIsEventScope(a.scope, b.scope);
    var first := PrepareObserve(redactor, a).(scope := a.scope.Stabilize(), idempotencyKey := None);
    var again := PrepareObserve(redactor, b).(scope := b.scope.Stabilize(), idempotencyKey := None);
    assert first == ObserveRequest(None, a.eventId, a.kind, a.scope.Stabilize(), redactor.text(a.content),
                                   redactor.attributes(a.attributes));
    assert again == ObserveRequest(None, b.eventId, b.kind, b.scope.Stabilize(), redactor.text(b.content),
                                   redactor.attributes(b.attributes));
  }

  // After any run, an observation repeated under its key is answered with the
  // first receipt when it is the same observation, and is a conflict otherwise.
  lemma ObservedAgain(
    db: Db, redactor: Redactor, first: ObserveRequest, generated: EventId, ops: seq<Op>,
    again: ObserveRequest, generated2: EventId)
    requires Inv(db) && first.idempotencyKey.Some?
    requires ScopedKey(ObserveOperation, first.scope.Durable(), first.idempotencyKey.value) !in db.idempotency
    requires ObserveStep(db, redactor, first, generated).result.Ok?
    requires again.scope.Durable() == first.scope.Durable() && again.idempotencyKey == first.idempotencyKey
    ensures var reply := ObserveStep(db, redactor, first, generated);
            var later := Run(reply.db, redactor, ops);
            ObserveStep(later, redactor, again, generated2)
            == if SameObservation(redactor, again, first)
               then Reply(later, Ok(reply.result.value.(deduplicated := true))) else Reply(later, Err(Conflict))
  {
    hide Inv, Scope.Durable, Run, ObserveStep, SameObservation, ObserveFingerprintOf, PrepareObserve;
    ObserveRepeats(db, redactor, first, generated, ops, again, generated2);
    ObservationsTold(redactor, again, first);
  }

  // --- remember ---------------------------------------------------------

  predicate SameLinks(a: seq<LinkInput>, b: seq<LinkInput>) {
    && |a| == |b|
    && forall i | 0 <= i < |a| ::
         a[i].target == b[i].target && Trim(a[i].relation) == Trim(b[i].relation) && a[i].weight == b[i].weight
  }

  predicate SameEvidence(a: seq<Evidence>, b: seq<Evidence>) {
    && |a| == |b|
    && forall i | 0 <= i < |a| ::
         && a[i].event == b[i].event && Trim(a[i].relation) == Trim(b[i].relation)
         && a[i].spanStart == b[i].spanStart && a[i].spanEnd == b[i].spanEnd
  }

  predicate SameOption(redactor: Redactor, a: Option<string>, b: Option<string>) {
    (a.Some? <==> b.Some?) && (a.Some? && b.Some? ==> redactor.text(a.value) == redactor.text(b.value))
  }

  predicate SameArtifact(redactor: Redactor, a: ArtifactRef, b: ArtifactRef) {
    && redactor.text(a.repoId) == redactor.text(b.repoId) && redactor.text(a.path) == redactor.text(b.path)
    && SameOption(redactor, a.symbol, b.symbol) && SameOption(redactor, a.contentHash, b.contentHash)
    && SameOption(redactor, a.gitOid, b.gitOid) && SameOption(redactor, a.language, b.language)
  }

  predicate SameArtifacts(redactor: Redactor, a: seq<ArtifactRef>, b: seq<ArtifactRef>) {
    |a| == |b| && forall i | 0 <= i < |a| :: SameArtifact(redactor, a[i], b[i])
  }

  // The tag is the first of its spelling up to case.
  predicate LeadsTag(redactor: Redactor, tags: seq<string>, tag: string) {
    exists i | 0 <= i < |tags| :: tag == redactor.text(tags[i]) && FirstTag(redactor, tags, i)
  }

  // Order and repetition of tags are no difference.
  ghost predicate SameTags(redactor: Redactor, a: seq<string>, b: seq<string>) {
    forall tag :: LeadsTag(redactor, a, tag) <==> LeadsTag(redactor, b, tag)
  }

  predicate LeadsEntity(redactor: Redactor, entities: seq<EntityRef>, entity: EntityRef) {
    exists i | 0 <= i < |entities| ::
      && entity.kind == redactor.text(entities[i].kind) && entity.canonical == redactor.text(entities[i].canonical)
      && entity.display == redactor.text(entities[i].display) && FirstEntity(redactor, entities, i)
  }

  ghost predicate SameEntities(redactor: Redactor, a: seq<EntityRef>, b: seq<EntityRef>) {
    forall entity :: LeadsEntity(redactor, a, entity) <==> LeadsEntity(redactor, b, entity)
  }

  // The same memory, as far as the redactor lets it through.
  ghost predicate SameMemory(redactor: Redactor, a: MemoryRequest, b: MemoryRequest) {
    && a.memoryId == b.memoryId && a.kind == b.kind && a.ranking == b.ranking && SameEventScope(a.scope, b.scope)
    && SameOption(redactor, a.key, b.key)
    && redactor.text(a.title) == redactor.text(b.title) && redactor.text(a.body) == redactor.text(b.body)
    && redactor.attributes(a.attributes) == redactor.attributes(b.attributes)
    && SameTags(redactor, a.tags, b.tags) && SameEntities(redactor, a.entities, b.entities)
    && SameArtifacts(redactor, a.artifacts, b.artifacts)
    && SameEvidence(a.evidence, b.evidence) && SameLinks(a.links, b.links)
  }

  // Ordered lists with the same elements are the same list.
  lemma {:induction false} AscendingSame<T(!new)>(a: seq<T>, b: seq<T>, before: Order<T>)
    requires KeyOrder(before) && Ascending(a, before) && Ascending(b, before)
    requires forall x :: x in a <==> x in b
    ensures a == b
  {
    HeadIsIn(a);
    HeadIsIn(b);
    if a != [] && b != [] {
      var i :| 0 <= i < |b| && b[i] == a[0];
      var j :| 0 <= j < |a| && a[j] == b[0];
      HeadComesFirst(b, before, i);
      HeadComesFirst(a, before, j);
      assert a[0] == b[0];
      assert a == [a[0]] + a[1..] && b == [b[0]] + b[1..];
      HeadNotInTail(a, before);
      HeadNotInTail(b, before);
      forall x ensures x in a[1..] <==> x in b[1..] {
        assert x in a <==> x == a[0] || x in a[1..];
        assert x in b <==> x == b[0] || x in b[1..];
      }
      AscendingSame(a[1..], b[1..], before);
    }
  }

  lemma HeadComesFirst<T(!new)>(rows: seq<T>, before: Order<T>, i: nat)
    requires Ascending(rows, before) && i < |rows|
    ensures i == 0 || before(rows[0], rows[i])
  {
  }

  lemma HeadIsIn<T>(rows: seq<T>)
    ensures rows != [] ==> rows[0] in rows
  {
  }

  lemma HeadNotInTail<T(!new)>(rows: seq<T>, before: Order<T>)
    requires KeyOrder(before) && Ascending(rows, before) && rows != []
    ensures rows[0] !in rows[1..]
  {
    forall x | x in rows[1..] ensures x != rows[0] {
      var i :| 0 <= i < |rows| - 1 && rows[1..][i] == x;
      assert before(rows[0], rows[i + 1]);
    }
  }

  lemma TagsTell(redactor: Redactor, a: seq<string>, b: seq<string>)
    ensures StoreAll(RedactAll(redactor, a), TagBefore) == StoreAll(RedactAll(redactor, b), TagBefore)
       <==> SameTags(redactor, a, b)
  {
    hide StoreAll, TagBefore, Ascending, KeyOrder, FirstTag;
    var first, again := StoreAll(RedactAll(redactor, a), TagBefore), StoreAll(RedactAll(redactor, b), TagBefore);
    TagOrder();
    StoredRows(RedactAll(redactor, a), TagBefore);
    StoredRows(RedactAll(redactor, b), TagBefore);
    forall tag ensures tag in first <==> LeadsTag(redactor, a, tag) { FirstTagIsKept(redactor, a, tag); }
    forall tag ensures tag in again <==> LeadsTag(redactor, b, tag) { FirstTagIsKept(redactor, b, tag); }
    if SameTags(redactor, a, b) { AscendingSame(first, again, TagBefore); }
  }

  lemma LeadingEntity(redactor: Redactor, entities: seq<EntityRef>, entity: EntityRef)
    ensures Kept(RedactEntities(redactor, entities), entity, PreparedEntityBefore)
       <==> LeadsEntity(redactor, entities, entity)
  {
    hide FirstEntity, FirstOfKey, PreparedEntityBefore;
    forall i | 0 <= i < |entities|
      ensures FirstOfKey(RedactEntities(redactor, entities), i, PreparedEntityBefore)
           == FirstEntity(redactor, entities, i)
    {
      FirstEntityIsKept(redactor, entities, i);
    }
    assert forall i | 0 <= i < |entities| ::
        RedactEntities(redactor, entities)[i]
        == EntityRef(redactor.text(entities[i].kind), redactor.text(entities[i].canonical),
                     redactor.text(entities[i].display));
  }

  lemma EntitiesTell(redactor: Redactor, a: seq<EntityRef>, b: seq<EntityRef>)
    ensures StoreAll(RedactEntities(redactor, a), PreparedEntityBefore)
            == StoreAll(RedactEntities(redactor, b), PreparedEntityBefore)
       <==> SameEntities(redactor, a, b)
  {
    hide StoreAll, PreparedEntityBefore, Ascending, KeyOrder, LeadsEntity, RedactEntities;
    var first := StoreAll(RedactEntities(redactor, a), PreparedEntityBefore);
    var again := StoreAll(RedactEntities(redactor, b), PreparedEntityBefore);
    PreparedEntityOrder();
    StoredRows(RedactEntities(redactor, a), PreparedEntityBefore);
    StoredRows(RedactEntities(redactor, b), PreparedEntityBefore);
    forall entity ensures entity in first <==> LeadsEntity(redactor, a, entity) {
      LeadingEntity(redactor, a, entity);
    }
    forall entity ensures entity in again <==> LeadsEntity(redactor, b, entity) {
      LeadingEntity(redactor, b, entity);
    }
    if SameEntities(redactor, a, b) { AscendingSame(first, again, PreparedEntityBefore); }
  }

  function TrimLinks(links: seq<LinkInput>): seq<LinkInput> {
    seq(|links|, i requires 0 <= i < |links| => links[i].(relation := Trim(links[i].relation)))
  }

  lemma ListsTell(redactor: Redactor, a: MemoryRequest, b: MemoryRequest)
    ensures TrimLinks(a.links) == TrimLinks(b.links) <==> SameLinks(a.links, b.links)
    ensures TrimEvidence(a.evidence) == TrimEvidence(b.evidence) <==> SameEvidence(a.evidence, b.evidence)
  {
    hide Trim;
    EvidenceTells(a.evidence, b.evidence);
    var first, again := TrimLinks(a.links), TrimLinks(b.links);
    assert |first| == |a.links| && |again| == |b.links|;
    assert forall i | 0 <= i < |first| ::
        first[i] == LinkInput(a.links[i].target, Trim(a.links[i].relation), a.links[i].weight);
    assert forall i | 0 <= i < |again| ::
        again[i] == LinkInput(b.links[i].target, Trim(b.links[i].relation), b.links[i].weight);
    if SameLinks(a.links, b.links) { assert forall i | 0 <= i < |first| :: first[i] == again[i]; }
    if first == again { assert forall i | 0 <= i < |a.links| :: first[i] == again[i]; }
  }

  lemma EvidenceTells(a: seq<Evidence>, b: seq<Evidence>)
    ensures TrimEvidence(a) == TrimEvidence(b) <==> SameEvidence(a, b)
  {
    hide Trim;
    var first, again := TrimEvidence(a), TrimEvidence(b);
    assert |first| == |a| && |again| == |b|;
    assert forall i | 0 <= i < |first| ::
        first[i] == Evidence(a[i].event, Trim(a[i].relation), a[i].spanStart, a[i].spanEnd);
    assert forall i | 0 <= i < |again| ::
        again[i] == Evidence(b[i].event, Trim(b[i].relation), b[i].spanStart, b[i].spanEnd);
    if SameEvidence(a, b) { assert forall i | 0 <= i < |first| :: first[i] == again[i]; }
    if first == again { assert forall i | 0 <= i < |a| :: first[i] == again[i]; }
  }

  lemma ArtifactsTell(redactor: Redactor, a: seq<ArtifactRef>, b: seq<ArtifactRef>)
    ensures RedactArtifacts(redactor, a) == RedactArtifacts(redactor, b) <==> SameArtifacts(redactor, a, b)
  {
    hide RedactArtifact, SameArtifact;
    var first, again := RedactArtifacts(redactor, a), RedactArtifacts(redactor, b);
    assert |first| == |a| && |again| == |b|;
    forall i | 0 <= i < |a| && i < |b| ensures first[i] == again[i] <==> SameArtifact(redactor, a[i], b[i]) {
      ArtifactTells(redactor, a[i], b[i]);
    }
    if SameArtifacts(redactor, a, b) { assert forall i | 0 <= i < |first| :: first[i] == again[i]; }
    if first == again { assert forall i | 0 <= i < |a| :: first[i] == again[i]; }
  }

  lemma ArtifactTells(redactor: Redactor, a: ArtifactRef, b: ArtifactRef)
    ensures RedactArtifact(redactor, a) == RedactArtifact(redactor, b) <==> SameArtifact(redactor, a, b)
  {
  }

  lemma PreparedParts(redactor: Redactor, a: MemoryRequest)
    ensures PrepareMemory(redactor, a) == MemoryRequest(
              a.memoryId, a.scope, a.kind, StoredRequests.RedactedKey(redactor, a.key), redactor.text(a.title),
              redactor.text(a.body), a.ranking, redactor.attributes(a.attributes),
              StoreAll(RedactAll(redactor, a.tags), TagBefore),
              StoreAll(RedactEntities(redactor, a.entities), PreparedEntityBefore),
              RedactArtifacts(redactor, a.artifacts), TrimEvidence(a.evidence), TrimLinks(a.links))
  {
    hide StoreAll, TagBefore, PreparedEntityBefore, RedactArtifact, Trim;
    assert PrepareMemory(redactor, a).artifacts == RedactArtifacts(redactor, a.artifacts);
    assert PrepareMemory(redactor, a).evidence == TrimEvidence(a.evidence);
    assert PrepareMemory(redactor, a).links == TrimLinks(a.links);
  }

  lemma MemoriesTold(redactor: Redactor, a: MemoryRequest, b: MemoryRequest)
    ensures RememberFingerprintOf(PrepareMemory(redactor, a)) == RememberFingerprintOf(PrepareMemory(redactor, b))
       <==> SameMemory(redactor, a, b)
  {
    hide Scope.Stabilize, Scope.Durable, PrepareMemory, StoreAll, TagBefore, PreparedEntityBefore, RedactAll,
      RedactEntities, RedactArtifacts, TrimEvidence, TrimLinks, SameTags, SameEntities, SameArtifacts, SameEvidence,
      SameLinks, SameEventScope;
    DurableScopeIsEventScope(a.scope, b.scope);
    PreparedParts(redactor, a);
    PreparedParts(redactor, b);
    TagsTell(redactor, a.tags, b.tags);
    EntitiesTell(redactor, a.entities, b.entities);
    ArtifactsTell(redactor, a.artifacts, b.artifacts);
    ListsTell(redactor, a, b);
    var first := PrepareMemory(redactor, a).(scope := a.scope.Stabilize());
    var again := PrepareMemory(redactor, b).(scope := b.scope.Stabilize());
    assert RememberFingerprintOf(PrepareMemory(redactor, a)) == RememberFingerprint(first);
    assert RememberFingerprintOf(PrepareMemory(redactor, b)) == RememberFingerprint(again);
  }

  // After any run, a memory repeated under its key is answered with the first
  // receipt when it is the same memory, and is a conflict otherwise.
  lemma RememberedAgain(
    db: Db, redactor: Redactor, first: RememberRequest, event: EventId, generated: MemoryId, ops: seq<Op>,
    again: RememberRequest, event2: EventId, generated2: MemoryId)
    requires Inv(db) && first.idempotencyKey.Some?
    requires ScopedKey(RememberOperation, first.memory.scope.Durable(), first.idempotencyKey.value) !in db.idempotency
    requires RememberStep(db, redactor, first, event, generated).result.Ok?
    requires again.memory.scope.Durable() == first.memory.scope.Durable()
    requires again.idempotencyKey == first.idempotencyKey
    ensures var reply := RememberStep(db, redactor, first, event, generated);
            var later := Run(reply.db, redactor, ops);
            RememberStep(later, redactor, again, event2, generated2)
            == if !MemoryFits(again.memory) then Reply(later, Err(InvalidInput))
               else if SameMemory(redactor, again.memory, first.memory)
               then Reply(later, Ok(reply.result.value.(deduplicated := true))) else Reply(later, Err(Conflict))
  {
    hide Inv, Scope.Durable, Run, RememberStep, SameMemory, RememberFingerprintOf, PrepareMemory, MemoryFits;
    RememberRepeats(db, redactor, first, event, generated, ops, again, event2, generated2);
    MemoriesTold(redactor, again.memory, first.memory);
  }

  // --- checkpoint -------------------------------------------------------

  predicate SameTexts(redactor: Redactor, a: seq<string>, b: seq<string>) {
    |a| == |b| && forall i | 0 <= i < |a| :: redactor.text(a[i]) == redactor.text(b[i])
  }

  predicate SameDecision(redactor: Redactor, a: CheckpointDecision, b: CheckpointDecision) {
    && redactor.text(a.summary) == redactor.text(b.summary) && SameOption(redactor, a.rationale, b.rationale)
    && SameOption(redactor, a.key, b.key)
  }

  predicate SameDecisions(redactor: Redactor, a: seq<CheckpointDecision>, b: seq<CheckpointDecision>) {
    |a| == |b| && forall i | 0 <= i < |a| :: SameDecision(redactor, a[i], b[i])
  }

  predicate SameAttempt(redactor: Redactor, a: CheckpointAttempt, b: CheckpointAttempt) {
    && redactor.text(a.action) == redactor.text(b.action) && redactor.text(a.result) == redactor.text(b.result)
    && a.succeeded == b.succeeded && SameOption(redactor, a.fingerprint, b.fingerprint)
    && SameOption(redactor, a.key, b.key) && SameOption(redactor, a.promotionReason, b.promotionReason)
  }

  predicate SameAttempts(redactor: Redactor, a: seq<CheckpointAttempt>, b: seq<CheckpointAttempt>) {
    |a| == |b| && forall i | 0 <= i < |a| :: SameAttempt(redactor, a[i], b[i])
  }

  // The same checkpoint, as far as the redactor lets it through.
  predicate SameCheckpoint(redactor: Redactor, a: CheckpointRequest, b: CheckpointRequest) {
    && SameEventScope(a.scope, b.scope) && a.outcome == b.outcome && a.trust == b.trust
    && redactor.text(a.goal) == redactor.text(b.goal) && redactor.text(a.summary) == redactor.text(b.summary)
    && SameTexts(redactor, a.verification, b.verification) && SameTexts(redactor, a.openTasks, b.openTasks)
    && SameTexts(redactor, a.tags, b.tags) && SameDecisions(redactor, a.decisions, b.decisions)
    && SameAttempts(redactor, a.attempts, b.attempts) && SameArtifacts(redactor, a.artifacts, b.artifacts)
    && SameEvidence(a.evidence, b.evidence)
  }

  lemma TextsTell(redactor: Redactor, a: seq<string>, b: seq<string>)
    ensures RedactAll(redactor, a) == RedactAll(redactor, b) <==> SameTexts(redactor, a, b)
  {
    var first, again := RedactAll(redactor, a), RedactAll(redactor, b);
    assert forall i | 0 <= i < |first| :: first[i] == redactor.text(a[i]);
    assert forall i | 0 <= i < |again| :: again[i] == redactor.text(b[i]);
    if SameTexts(redactor, a, b) { assert forall i | 0 <= i < |first| :: first[i] == again[i]; }
    if first == again { assert forall i | 0 <= i < |a| :: first[i] == again[i]; }
  }

  function RedactDecision(redactor: Redactor, decision: CheckpointDecision): CheckpointDecision {
    CheckpointDecision(redactor.text(decision.summary), RedactOption(redactor, decision.rationale),
                       RedactOption(redactor, decision.key))
  }

  lemma DecisionsTell(redactor: Redactor, a: CheckpointRequest, b: CheckpointRequest)
    ensures RedactCheckpoint(redactor, a).decisions == RedactCheckpoint(redactor, b).decisions
       <==> SameDecisions(redactor, a.decisions, b.decisions)
  {
    var first, again := RedactCheckpoint(redactor, a).decisions, RedactCheckpoint(redactor, b).decisions;
    assert |first| == |a.decisions| && |again| == |b.decisions|;
    assert forall i | 0 <= i < |first| :: first[i] == RedactDecision(redactor, a.decisions[i]);
    assert forall i | 0 <= i < |again| :: again[i] == RedactDecision(redactor, b.decisions[i]);
    forall i | 0 <= i < |first| && i < |again|
      ensures first[i] == again[i] <==> SameDecision(redactor, a.decisions[i], b.decisions[i]) {}
    if SameDecisions(redactor, a.decisions, b.decisions) {
      assert forall i | 0 <= i < |first| :: first[i] == again[i];
    }
    if first == again { assert forall i | 0 <= i < |a.decisions| :: first[i] == again[i]; }
  }

  function RedactAttempt(redactor: Redactor, attempt: CheckpointAttempt): CheckpointAttempt {
    CheckpointAttempt(redactor.text(attempt.action), redactor.text(attempt.result), attempt.succeeded,
                      RedactOption(redactor, attempt.fingerprint), RedactOption(redactor, attempt.key),
                      RedactOption(redactor, attempt.promotionReason))
  }

  lemma AttemptsTell(redactor: Redactor, a: CheckpointRequest, b: CheckpointRequest)
    ensures RedactCheckpoint(redactor, a).attempts == RedactCheckpoint(redactor, b).attempts
       <==> SameAttempts(redactor, a.attempts, b.attempts)
  {
    var first, again := RedactCheckpoint(redactor, a).attempts, RedactCheckpoint(redactor, b).attempts;
    assert |first| == |a.attempts| && |again| == |b.attempts|;
    assert forall i | 0 <= i < |first| :: first[i] == RedactAttempt(redactor, a.attempts[i]);
    assert forall i | 0 <= i < |again| :: again[i] == RedactAttempt(redactor, b.attempts[i]);
    forall i | 0 <= i < |first| && i < |again|
      ensures first[i] == again[i] <==> SameAttempt(redactor, a.attempts[i], b.attempts[i]) {}
    if SameAttempts(redactor, a.attempts, b.attempts) {
      assert forall i | 0 <= i < |first| :: first[i] == again[i];
    }
    if first == again { assert forall i | 0 <= i < |a.attempts| :: first[i] == again[i]; }
  }

  lemma SafeParts(redactor: Redactor, a: CheckpointRequest)
    ensures var safe := RedactCheckpoint(redactor, a);
            && safe == CheckpointRequest(
                 a.idempotencyKey, a.scope, redactor.text(a.goal), redactor.text(a.summary), a.outcome,
                 RedactAll(redactor, a.verification), safe.decisions, safe.attempts, RedactAll(redactor, a.openTasks),
                 RedactArtifacts(redactor, a.artifacts), TrimEvidence(a.evidence), a.trust,
                 RedactAll(redactor, a.tags))
  {
    hide RedactArtifact, Trim, RedactOption;
    assert RedactCheckpoint(redactor, a).artifacts == RedactArtifacts(redactor, a.artifacts);
    assert RedactCheckpoint(redactor, a).evidence == TrimEvidence(a.evidence);
  }

  lemma CheckpointsTold(redactor: Redactor, a: CheckpointRequest, b: CheckpointRequest)
    ensures CheckpointFingerprintOf(RedactCheckpoint(redactor, a))
            == CheckpointFingerprintOf(RedactCheckpoint(redactor, b))
       <==> SameCheckpoint(redactor, a, b)
  {
    hide Scope.Stabilize, Scope.Durable, RedactCheckpoint, RedactAll, RedactArtifacts, TrimEvidence, SameTexts,
      SameDecisions, SameAttempts, SameArtifacts, SameEvidence, SameEventScope;
    DurableScopeIsEventScope(a.scope, b.scope);
    SafeParts(redactor, a);
    SafeParts(redactor, b);
    TextsTell(redactor, a.verification, b.verification);
    TextsTell(redactor, a.openTasks, b.openTasks);
    TextsTell(redactor, a.tags, b.tags);
    DecisionsTell(redactor, a, b);
    AttemptsTell(redactor, a, b);
    ArtifactsTell(redactor, a.artifacts, b.artifacts);
    EvidenceTells(a.evidence, b.evidence);
    var first := RedactCheckpoint(redactor, a).(scope := a.scope.Stabilize(), idempotencyKey := None);
    var again := RedactCheckpoint(redactor, b).(scope := b.scope.Stabilize(), idempotencyKey := None);
    assert CheckpointFingerprintOf(RedactCheckpoint(redactor, a)) == CheckpointFingerprint(first);
    assert CheckpointFingerprintOf(RedactCheckpoint(redactor, b)) == CheckpointFingerprint(again);
  }

  lemma CommittedUnder(
    db: Db, redactor: Redactor, request: CheckpointRequest, event: EventId, draws: nat -> MemoryId)
    requires request.idempotencyKey.Some?
    requires ScopedKey(CheckpointOperation, request.scope.Durable(), request.idempotencyKey.value) !in db.idempotency
    requires CheckpointStep(db, redactor, request, event, draws).result.Ok?
    ensures var reply := CheckpointStep(db, redactor, request, event, draws);
            var key := ScopedKey(CheckpointOperation, request.scope.Durable(), request.idempotencyKey.value);
            && key in reply.db.idempotency
            && reply.db.idempotency[key]
               == IdempotencyRow(CheckpointFingerprintOf(RedactCheckpoint(redactor, request)), reply.result.value)
  {
    hide CheckpointWrites, RedactCheckpoint, CheckpointFingerprintOf, Scope.Durable, CheckpointFits;
  }

  lemma AnsweredCheckpoint(
    db: Db, redactor: Redactor, request: CheckpointRequest, event: EventId, draws: nat -> MemoryId)
    ensures var known := GetIdempotent(
              db, ScopedIdempotencyKey(CheckpointOperation, request.scope, request.idempotencyKey),
              CheckpointFingerprintOf(RedactCheckpoint(redactor, request)));
            CheckpointFits(request) ==>
              && (known.Err? ==> CheckpointStep(db, redactor, request, event, draws) == Refuse(db, known.error))
              && (known.Ok? && known.value.Some? ==>
                    CheckpointStep(db, redactor, request, event, draws) == Replay(db, known.value.value))
    ensures !CheckpointFits(request) ==>
              CheckpointStep(db, redactor, request, event, draws) == Refuse(db, InvalidInput)
  {
    hide CheckpointWrites, RedactCheckpoint, CheckpointFingerprintOf, Scope.Durable, GetIdempotent, CheckpointFits,
      ScopedIdempotencyKey;
  }

  // After any run, a checkpoint repeated under its key is answered with the first
  // receipt when it is the same checkpoint, and is a conflict otherwise.
  lemma CheckpointedAgain(
    db: Db, redactor: Redactor, first: CheckpointRequest, event: EventId, draws: nat -> MemoryId, reply: Reply,
    ops: seq<Op>, again: CheckpointRequest, event2: EventId, draws2: nat -> MemoryId)
    requires Inv(db) && first.idempotencyKey.Some? && again.idempotencyKey == first.idempotencyKey
    requires ScopedKey(CheckpointOperation, first.scope.Durable(), first.idempotencyKey.value) !in db.idempotency
    requires reply == CheckpointStep(db, redactor, first, event, draws) && reply.result.Ok?
    requires again.scope.Durable() == first.scope.Durable()
    ensures var later := Run(reply.db, redactor, ops);
            CheckpointStep(later, redactor, again, event2, draws2)
            == if !CheckpointFits(again) then Reply(later, Err(InvalidInput))
               else if SameCheckpoint(redactor, again, first)
               then Reply(later, Ok(reply.result.value.(deduplicated := true))) else Reply(later, Err(Conflict))
  {
    hide Inv, Extends, Scope.Durable, Run, CheckpointStep, SameCheckpoint, CheckpointFingerprintOf, RedactCheckpoint,
      CheckpointFits, GetIdempotent;
    CommittedUnder(db, redactor, first, event, draws);
    CheckpointKeepsInv(db, redactor, first, event, draws);
    RunOnward(reply.db, redactor, ops);
    var later := Run(reply.db, redactor, ops);
    var key := ScopedKey(CheckpointOperation, first.scope.Durable(), first.idempotencyKey.value);
    var fingerprint := CheckpointFingerprintOf(RedactCheckpoint(redactor, again));
    ReceiptStays(reply.db, later, key, reply.db.idempotency[key], fingerprint);
    AnsweredCheckpoint(later, redactor, again, event2, draws2);
    CheckpointsTold(redactor, again, first);
  }
}
