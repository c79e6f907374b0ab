// The tables of the store and what every write transaction does to them.
module Database {
  import opened Basics
  import opened Domain
  import opened Strings
  import opened AttachmentTables
  import Text

  const CODE_ALIAS_VERSION: nat := 1

  // Row `i` of the append-only log has sequence number `i + 1`.
  datatype Event = Event(id: EventId, kind: EventKind, scope: Scope, content: string, attributes: Attributes)

  // The mutable head of a logical memory.
  datatype Head = Head(
    durable: DurableScope, kind: MemoryKind, state: MemoryState, key: Option<string>, headRevision: nat,
    ranking: Ranking, createdSeq: nat, updatedSeq: nat)

  datatype RevisionId = RevisionId(memory: MemoryId, revision: nat)

  datatype Revision = Revision(title: string, body: string, attributes: Attributes, scope: Scope, recordedSeq: nat)

  // The content digest is represented by what it is taken over.
  datatype ContentHash = ContentHash(title: string, body: string)

  function HashOf(revision: Revision): ContentHash { ContentHash(revision.title, revision.body) }

  datatype Metadata = Metadata(kind: MemoryKind, state: MemoryState, key: Option<string>, ranking: Ranking,
      complete: bool)

  datatype LinkRow = LinkRow(
    source: MemoryId, sourceRevision: nat, target: MemoryId, relation: string, weight: nat, event: EventId)

  // The latest link per pair and relation, next to the ledger of all of them.
  datatype LinkKey = LinkKey(source: MemoryId, target: MemoryId, relation: string)

  datatype LatestLink = LatestLink(weight: nat, event: EventId)

  datatype Association = Association(event: EventId, memory: MemoryId)

  datatype Receipt = Receipt(eventId: EventId, memoryIds: seq<MemoryId>, databaseSeq: nat, deduplicated: bool)

  datatype Operation = ObserveOperation | RememberOperation | CheckpointOperation

  // Scoped keys are digests over the scope, its workspace and the caller's key.
  datatype IdempotencyKey =
    | ScopedKey(operation: Operation, durable: DurableScope, key: string)
    | RetractKey(namespace: string, memory: MemoryId, key: string)

  datatype Fingerprint =
    | ObserveFingerprint(observe: ObserveRequest)
    | RememberFingerprint(remember: MemoryRequest)
    | CheckpointFingerprint(checkpoint: CheckpointRequest)
    | RetractFingerprint(memory: MemoryId, reason: string)

  datatype IdempotencyRow = IdempotencyRow(fingerprint: Fingerprint, receipt: Receipt)

  datatype AliasRow = AliasRow(revision: nat, version: nat)

  datatype Profile = Profile(modelDigest: string, dimensions: Option<nat>)

  datatype ProjectionKey = ProjectionKey(profile: string, memory: MemoryId)

  // Vector, signature and norm travel together; the norm is held as its bits.
  datatype Dense = Dense(vector: seq<nat>, signature: seq<nat>, normBits: nat)

  datatype Projection = Projection(revision: nat, contentHash: ContentHash, expansion: string, dense: Option<Dense>)

  datatype Db = Db(
    events: seq<Event>,
    heads: map<MemoryId, Head>,
    revisions: map<RevisionId, Revision>,
    metadata: map<RevisionId, Metadata>,
    attachments: map<RevisionId, Attachments>,
    links: set<LinkRow>,
    latestLinks: map<LinkKey, LatestLink>,
    associations: set<Association>,
    idempotency: map<IdempotencyKey, IdempotencyRow>,
    aliases: map<MemoryId, AliasRow>,
    fts: map<MemoryId, nat>,
    profiles: map<string, Profile>,
    projections: map<ProjectionKey, Projection>)

  const EMPTY: Db := Db([], map[], map[], map[], map[], {}, map[], {}, map[], map[], map[], map[], map[])

  // --- the event log ----------------------------------------------------

  // Sequence number of an event, 0 when it does not exist.
  function SeqOf(events: seq<Event>, id: EventId): (n: nat)
    ensures n <= |events|
    ensures n > 0 ==> events[n - 1].id == id
    ensures n == 0 ==> forall i | 0 <= i < |events| :: events[i].id != id
  {
    if events == [] then 0
    else if events[|events| - 1].id == id then |events|
    else SeqOf(events[..|events| - 1], id)
  }

  predicate HasEvent(db: Db, id: EventId) { SeqOf(db.events, id) > 0 }

  predicate IsLifecycle(events: seq<Event>, id: EventId) {
    SeqOf(events, id) > 0 && events[SeqOf(events, id) - 1].kind == Lifecycle
  }

  function InsertEvent(db: Db, event: Event): Result<Db> {
    if HasEvent(db, event.id) then Err(ConstraintViolation) else Ok(db.(events := db.events + [event]))
  }

  // --- lifecycle links --------------------------------------------------

  datatype LinkEffect = Supersedes | Contests | NoEffect

  // Relations are trimmed before they are stored.
  function Effect(relation: string): LinkEffect {
    var name := AsciiLower(relation);
    if name == "supersedes" then Supersedes else if name == "contests" then Contests else NoEffect
  }

  predicate Live(state: MemoryState) { state == Active || state == Contested }

  predicate Affects(links: seq<LinkInput>, target: MemoryId, effect: LinkEffect) {
    exists i | 0 <= i < |links| :: links[i].target == target && Effect(links[i].relation) == effect
  }

  predicate AnyContests(links: seq<LinkInput>) {
    exists i | 0 <= i < |links| :: Effect(links[i].relation) == Contests
  }

  // What a request's links make of one head, whatever their order.
  function Settle(id: MemoryId, head: Head, source: MemoryId, links: seq<LinkInput>, sequence: nat): Head {
    if Affects(links, id, Supersedes) && Live(head.state) then
      head.(state := Superseded, updatedSeq := sequence)
    else if Affects(links, id, Contests) && head.state == Active then
      head.(state := Contested, updatedSeq := sequence)
    else if id == source && AnyContests(links) && head.state == Active then
      head.(state := Contested, updatedSeq := sequence)
    else head
  }

  function SettleAll(heads: map<MemoryId, Head>, source: MemoryId, links: seq<LinkInput>, sequence: nat):
    map<MemoryId, Head>
  {
    map id | id in heads :: Settle(id, heads[id], source, links, sequence)
  }

  // --- one memory write -------------------------------------------------

  const MAX_RELATION_BYTES: nat := 64

  predicate ValidRelation(relation: string) { Trim(relation) != "" && Text.ByteLen(relation) <= MAX_RELATION_BYTES }

  predicate IsCharBoundary(content: string, offset: nat) {
    exists k | 0 <= k <= |content| :: Text.ByteLen(content[..k]) == offset
  }

  // No span, or an ordered byte range of whole characters.
  predicate ValidSpan(source: Evidence, content: string) {
    || (source.spanStart.None? && source.spanEnd.None?)
    || (source.spanStart.Some? && source.spanEnd.Some?
        && source.spanStart.value < source.spanEnd.value <= Text.ByteLen(content)
        && IsCharBoundary(content, source.spanStart.value) && IsCharBoundary(content, source.spanEnd.value))
  }

  function ValidateSource(db: Db, source: Evidence, scope: Scope): Result<()> {
    if !ValidRelation(source.relation) then Err(InvalidInput)
    else
      var n := SeqOf(db.events, source.event);
      if n == 0 then Err(NotFound)
      else if db.events[n - 1].scope.Durable() != scope.Durable() then Err(Conflict)
      else if !ValidSpan(source, db.events[n - 1].content) then Err(InvalidInput)
      else Ok(())
  }

  function ValidateEvidence(db: Db, evidence: seq<Evidence>, scope: Scope): Result<()> {
    if evidence == [] then Ok(())
    else
      var _ :- ValidateSource(db, evidence[0], scope);
      ValidateEvidence(db, evidence[1..], scope)
  }

  function ValidateLinks(db: Db, links: seq<LinkInput>, scope: Scope): Result<()> {
    if links == [] then Ok(())
    else if links[0].target !in db.heads then Err(NotFound)
    else if db.heads[links[0].target].durable != scope.Durable() then Err(Conflict)
    else if !ValidRelation(links[0].relation) then Err(InvalidInput)
    else ValidateLinks(db, links[1..], scope)
  }

  // Live heads a canonical key may resolve to.
  function Candidates(db: Db, durable: DurableScope, kind: MemoryKind, key: string): set<MemoryId> {
    set id | id in db.heads && db.heads[id].durable == durable && db.heads[id].kind == kind
             && db.heads[id].key == Some(key) && Live(db.heads[id].state)
  }

  // Newest first, then by identifier.
  predicate Newer(db: Db, a: MemoryId, b: MemoryId)
    requires a in db.heads && b in db.heads
  {
    db.heads[a].updatedSeq > db.heads[b].updatedSeq || (db.heads[a].updatedSeq == db.heads[b].updatedSeq && a < b)
  }

  ghost predicate IsNewest(db: Db, id: MemoryId, among: set<MemoryId>)
    requires among <= db.heads.Keys
  {
    id in among && forall other | other in among && other != id :: Newer(db, id, other)
  }

  lemma {:induction false} NewestExists(db: Db, among: set<MemoryId>)
    requires among <= db.heads.Keys && among != {}
    ensures exists id :: IsNewest(db, id, among)
  {
    var some :| some in among;
    var rest := among - {some};
    assert forall id | id in among :: id == some || id in rest;
    if rest == {} {
      assert IsNewest(db, some, among);
    } else {
      NewestExists(db, rest);
      var best :| IsNewest(db, best, rest);
      assert IsNewest(db, if Newer(db, some, best) then some else best, among);
    }
  }

  ghost function Newest(db: Db, among: set<MemoryId>): (id: MemoryId)
    requires among <= db.heads.Keys && among != {}
    ensures IsNewest(db, id, among)
  {
    NewestExists(db, among);
    var id :| IsNewest(db, id, among);
    id
  }

  // The memory a request revises, if any.
  ghost function Existing(db: Db, request: MemoryRequest): (r: Result<Option<MemoryId>>)
    ensures r.Ok? && r.value.Some? ==> r.value.value in db.heads && Live(db.heads[r.value.value].state)
    ensures r.Ok? && r.value.Some? ==> db.heads[r.value.value].durable == request.scope.Durable()
    ensures r.Ok? && r.value.Some? ==> db.heads[r.value.value].kind == request.kind
  {
    if request.memoryId.Some? then
      var id := request.memoryId.value;
      if id !in db.heads then Ok(None)
      else if db.heads[id].durable != request.scope.Durable() then Err(Conflict)
      else if db.heads[id].kind != request.kind then Err(Conflict)
      else if !Live(db.heads[id].state) then Err(Conflict)
      else Ok(Some(id))
    else if request.key.Some? then
      var among := Candidates(db, request.scope.Durable(), request.kind, request.key.value);
      if among == {} then Ok(None) else Ok(Some(Newest(db, among)))
    else Ok(None)
  }

  function NextRevision(db: Db, id: MemoryId): nat {
    if id in db.heads then db.heads[id].headRevision + 1 else 1
  }

  // The first link the insertion loop refuses decides the error.
  function CheckLinks(links: seq<LinkInput>, id: MemoryId, n: nat): Result<()>
    requires n <= |links|
  {
    if n == 0 then Ok(())
    else
      var earlier := CheckLinks(links, id, n - 1);
      var link := links[n - 1];
      if earlier.Err? then earlier
      else if link.target == id then Err(InvalidInput)
      else if exists j | 0 <= j < n - 1 :: links[j].target == link.target && links[j].relation == link.relation
      then Err(ConstraintViolation)
      else Ok(())
  }

  lemma {:induction false} NoSelfLinks(links: seq<LinkInput>, id: MemoryId, n: nat)
    requires n <= |links| && CheckLinks(links, id, n).Ok?
    ensures forall i | 0 <= i < n :: links[i].target != id
  {
    if n > 0 { NoSelfLinks(links, id, n - 1); }
  }

  function CapWeight(weight: nat): nat { if weight < 1000 then weight else 1000 }

  function LinkRows(id: MemoryId, revision: nat, links: seq<LinkInput>, event: EventId): set<LinkRow> {
    set i | 0 <= i < |links| ::
      LinkRow(id, revision, links[i].target, links[i].relation, CapWeight(links[i].weight), event)
  }

  // Inserting a link again replaces the weight and event of its pair and relation.
  function LatestAfter(latest: map<LinkKey, LatestLink>, id: MemoryId, links: seq<LinkInput>, event: EventId):
    map<LinkKey, LatestLink>
  {
    if links == [] then latest
    else
      var link := links[|links| - 1];
      LatestAfter(latest, id, links[..|links| - 1], event)[
        LinkKey(id, link.target, link.relation) := LatestLink(CapWeight(link.weight), event)]
  }

  function TargetAssociations(links: seq<LinkInput>, event: EventId): set<Association> {
    set i | 0 <= i < |links| :: Association(event, links[i].target)
  }

  // The head right after its revision was recorded, before links take effect.
  function RevisedHead(db: Db, id: MemoryId, request: MemoryRequest): Head {
    Head(request.scope.Durable(), request.kind, Active, request.key, NextRevision(db, id), request.ranking,
         if id in db.heads then db.heads[id].createdSeq else |db.events|, |db.events|)
  }

  // All rows one memory write leaves behind; the event is already logged.
  function Written(db: Db, id: MemoryId, request: MemoryRequest, event: EventId): Db {
    var revision := NextRevision(db, id);
    var at := RevisionId(id, revision);
    var heads := SettleAll(db.heads[id := RevisedHead(db, id, request)], id, request.links, |db.events|);
    db.(heads := heads,
        revisions := db.revisions[at :=
          Revision(request.title, request.body, request.attributes, request.scope, |db.events|)],
        metadata := db.metadata[at :=
          Metadata(request.kind, heads[id].state, request.key, request.ranking, true)],
        attachments := db.attachments[at :=
          Stored(request.tags, request.entities, request.artifacts, request.evidence, event)],
        links := db.links + LinkRows(id, revision, request.links, event),
        latestLinks := LatestAfter(db.latestLinks, id, request.links, event),
        associations := db.associations + TargetAssociations(request.links, event) + {Association(event, id)},
        aliases := db.aliases[id := AliasRow(revision, CODE_ALIAS_VERSION)],
        fts := db.fts[id := revision])
  }

  datatype Upserted = Upserted(db: Db, id: MemoryId)

  // `generated` is the identifier drawn for a memory that does not exist yet.
  ghost function Upsert(db: Db, request: MemoryRequest, event: EventId, generated: MemoryId): Result<Upserted> {
    var _ :- ValidateEvidence(db, request.evidence, request.scope);
    var _ :- ValidateLinks(db, request.links, request.scope);
    var existing :- Existing(db, request);
    var id := if existing.Some? then existing.value
              else if request.memoryId.Some? then request.memoryId.value else generated;
    if existing.None? && id in db.heads then Err(ConstraintViolation)
    else
      var _ :- CheckLinks(request.links, id, |request.links|);
      Ok(Upserted(Written(db, id, request, event), id))
  }

  // --- idempotency ------------------------------------------------------

  function ScopedIdempotencyKey(operation: Operation, scope: Scope, key: Option<string>): Option<IdempotencyKey> {
    if key.None? then None else Some(ScopedKey(operation, scope.Durable(), key.value))
  }

  function GetIdempotent(db: Db, key: Option<IdempotencyKey>, fingerprint: Fingerprint): Result<Option<Receipt>> {
    if key.None? || key.value !in db.idempotency then Ok(None)
    else if db.idempotency[key.value].fingerprint != fingerprint then Err(Conflict)
    else Ok(Some(db.idempotency[key.value].receipt))
  }

  function PutIdempotent(db: Db, key: Option<IdempotencyKey>, fingerprint: Fingerprint, receipt: Receipt): Db {
    if key.None? then db
    else db.(idempotency := db.idempotency[key.value := IdempotencyRow(fingerprint, receipt)])
  }

  datatype Reply = Reply(db: Db, result: Result<Receipt>)

  function Refuse(db: Db, error: Error): Reply { Reply(db, Err(error)) }

  function Replay(db: Db, receipt: Receipt): Reply { Reply(db, Ok(receipt.(deduplicated := true))) }

  // What a key answers once a write committed under it.
  function Answer(db: Db, same: bool, receipt: Receipt): Reply {
    if same then Replay(db, receipt) else Refuse(db, Conflict)
  }

  // --- observe ----------------------------------------------------------

  function PrepareObserve(redactor: Redactor, request: ObserveRequest): ObserveRequest {
    request.(content := redactor.text(request.content), attributes := redactor.attributes(request.attributes))
  }

  function ObserveFingerprintOf(request: ObserveRequest): Fingerprint {
    ObserveFingerprint(request.(scope := request.scope.Stabilize(), idempotencyKey := None))
  }

  function ObserveStep(db: Db, redactor: Redactor, request: ObserveRequest, generated: EventId): Reply {
    var prepared := PrepareObserve(redactor, request);
    var key := ScopedIdempotencyKey(ObserveOperation, request.scope, request.idempotencyKey);
    match GetIdempotent(db, key, ObserveFingerprintOf(prepared))
    case Err(error) => Refuse(db, error)
    case Ok(Some(receipt)) => Replay(db, receipt)
    case Ok(None) =>
      var id := if request.eventId.Some? then request.eventId.value else generated;
      match InsertEvent(db, Event(id, request.kind, request.scope, prepared.content, prepared.attributes))
      case Err(error) => Refuse(db, error)
      case Ok(logged) =>
        var receipt := Receipt(id, [], |logged.events|, false);
        Reply(PutIdempotent(logged, key, ObserveFingerprintOf(prepared), receipt), Ok(receipt))
  }

  // --- remember ---------------------------------------------------------

  function RedactOption(redactor: Redactor, text: Option<string>): Option<string> {
    if text.Some? then Some(redactor.text(text.value)) else None
  }

  function RedactArtifact(redactor: Redactor, artifact: ArtifactRef): ArtifactRef {
    ArtifactRef(redactor.text(artifact.repoId), redactor.text(artifact.path), RedactOption(redactor, artifact.symbol),
                RedactOption(redactor, artifact.contentHash), RedactOption(redactor, artifact.gitOid),
                RedactOption(redactor, artifact.language))
  }

  function RedactAll(redactor: Redactor, texts: seq<string>): seq<string> {
    seq(|texts|, i requires 0 <= i < |texts| => redactor.text(texts[i]))
  }

  function RedactEntities(redactor: Redactor, entities: seq<EntityRef>): seq<EntityRef> {
    seq(|entities|, i requires 0 <= i < |entities| =>
      EntityRef(redactor.text(entities[i].kind), redactor.text(entities[i].canonical),
          redactor.text(entities[i].display)))
  }

  // Redacts every text, trims relations, and sorts tags and entities, keeping
  // one of each.
  function PrepareMemory(redactor: Redactor, request: MemoryRequest): MemoryRequest {
    request.(
      key := RedactOption(redactor, request.key),
      title := redactor.text(request.title),
      body := redactor.text(request.body),
      attributes := redactor.attributes(request.attributes),
      tags := StoreAll(RedactAll(redactor, request.tags), TagBefore),
      entities := StoreAll(RedactEntities(redactor, request.entities), PreparedEntityBefore),
      artifacts := seq(|request.artifacts|, i requires 0 <= i < |request.artifacts| =>
                         RedactArtifact(redactor, request.artifacts[i])),
      evidence := seq(|request.evidence|, i requires 0 <= i < |request.evidence| =>
                        request.evidence[i].(relation := Trim(request.evidence[i].relation))),
      links := seq(|request.links|, i requires 0 <= i < |request.links| =>
                     request.links[i].(relation := Trim(request.links[i].relation))))
  }

  // --- collection limits ------------------------------------------------

  const MAX_COLLECTION_ITEMS: nat := 128
  const MAX_MEMORY_TAGS: nat := 64
  const MAX_EVIDENCE_ITEMS: nat := 256

  // What one memory may carry.
  predicate MemoryFits(request: MemoryRequest) {
    && |request.tags| <= MAX_MEMORY_TAGS && |request.entities| <= MAX_COLLECTION_ITEMS
    && |request.artifacts| <= MAX_COLLECTION_ITEMS && |request.evidence| <= MAX_EVIDENCE_ITEMS
    && |request.links| <= MAX_COLLECTION_ITEMS
  }

  // What one checkpoint may carry; it may have more tags than its episode.
  predicate CheckpointFits(request: CheckpointRequest) {
    && |request.verification| <= MAX_COLLECTION_ITEMS && |request.decisions| <= MAX_COLLECTION_ITEMS
    && |request.attempts| <= MAX_COLLECTION_ITEMS && |request.openTasks| <= MAX_COLLECTION_ITEMS
    && |request.artifacts| <= MAX_COLLECTION_ITEMS && |request.tags| <= MAX_COLLECTION_ITEMS
    && |request.evidence| <= MAX_EVIDENCE_ITEMS
  }

  function CheckLimits(fits: bool): Result<()> { if fits then Ok(()) else Err(InvalidInput) }

  function RememberFingerprintOf(request: MemoryRequest): Fingerprint {
    RememberFingerprint(request.(scope := request.scope.Stabilize()))
  }

  ghost function RememberStep(
    db: Db, redactor: Redactor, request: RememberRequest, event: EventId, generated: MemoryId): Reply
  {
    if !MemoryFits(request.memory) then Refuse(db, InvalidInput) else
    var prepared := PrepareMemory(redactor, request.memory);
    var key := ScopedIdempotencyKey(RememberOperation, prepared.scope, request.idempotencyKey);
    match GetIdempotent(db, key, RememberFingerprintOf(prepared))
    case Err(error) => Refuse(db, error)
    case Ok(Some(receipt)) => Replay(db, receipt)
    case Ok(None) =>
      var written :=
        var _ :- ValidateEvidence(db, prepared.evidence, prepared.scope);
        var _ :- ValidateLinks(db, prepared.links, prepared.scope);
        var logged :- InsertEvent(db, Event(event, ExplicitMemory, prepared.scope, prepared.body, prepared.attributes));
        Upsert(logged, prepared, event, generated);
      match written
      case Err(error) => Refuse(db, error)
      case Ok(upserted) =>
        var receipt := Receipt(event, [upserted.id], |upserted.db.events|, false);
        Reply(PutIdempotent(upserted.db, key, RememberFingerprintOf(prepared), receipt), Ok(receipt))
  }

  // --- checkpoint -------------------------------------------------------

  function RedactCheckpoint(redactor: Redactor, request: CheckpointRequest): CheckpointRequest {
    request.(
      goal := redactor.text(request.goal),
      summary := redactor.text(request.summary),
      verification := RedactAll(redactor, request.verification),
      decisions := seq(|request.decisions|, i requires 0 <= i < |request.decisions| =>
        CheckpointDecision(redactor.text(request.decisions[i].summary),
                           RedactOption(redactor, request.decisions[i].rationale),
                           RedactOption(redactor, request.decisions[i].key))),
      attempts := seq(|request.attempts|, i requires 0 <= i < |request.attempts| =>
        CheckpointAttempt(redactor.text(request.attempts[i].action), redactor.text(request.attempts[i].result),
                          request.attempts[i].succeeded, RedactOption(redactor, request.attempts[i].fingerprint),
                          RedactOption(redactor, request.attempts[i].key),
                          RedactOption(redactor, request.attempts[i].promotionReason))),
      openTasks := RedactAll(redactor, request.openTasks),
      artifacts := seq(|request.artifacts|, i requires 0 <= i < |request.artifacts| =>
        RedactArtifact(redactor, request.artifacts[i])),
      evidence := seq(|request.evidence|, i requires 0 <= i < |request.evidence| =>
        request.evidence[i].(relation := Trim(request.evidence[i].relation))),
      tags := RedactAll(redactor, request.tags))
  }

  function OutcomeName(outcome: CheckpointOutcome): string {
    match outcome
    case SuccessOutcome => "success"
    case FailureOutcome => "failure"
    case PartialOutcome => "partial"
  }

  function CheckpointRanking(importance: nat, confidence: nat, trust: nat): Ranking {
    Ranking(importance, confidence, trust, None, None, None)
  }

  function EpisodeRequest(request: CheckpointRequest): MemoryRequest {
    MemoryRequest(
      None, request.scope, Episode, None, "Task checkpoint: " + request.goal,
      "Goal: " + request.goal + "\nOutcome: " + OutcomeName(request.outcome) + "\nSummary: " + request.summary
      + "\nVerification: "
      + (if request.verification == [] then "not supplied" else JoinWith(request.verification, "; ")),
      CheckpointRanking(72, if request.verification == [] then 65 else 85, request.trust),
      NO_ATTRIBUTES.(extra := OutcomeName(request.outcome) + "\n" + request.goal),
      request.tags, [], request.artifacts, request.evidence, [])
  }

  function DecisionRequest(request: CheckpointRequest, decision: CheckpointDecision, episode: MemoryId): MemoryRequest {
    MemoryRequest(
      None, request.scope, Decision, decision.key, "Decision: " + decision.summary,
      decision.summary + (if decision.rationale.Some? then "\nRationale: " + decision.rationale.value else ""),
      CheckpointRanking(82, 80, request.trust), NO_ATTRIBUTES, [], [], request.artifacts, request.evidence,
      [LinkInput(episode, "belongs_to", 900)])
  }

  function AttemptRequest(request: CheckpointRequest, attempt: CheckpointAttempt, episode: MemoryId): MemoryRequest {
    MemoryRequest(
      None, request.scope, Outcome, attempt.key,
      (if attempt.succeeded then "Successful approach: " else "Failed approach: ") + attempt.action,
      "Attempt: " + attempt.action + "\nResult: " + attempt.result + "\nSucceeded: "
      + (if attempt.succeeded then "true" else "false"),
      CheckpointRanking(if attempt.succeeded then 72 else 78, 88, request.trust),
      NO_ATTRIBUTES.(
        succeeded := Some(attempt.succeeded), attemptResult := Some(attempt.result),
        errorFingerprint := attempt.fingerprint,
        extra := request.goal + (if attempt.promotionReason.Some? then "\n" + attempt.promotionReason.value else "")),
      [], [], request.artifacts, request.evidence, [LinkInput(episode, "attempted_for", 900)])
  }

  function TaskRequest(request: CheckpointRequest, task: string, episode: MemoryId): MemoryRequest {
    MemoryRequest(
      None, request.scope, Task, None, "Open task: " + task, task, CheckpointRanking(68, 90, request.trust),
      NO_ATTRIBUTES, [], [], request.artifacts, request.evidence, [LinkInput(episode, "belongs_to", 850)])
  }

  // Everything a checkpoint writes after its episode, in order.
  function MemberRequests(request: CheckpointRequest, episode: MemoryId): seq<MemoryRequest> {
    seq(|request.decisions|, i requires 0 <= i < |request.decisions| =>
      DecisionRequest(request, request.decisions[i], episode))
    + seq(|request.attempts|, i requires 0 <= i < |request.attempts| =>
        AttemptRequest(request, request.attempts[i], episode))
    + seq(|request.openTasks|, i requires 0 <= i < |request.openTasks| =>
        TaskRequest(request, request.openTasks[i], episode))
  }

  datatype Batch = Batch(db: Db, ids: seq<MemoryId>)

  // Draw `i` of `generated` is the identifier for the i-th member.
  ghost function UpsertAll(
    db: Db, redactor: Redactor, requests: seq<MemoryRequest>, event: EventId, generated: nat -> MemoryId): Result<Batch>
  {
    if requests == [] then Ok(Batch(db, []))
    else
      var n := |requests| - 1;
      var before :- UpsertAll(db, redactor, requests[..n], event, generated);
      var _ :- CheckLimits(MemoryFits(requests[n]));
      var last :- Upsert(before.db, PrepareMemory(redactor, requests[n]), event, generated(n + 1));
      Ok(Batch(last.db, before.ids + [last.id]))
  }

  function CheckpointAttributes(redactor: Redactor, request: CheckpointRequest): Attributes {
    redactor.attributes(NO_ATTRIBUTES.(
      extra := request.goal + "\n" + OutcomeName(request.outcome) + "\n" + JoinWith(request.verification, "; ")))
  }

  function CheckpointFingerprintOf(request: CheckpointRequest): Fingerprint {
    CheckpointFingerprint(request.(scope := request.scope.Stabilize(), idempotencyKey := None))
  }

  ghost function CheckpointWrites(
    db: Db, redactor: Redactor, safe: CheckpointRequest, event: EventId, generated: nat -> MemoryId): Result<Batch>
  {
    var _ :- ValidateEvidence(db, safe.evidence, safe.scope);
    var logged :- InsertEvent(db, Event(event, Checkpoint, safe.scope, safe.summary,
                                        CheckpointAttributes(redactor, safe)));
    var _ :- CheckLimits(MemoryFits(EpisodeRequest(safe)));
    var episode :- Upsert(logged, PrepareMemory(redactor, EpisodeRequest(safe)), event, generated(0));
    var members :- UpsertAll(episode.db, redactor, MemberRequests(safe, episode.id), event, generated);
    Ok(Batch(members.db, [episode.id] + members.ids))
  }

  ghost function CheckpointStep(
    db: Db, redactor: Redactor, request: CheckpointRequest, event: EventId, generated: nat -> MemoryId): Reply
  {
    if !CheckpointFits(request) then Refuse(db, InvalidInput) else
    var safe := RedactCheckpoint(redactor, request);
    var key := ScopedIdempotencyKey(CheckpointOperation, request.scope, request.idempotencyKey);
    match GetIdempotent(db, key, CheckpointFingerprintOf(safe))
    case Err(error) => Refuse(db, error)
    case Ok(Some(receipt)) => Replay(db, receipt)
    case Ok(None) =>
      match CheckpointWrites(db, redactor, safe, event, generated)
      case Err(error) => Refuse(db, error)
      case Ok(batch) =>
        var receipt := Receipt(event, batch.ids, |batch.db.events|, false);
        Reply(PutIdempotent(batch.db, key, CheckpointFingerprintOf(safe), receipt), Ok(receipt))
  }

  // --- retract ----------------------------------------------------------

  // The scope stored with a memory's current revision.
  function HeadScope(db: Db, id: MemoryId): Option<Scope> {
    if id in db.heads && RevisionId(id, db.heads[id].headRevision) in db.revisions
    then Some(db.revisions[RevisionId(id, db.heads[id].headRevision)].scope)
    else None
  }

  function WithRetraction(db: Db, id: MemoryId, event: EventId): Db
    requires id in db.heads
  {
    db.(heads := db.heads[id := db.heads[id].(state := Retracted, updatedSeq := |db.events|)],
        associations := db.associations + {Association(event, id)},
        aliases := db.aliases - {id},
        fts := db.fts - {id},
        projections := map key | key in db.projections && key.memory != id :: db.projections[key])
  }

  function RetractStep(db: Db, redactor: Redactor, request: RetractRequest, event: EventId): Reply {
    var id := request.memoryId;
    if id !in db.heads then Refuse(db, NotFound)
    else
      var reason := redactor.text(request.reason);
      var key := if request.idempotencyKey.None? then None
                 else Some(RetractKey(db.heads[id].durable.key.namespace, id, request.idempotencyKey.value));
      match GetIdempotent(db, key, RetractFingerprint(id, reason))
      case Err(error) => Refuse(db, error)
      case Ok(Some(receipt)) => Replay(db, receipt)
      case Ok(None) =>
        if HeadScope(db, id).None? then Refuse(db, NotFound)
        else if db.heads[id].state == Retracted then Refuse(db, Conflict)
        else
          match InsertEvent(db, Event(event, Lifecycle, HeadScope(db, id).value, reason, NO_ATTRIBUTES))
          case Err(error) => Refuse(db, error)
          case Ok(logged) =>
            var receipt := Receipt(event, [id], |logged.events|, false);
            Reply(PutIdempotent(WithRetraction(logged, id, event), key, RetractFingerprint(id, reason), receipt),
                Ok(receipt))
  }
}
