// Values the engine stores and exchanges.
module Domain {
  import opened Basics

  // Generated UUIDs; only their identity and order matter.
  type MemoryId = nat
  type EventId = nat

  datatype MemoryKind =
    | Fact | Preference | Constraint | Decision | Procedure
    | Episode | Outcome | Task | Observation

  datatype MemoryState = Active | Contested | Superseded | Retracted

  datatype EventKind =
    | ConversationTurn | ToolCall | ToolResult | CommandResult | FileChange
    | Verification | ExplicitMemory | Checkpoint | ManualNote | Lifecycle

  datatype Applicability = Exact | Compatible | Stale | Divergent | Unversioned | Inapplicable
  {
    function Label(): string {
      match this
      case Exact => "exact"
      case Compatible => "compatible"
      case Stale => "stale"
      case Divergent => "divergent"
      case Unversioned => "unversioned"
      case Inapplicable => "inapplicable"
    }
  }

  datatype GitRelation =
    | Same
    | Ancestor(behind: nat)
    | Descendant(ahead: nat)
    | Diverged(ahead: nat, behind: nat)
    | Unknown

  datatype RepositoryContext = RepositoryContext(
    repoId: string, root: Option<string>, commonDir: Option<string>, branch: Option<string>,
    headOid: Option<string>, remote: Option<string>, dirtyHash: Option<string>)

  // The digest material of `Scope::key`; the digest itself is taken to be injective.
  datatype ScopeKey =
    | RepositoryKey(namespace: string, repoId: string, branch: Option<string>)
    | WorkspaceKey(namespace: string, workspaceId: Option<string>)

  datatype Scope = Scope(
    namespace: string, workspaceId: Option<string>, sessionId: Option<string>,
    repository: Option<RepositoryContext>)
  {
    function Key(): ScopeKey {
      match repository
      case Some(repo) => RepositoryKey(namespace, repo.repoId, repo.branch)
      case None => WorkspaceKey(namespace, workspaceId)
    }

    function RepoId(): Option<string> {
      if repository.Some? then Some(repository.value.repoId) else None
    }

    function Branch(): Option<string> {
      if repository.Some? then repository.value.branch else None
    }

    // Drops what only describes the session and the worktree of the moment.
    function Stabilize(): Scope {
      this.(sessionId := None,
            repository := if repository.None? then None else
              Some(repository.value.(root := None, commonDir := None, headOid := None,
                                     remote := None, dirtyHash := None)))
    }

    function Durable(): DurableScope { DurableScope(Key(), workspaceId) }
  }

  // What `same_durable_scope` compares: the scope digest and the workspace.
  datatype DurableScope = DurableScope(key: ScopeKey, workspaceId: Option<string>)

  // The event query filters on four JSON fields instead of the stored digest.
  predicate SameEventScope(a: Scope, b: Scope) {
    && a.namespace == b.namespace
    && a.workspaceId == b.workspaceId
    && a.RepoId() == b.RepoId()
    && a.Branch() == b.Branch()
  }

  // Event attributes and memory attributes share one record: the fields the engine reads.
  datatype Attributes = Attributes(
    role: Option<string>, command: Option<string>, toolName: Option<string>,
    errorFingerprint: Option<string>, attemptResult: Option<string>,
    succeeded: Option<bool>, isError: Option<bool>, exitCode: Option<int>,
    verification: Option<bool>, memorySalient: Option<bool>, extra: string)

  const NO_ATTRIBUTES := Attributes(None, None, None, None, None, None, None, None, None, None, "")

  datatype ArtifactRef = ArtifactRef(
    repoId: string, path: string, symbol: Option<string>,
    contentHash: Option<string>, gitOid: Option<string>, language: Option<string>)

  // A citation of an event, or of a byte range of its content.
  datatype Evidence = Evidence(
    event: EventId, relation: string, spanStart: Option<nat> := None, spanEnd: Option<nat> := None)

  datatype EntityRef = EntityRef(kind: string, canonical: string, display: string)

  datatype LinkInput = LinkInput(target: MemoryId, relation: string, weight: nat)

  // Importance, confidence, trust and the validity window travel together.
  datatype Ranking = Ranking(
    importance: nat, confidence: nat, trust: nat,
    validFrom: Option<int>, validUntil: Option<int>, expiresAt: Option<int>)

  datatype MemoryRequest = MemoryRequest(
    memoryId: Option<MemoryId>, scope: Scope, kind: MemoryKind, key: Option<string>,
    title: string, body: string, ranking: Ranking, attributes: Attributes,
    tags: seq<string>, entities: seq<EntityRef>, artifacts: seq<ArtifactRef>,
    evidence: seq<Evidence>, links: seq<LinkInput>)

  datatype CheckpointOutcome = SuccessOutcome | FailureOutcome | PartialOutcome

  datatype CheckpointDecision = CheckpointDecision(summary: string, rationale: Option<string>, key: Option<string>)

  datatype CheckpointAttempt = CheckpointAttempt(
    action: string, result: string, succeeded: bool, fingerprint: Option<string>,
    key: Option<string>, promotionReason: Option<string>)

  datatype CheckpointRequest = CheckpointRequest(
    idempotencyKey: Option<string>, scope: Scope, goal: string, summary: string, outcome: CheckpointOutcome,
    verification: seq<string>, decisions: seq<CheckpointDecision>, attempts: seq<CheckpointAttempt>,
    openTasks: seq<string>, artifacts: seq<ArtifactRef>, evidence: seq<Evidence>, trust: nat, tags: seq<string>)

  datatype RememberRequest = RememberRequest(idempotencyKey: Option<string>, memory: MemoryRequest)

  datatype ObserveRequest = ObserveRequest(
    idempotencyKey: Option<string>, eventId: Option<EventId>, kind: EventKind, scope: Scope,
    content: string, attributes: Attributes)

  datatype RetractRequest = RetractRequest(idempotencyKey: Option<string>, memoryId: MemoryId, reason: string)

  // Redaction of secrets: any deterministic rewriting of text and attributes.
  datatype Redactor = Redactor(text: string -> string, attributes: Attributes -> Attributes)

  // Redaction switched off.
  const PLAIN: Redactor := Redactor(text => text, (attributes: Attributes) => attributes)

  // A memory as recall returns it: head scalars, revision content, attachments.
  datatype Memory = Memory(
    memoryId: MemoryId, revision: nat, kind: MemoryKind, state: MemoryState, scope: Scope,
    key: Option<string>, title: string, body: string, ranking: Ranking, attributes: Attributes,
    createdSeq: nat, updatedSeq: nat, tags: seq<string>, entities: seq<EntityRef>,
    artifacts: seq<ArtifactRef>, evidence: seq<Evidence>)

  // Scope keys plus workspaces identify exactly what the event query's four
  // columns identify, so both ways of comparing scopes agree.
  lemma DurableScopeIsEventScope(a: Scope, b: Scope)
    ensures a.Durable() == b.Durable() <==> SameEventScope(a, b)
    ensures a.Key() == b.Key() && a.workspaceId == b.workspaceId <==> a.Durable() == b.Durable()
    ensures a.Stabilize().Durable() == a.Durable()
    ensures a.Stabilize() == b.Stabilize() <==> a.Durable() == b.Durable()
  {
  }
}
