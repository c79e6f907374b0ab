// Checkpoints of a harness session: the ambient slice of events, the enriched
// request, and what a retry of it does.
module CheckpointSession {
  import opened Basics
  import opened Domain
  import opened Strings
  import opened Database
  import opened Ledger
  import opened Extension
  import opened TimeTravel
  import Text
  import AttemptCoalescing
  import AttemptKeys

  const SESSION_LIMIT: nat := 128

  // --- the ambient slice ------------------------------------------------

  predicate InSession(event: Event, scope: Scope, session: string) {
    SameEventScope(event.scope, scope) && event.scope.sessionId == Some(session)
  }

  // The newest events of the session, newest first.
  function SessionRows(events: seq<Event>, scope: Scope, session: string, limit: nat): seq<Event> {
    if limit == 0 || events == [] then []
    else
      var front, last := events[..|events| - 1], events[|events| - 1];
      if InSession(last, scope, session) then [last] + SessionRows(front, scope, session, limit - 1)
      else SessionRows(front, scope, session, limit)
  }

  predicate IsUserPrompt(event: Event) {
    event.kind == ConversationTurn && event.attributes.role == Some("user")
  }

  // Back to the previous checkpoint, or to the prompt that started the turn.
  function CutAtPrompt(rows: seq<Event>): seq<Event> {
    if rows == [] || rows[0].kind == Checkpoint then []
    else if IsUserPrompt(rows[0]) then [rows[0]]
    else [rows[0]] + CutAtPrompt(rows[1..])
  }

  function Reversed<T>(items: seq<T>): (r: seq<T>)
    ensures |r| == |items|
  {
    if items == [] then [] else Reversed(items[1..]) + [items[0]]
  }

  function Ambient(events: seq<Event>, scope: Scope, session: string): seq<Event> {
    Reversed(CutAtPrompt(SessionRows(events, scope, session, SESSION_LIMIT)))
  }

  lemma {:induction false} SessionRowsInSession(events: seq<Event>, scope: Scope, session: string, limit: nat)
    ensures var rows := SessionRows(events, scope, session, limit);
            |rows| <= limit && forall i | 0 <= i < |rows| :: InSession(rows[i], scope, session) && rows[i] in events
  {
    hide InSession;
    if limit > 0 && events != [] {
      var front := events[..|events| - 1];
      SessionRowsInSession(front, scope, session, limit - 1);
      SessionRowsInSession(front, scope, session, limit);
      assert events == front + [events[|events| - 1]];
    }
  }

  lemma {:induction false} CutHasNoCheckpoint(rows: seq<Event>)
    ensures var cut := CutAtPrompt(rows);
            && cut <= rows
            && (forall i | 0 <= i < |cut| :: cut[i].kind != Checkpoint)
            && (forall i | 0 <= i < |cut| - 1 :: !IsUserPrompt(cut[i]))
  {
    hide IsUserPrompt;
    if rows != [] { CutHasNoCheckpoint(rows[1..]); }
  }

  lemma {:induction false} ReversedAt<T>(items: seq<T>, i: nat)
    requires i < |items|
    ensures Reversed(items)[i] == items[|items| - 1 - i]
  {
    if i < |items| - 1 { ReversedAt(items[1..], i); }
  }

  // The slice holds events of this session only, at most as many as the query
  // returns, none of them a checkpoint, and a user prompt only in first place.
  lemma AmbientSlice(events: seq<Event>, scope: Scope, session: string)
    ensures var slice := Ambient(events, scope, session);
            && |slice| <= SESSION_LIMIT
            && (forall i | 0 <= i < |slice| ::
                  slice[i] in events && InSession(slice[i], scope, session) && slice[i].kind != Checkpoint)
            && (forall i | 0 < i < |slice| :: !IsUserPrompt(slice[i]))
  {
    hide InSession, IsUserPrompt, SessionRows, CutAtPrompt;
    var rows := SessionRows(events, scope, session, SESSION_LIMIT);
    var cut := CutAtPrompt(rows);
    SessionRowsInSession(events, scope, session, SESSION_LIMIT);
    CutHasNoCheckpoint(rows);
    forall i | 0 <= i < |cut|
      ensures Reversed(cut)[i] == cut[|cut| - 1 - i] && cut[|cut| - 1 - i] == rows[|cut| - 1 - i]
    {
      ReversedAt(cut, i);
    }
  }

  // --- reading one event ------------------------------------------------

  predicate Succeeded(event: Event) {
    if event.attributes.succeeded.Some? then event.attributes.succeeded.value
    else if event.attributes.isError.Some? then !event.attributes.isError.value
    else event.attributes.exitCode.None? || event.attributes.exitCode.value == 0
  }

  predicate IsExecution(kind: EventKind) {
    kind == CommandResult || kind == ToolResult || kind == Verification
  }

  function BaseName(path: string): string {
    if path == "" || path[|path| - 1] == '/' || path[|path| - 1] == '\\' then ""
    else BaseName(path[..|path| - 1]) + [path[|path| - 1]]
  }

  const FAILURE_MARKERS: seq<string> :=
    ["error:", "fatal:", "panic", "exception", "traceback", "segmentation fault"]

  // A search or diff that found nothing is not a failed attempt.
  predicate NeutralProbe(event: Event) {
    && event.kind == CommandResult && event.attributes.exitCode == Some(1) && event.attributes.command.Some?
    && (var tokens := AttemptKeys.Words(event.attributes.command.value);
        var executable := if tokens == [] then "" else BaseName(tokens[0]);
        executable == "rg" || executable == "grep"
        || (executable == "git" && |tokens| > 1 && tokens[1] == "diff" && "--quiet" in tokens))
    && (var folded := AsciiLower(event.content);
        forall i | 0 <= i < |FAILURE_MARKERS| :: FindText(folded, FAILURE_MARKERS[i]).None?)
  }

  function ClassifyEvent(event: Event): Option<AttemptCoalescing.PromotionReason> {
    if event.kind == Verification || event.attributes.verification == Some(true) then
      Some(AttemptCoalescing.VerificationReason)
    else if !Succeeded(event) && IsExecution(event.kind) && !NeutralProbe(event) then
      Some(AttemptCoalescing.FailedExecution)
    else if event.attributes.memorySalient == Some(true) then Some(AttemptCoalescing.ExplicitSalience)
    else None
  }

  predicate HasCommand(event: Event) {
    event.attributes.command.Some? && Trim(event.attributes.command.value) != ""
  }

  // A success without a reason of its own may still close an earlier failure.
  predicate ClosesFailure(event: Event) {
    ClassifyEvent(event).None? && Succeeded(event) && IsExecution(event.kind) && HasCommand(event)
  }

  function ActionOf(event: Event): string {
    var tool :=
      if event.attributes.toolName.Some? then event.attributes.toolName.value
      else if event.kind == CommandResult then "command" else "tool";
    Text.TruncateToTokens(
      if HasCommand(event) then tool + ": " + event.attributes.command.value else tool, 256)
  }

  function IdentityOf(event: Event): string {
    if HasCommand(event) then "command:" + event.attributes.command.value
    else if !Succeeded(event) && event.attributes.errorFingerprint.Some? then
      "diagnostic:" + event.attributes.errorFingerprint.value
    else "event:" + Decimal(event.id)
  }

  function AttemptOf(event: Event): AttemptCoalescing.AutomaticAttempt {
    AttemptCoalescing.AutomaticAttempt(
      ActionOf(event), Text.TruncateToTokens(event.content, 768), Succeeded(event),
      event.attributes.errorFingerprint, ClassifyEvent(event), IdentityOf(event))
  }

  function RelationOf(kind: EventKind): string {
    match kind
    case ConversationTurn => "session_prompt"
    case CommandResult => "command_evidence"
    case Verification => "verification_evidence"
    case FileChange => "file_evidence"
    case _ => "tool_evidence"
  }

  const GENERIC_GOALS: seq<string> :=
    ["coding task", "complete the current coding turn", "complete the delegated coding task",
     "complete the current opencode coding turn", "complete the current pi coding turn"]

  predicate IsGenericGoal(goal: string) { AsciiLower(Trim(goal)) in GENERIC_GOALS }

  // --- gathering --------------------------------------------------------

  datatype Gathering = Gathering(
    goal: string, evidence: seq<Evidence>, verification: seq<string>, attempts: seq<AttemptCoalescing.AutomaticAttempt>)

  function EvidenceEvents(evidence: seq<Evidence>): set<EventId> {
    set i | 0 <= i < |evidence| :: evidence[i].event
  }

  function GatherEvent(g: Gathering, event: Event): Gathering {
    var evidence :=
      if event.id in EvidenceEvents(g.evidence) then g.evidence
      else g.evidence + [Evidence(event.id, RelationOf(event.kind))];
    var goal :=
      if IsUserPrompt(event) && IsGenericGoal(g.goal) then Text.TruncateToTokens(event.content, 256) else g.goal;
    if ClassifyEvent(event).Some? || ClosesFailure(event) then
      var attempt := AttemptOf(event);
      var note := attempt.action + ": " + attempt.result;
      Gathering(
        goal, evidence,
        if ClassifyEvent(event) == Some(AttemptCoalescing.VerificationReason) && note !in g.verification
        then g.verification + [note] else g.verification,
        g.attempts + [attempt])
    else Gathering(goal, evidence, g.verification, g.attempts)
  }

  function Gather(g: Gathering, events: seq<Event>): Gathering {
    if events == [] then g else GatherEvent(Gather(g, events[..|events| - 1]), events[|events| - 1])
  }

  function Start(request: CheckpointRequest): Gathering {
    Gathering(request.goal, request.evidence, request.verification, [])
  }

  // --- the enriched request ---------------------------------------------

  function Visible(db: Db, before: Option<nat>): seq<Event> {
    if before.Some? && 0 < before.value <= |db.events| then db.events[..before.value - 1] else db.events
  }

  ghost function PreviousFailures(db: Db, scope: Scope, keys: set<string>, before: Option<nat>): map<string, string> {
    if keys == {} then map[]
    else if before.Some? then HistoricalFailures(db, scope.Durable(), keys, before.value)
    else LiveFailures(db, scope.Durable(), keys)
  }

  // What the session's events say about a request.
  function Gathered(request: CheckpointRequest, events: seq<Event>, session: string): Gathering {
    Gather(Start(request), Ambient(events, request.scope, session))
  }

  function Filled(request: CheckpointRequest, g: Gathering, prior: map<string, string>): CheckpointRequest {
    request.(goal := g.goal, evidence := g.evidence, verification := g.verification,
             attempts := request.attempts + AttemptCoalescing.Coalesced(g.attempts, prior))
  }

  ghost function Enriched(db: Db, request: CheckpointRequest, session: string, before: Option<nat>): CheckpointRequest {
    var g := Gathered(request, Visible(db, before), session);
    Filled(request, g, PreviousFailures(db, request.scope, AttemptCoalescing.AutomaticKeys(g.attempts), before))
  }

  datatype RetryPoint = RetryPoint(boundary: nat, session: string)

  // Where an earlier execution of this key was committed, if there was one.
  function FindRetry(db: Db, request: CheckpointRequest): Result<Option<RetryPoint>> {
    var key := ScopedIdempotencyKey(CheckpointOperation, request.scope, request.idempotencyKey);
    if key.None? || key.value !in db.idempotency then Ok(None)
    else
      var n := SeqOf(db.events, db.idempotency[key.value].receipt.eventId);
      if n == 0 then Err(Storage)
      else
        var original := db.events[n - 1].scope;
        if original.Key() != request.scope.Key() || original.workspaceId != request.scope.workspaceId then Err(Conflict)
        else if original.sessionId.None? then Err(Migration)
        else Ok(Some(RetryPoint(n, original.sessionId.value)))
  }

  // First transaction: read the session and enrich the request.
  ghost function ReadSession(db: Db, request: CheckpointRequest): Result<CheckpointRequest> {
    if request.scope.sessionId.None? then Ok(request)
    else
      var retry :- FindRetry(db, request);
      if retry.Some? then Ok(Enriched(db, request, retry.value.session, Some(retry.value.boundary)))
      else Ok(Enriched(db, request, request.scope.sessionId.value, None))
  }

  // Both transactions; others may commit in between, so `read` is the store
  // the session was read from.
  ghost function CheckpointSessionStep(
    read: Db, db: Db, redactor: Redactor, request: CheckpointRequest, event: EventId, draws: nat -> MemoryId): Reply
  {
    match ReadSession(read, request)
    case Err(error) => Refuse(db, error)
    case Ok(enriched) => CheckpointStep(db, redactor, enriched, event, draws)
  }
}
