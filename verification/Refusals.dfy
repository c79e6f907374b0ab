// When a write is accepted and why it is refused, told from the store and the request.
module Refusals {
  import opened Basics
  import opened Domain
  import opened Database
  import opened AttachmentTables
  import opened Ledger
  import opened AttemptKeys
  import opened StoredRequests
  import opened Strings
  import CheckpointAcceptance
  import CheckpointSession
  import Extension
  import ReadBack
  import SessionEvents
  import Text

  // --- evidence ---------------------------------------------------------

  // A relation says something and fits its column.
  predicate FitRelation(relation: string) {
    (exists i | 0 <= i < |relation| :: !Blank(relation[i])) && Text.ByteLen(relation) <= 64
  }

  predicate LoggedAt(events: seq<Event>, id: EventId, i: nat) {
    && i < |events| && events[i].id == id
    && forall j | i < j < |events| :: events[j].id != id
  }

  predicate IsLogged(events: seq<Event>, id: EventId) { exists i | 0 <= i < |events| :: events[i].id == id }

  // The span cuts the content into three texts, the middle one not empty.
  ghost predicate FitSpan(source: Evidence, content: string) {
    match (source.spanStart, source.spanEnd)
    case (None, None) => true
    case (Some(start), Some(end)) => Cuts(content, start, end)
    case _ => false
  }

  ghost predicate Cuts(content: string, start: nat, end: nat) {
    exists before, cited, after :: CutsInto(content, before, cited, after, start, end)
  }

  predicate CutsInto(content: string, before: string, cited: string, after: string, start: nat, end: nat) {
    && content == before + cited + after && cited != ""
    && Text.ByteLen(before) == start && Text.ByteLen(before + cited) == end
  }

  // Why a source is refused, first reason first.
  ghost predicate FaultOf(db: Db, source: Evidence, scope: Scope, fault: Option<Error>) {
    || (!FitRelation(source.relation) && fault == Some(InvalidInput))
    || (FitRelation(source.relation) && !IsLogged(db.events, source.event) && fault == Some(NotFound))
    || (FitRelation(source.relation)
        && exists i: nat :: LoggedAt(db.events, source.event, i)
             && fault == if !SameEventScope(db.events[i].scope, scope) then Some(Conflict)
                         else if !FitSpan(source, db.events[i].content) then Some(InvalidInput) else None)
  }

  ghost predicate FitSource(db: Db, source: Evidence, scope: Scope) { FaultOf(db, source, scope, None) }

  lemma {:induction false} ByteLenGrows(text: string, m: nat, n: nat)
    requires m < n <= |text|
    ensures Text.ByteLen(text[..m]) < Text.ByteLen(text[..n])
  {
    assert text[..n][..n - 1] == text[..n - 1];
    if m < n - 1 { ByteLenGrows(text, m, n - 1); }
  }

  lemma BoundariesCut(content: string, m: nat, n: nat)
    requires m <= |content| && n <= |content| && Text.ByteLen(content[..m]) < Text.ByteLen(content[..n])
    ensures Cuts(content, Text.ByteLen(content[..m]), Text.ByteLen(content[..n]))
  {
    hide Text.ByteLen;
    if n <= m { ByteLenGrowsTo(content, n, m); }
    assert content == content[..m] + content[m..n] + content[n..];
    assert content[..m] + content[m..n] == content[..n];
    assert CutsInto(content, content[..m], content[m..n], content[n..], Text.ByteLen(content[..m]),
                    Text.ByteLen(content[..n]));
  }

  lemma ByteLenGrowsTo(text: string, m: nat, n: nat)
    requires m <= n <= |text|
    ensures Text.ByteLen(text[..m]) <= Text.ByteLen(text[..n])
  {
    if m < n { ByteLenGrows(text, m, n); }
  }

  lemma CutsAreBoundaries(content: string, before: string, cited: string, after: string, start: nat, end: nat)
    requires CutsInto(content, before, cited, after, start, end)
    ensures start < end <= Text.ByteLen(content) && IsCharBoundary(content, start) && IsCharBoundary(content, end)
  {
    hide Text.ByteLen;
    var m, n := |before|, |before + cited|;
    assert content[..m] == before && content[..n] == before + cited && content[..|content|] == content;
    ByteLenGrows(content, m, n);
    ByteLenGrowsTo(content, n, |content|);
  }

  lemma SpanIs(source: Evidence, content: string)
    ensures ValidSpan(source, content) == FitSpan(source, content)
  {
    hide Text.ByteLen, CutsInto;
    if source.spanStart.Some? && source.spanEnd.Some? {
      var start, end := source.spanStart.value, source.spanEnd.value;
      if ValidSpan(source, content) {
        var m: nat :| 0 <= m <= |content| && Text.ByteLen(content[..m]) == start;
        var n: nat :| 0 <= n <= |content| && Text.ByteLen(content[..n]) == end;
        BoundariesCut(content, m, n);
      }
      if Cuts(content, start, end) {
        var before, cited, after :| CutsInto(content, before, cited, after, start, end);
        CutsAreBoundaries(content, before, cited, after, start, end);
      }
    }
  }

  lemma RelationIs(relation: string)
    ensures ValidRelation(relation) == FitRelation(relation)
  {
    hide TrimStart, TrimEnd, Text.ByteLen;
    SessionEvents.BlankEnd(relation);
    SessionEvents.BlankStart(TrimEnd(relation));
    forall i | 0 <= i < |relation| ensures Blank(relation[i]) == IsBlank(relation[i]) { SameBlank(relation[i]); }
  }

  lemma {:induction false} SeqIsLast(events: seq<Event>, id: EventId)
    ensures SeqOf(events, id) > 0 <==> IsLogged(events, id)
    ensures SeqOf(events, id) > 0 ==> LoggedAt(events, id, SeqOf(events, id) - 1)
    ensures forall i: nat | LoggedAt(events, id, i) :: i == SeqOf(events, id) - 1
  {
    if events != [] && events[|events| - 1].id != id {
      var front := events[..|events| - 1];
      SeqIsLast(front, id);
      forall i: nat ensures LoggedAt(front, id, i) <==> LoggedAt(events, id, i) {
        assert forall j | 0 <= j < |front| :: front[j] == events[j];
      }
      if IsLogged(events, id) {
        var i :| 0 <= i < |events| && events[i].id == id;
        assert front[i].id == id;
      }
    }
  }

  lemma SourceIs(db: Db, source: Evidence, scope: Scope)
    ensures var r := ValidateSource(db, source, scope);
            forall fault :: FaultOf(db, source, scope, fault) <==> fault == if r.Err? then Some(r.error) else None
  {
    hide ValidRelation, FitRelation, ValidSpan, FitSpan, SeqOf, Scope.Durable, LoggedAt, SameEventScope;
    RelationIs(source.relation);
    SeqIsLast(db.events, source.event);
    var n := SeqOf(db.events, source.event);
    if n > 0 {
      SpanIs(source, db.events[n - 1].content);
      DurableScopeIsEventScope(db.events[n - 1].scope, scope);
    }
  }

  // Evidence is accepted when every source is; otherwise the first bad one decides.
  lemma {:induction false} EvidenceIsFit(db: Db, evidence: seq<Evidence>, scope: Scope)
    ensures var r := ValidateEvidence(db, evidence, scope);
            && (r.Ok? <==> forall i | 0 <= i < |evidence| :: FitSource(db, evidence[i], scope))
            && (r.Err? ==> exists i | 0 <= i < |evidence| ::
                  && (forall j | 0 <= j < i :: FitSource(db, evidence[j], scope))
                  && FaultOf(db, evidence[i], scope, Some(r.error)))
  {
    hide ValidateSource, FaultOf;
    if evidence != [] {
      SourceIs(db, evidence[0], scope);
      EvidenceIsFit(db, evidence[1..], scope);
      var rest := evidence[1..];
      assert forall i | 0 <= i < |rest| :: rest[i] == evidence[i + 1];
      if ValidateSource(db, evidence[0], scope).Ok? {
        assert FitSource(db, evidence[0], scope);
        if ValidateEvidence(db, rest, scope).Err? {
          var error := ValidateEvidence(db, rest, scope).error;
          var i :| 0 <= i < |rest| && (forall j | 0 <= j < i :: FitSource(db, rest[j], scope))
            && FaultOf(db, rest[i], scope, Some(error));
          forall j | 0 <= j < i + 1 ensures FitSource(db, evidence[j], scope) {
            if j > 0 { assert rest[j - 1] == evidence[j]; }
          }
          assert FaultOf(db, evidence[i + 1], scope, Some(error));
        }
      } else {
        assert !FitSource(db, evidence[0], scope);
        assert FaultOf(db, evidence[0], scope, Some(ValidateSource(db, evidence[0], scope).error));
      }
    }
  }

  // --- links ------------------------------------------------------------

  // A link points at a memory of the scope and says how.
  predicate FitLink(db: Db, link: LinkInput, scope: Scope) {
    && link.target in db.heads && db.heads[link.target].durable == scope.Durable() && FitRelation(link.relation)
  }

  function LinkFault(db: Db, link: LinkInput, scope: Scope): Option<Error> {
    if link.target !in db.heads then Some(NotFound)
    else if db.heads[link.target].durable != scope.Durable() then Some(Conflict)
    else if !FitRelation(link.relation) then Some(InvalidInput) else None
  }

  lemma {:induction false} LinksAreFit(db: Db, links: seq<LinkInput>, scope: Scope)
    ensures var r := ValidateLinks(db, links, scope);
            && (r.Ok? <==> forall i | 0 <= i < |links| :: FitLink(db, links[i], scope))
            && (r.Err? ==> exists i | 0 <= i < |links| ::
                  && (forall j | 0 <= j < i :: FitLink(db, links[j], scope))
                  && LinkFault(db, links[i], scope) == Some(r.error))
  {
    hide ValidRelation, FitRelation, Scope.Durable;
    if links != [] {
      RelationIs(links[0].relation);
      LinksAreFit(db, links[1..], scope);
      var rest := links[1..];
      assert forall i | 0 <= i < |rest| :: rest[i] == links[i + 1];
      if FitLink(db, links[0], scope) {
        if ValidateLinks(db, rest, scope).Err? {
          var error := ValidateLinks(db, rest, scope).error;
          var i :| 0 <= i < |rest| && (forall j | 0 <= j < i :: FitLink(db, rest[j], scope))
            && LinkFault(db, rest[i], scope) == Some(error);
          forall j | 0 <= j < i + 1 ensures FitLink(db, links[j], scope) {
            if j > 0 { assert rest[j - 1] == links[j]; }
          }
          assert LinkFault(db, links[i + 1], scope) == Some(error);
        }
      } else {
        assert LinkFault(db, links[0], scope).Some?;
      }
    }
  }

  // No link back to the memory itself, and none given twice.
  predicate DistinctLinks(links: seq<LinkInput>, id: MemoryId) {
    && (forall i | 0 <= i < |links| :: links[i].target != id)
    && (forall i, j | 0 <= i < j < |links| ::
          links[i].target != links[j].target || links[i].relation != links[j].relation)
  }

  lemma {:induction false} LinksAreDistinct(links: seq<LinkInput>, id: MemoryId, n: nat)
    requires n <= |links|
    ensures CheckLinks(links, id, n).Ok? == DistinctLinks(links[..n], id)
  {
    if n > 0 {
      LinksAreDistinct(links, id, n - 1);
      var front, all := links[..n - 1], links[..n];
      assert all == front + [links[n - 1]];
      if DistinctLinks(all, id) {
        assert forall i | 0 <= i < n - 1 :: front[i] == all[i];
        assert all[n - 1] == links[n - 1];
        assert forall j | 0 <= j < n - 1 :: all[j] == links[j];
      }
    }
  }

  // --- remember ---------------------------------------------------------

  predicate WithinLimits(request: MemoryRequest) {
    && |request.tags| <= 64 && |request.entities| <= 128 && |request.artifacts| <= 128
    && |request.evidence| <= 256 && |request.links| <= 128
  }

  function TrimSource(source: Evidence): Evidence { source.(relation := Trim(source.relation)) }

  function TrimLink(link: LinkInput): LinkInput { link.(relation := Trim(link.relation)) }

  function TrimmedLinks(links: seq<LinkInput>): seq<LinkInput> {
    seq(|links|, i requires 0 <= i < |links| => TrimLink(links[i]))
  }

  // The memory to write is known, and no link of the request leads back to it or repeats.
  ghost predicate Addressed(db: Db, redactor: Redactor, request: MemoryRequest, generated: MemoryId) {
    exists id :: IsAbout(db, redactor, request, generated, id) && DistinctLinks(TrimmedLinks(request.links), id)
  }

  ghost predicate Acceptable(db: Db, redactor: Redactor, request: MemoryRequest, event: EventId, generated: MemoryId) {
    && WithinLimits(request) && !IsLogged(db.events, event)
    && (forall i | 0 <= i < |request.evidence| :: FitSource(db, TrimSource(request.evidence[i]), request.scope))
    && (forall i | 0 <= i < |request.links| :: FitLink(db, TrimLink(request.links[i]), request.scope))
    && Addressed(db, redactor, request, generated)
  }

  lemma PreparedLists(redactor: Redactor, request: MemoryRequest)
    ensures var prepared := PrepareMemory(redactor, request);
            && prepared.scope == request.scope && prepared.links == TrimmedLinks(request.links)
            && |prepared.evidence| == |request.evidence|
            && forall i | 0 <= i < |request.evidence| :: prepared.evidence[i] == TrimSource(request.evidence[i])
  {
    hide StoreAll, Trim;
  }

  lemma AboutIsOne(
    db: Db, redactor: Redactor, request: MemoryRequest, generated: MemoryId, a: MemoryId, b: MemoryId)
    requires IsAbout(db, redactor, request, generated, a) && IsAbout(db, redactor, request, generated, b)
    ensures a == b
  {
    hide Scope.Durable;
  }

  // An addressed request resolves to its memory.
  lemma AddressedResolves(
    db: Db, redactor: Redactor, request: MemoryRequest, event: EventId, generated: MemoryId, id: MemoryId)
    requires IsAbout(db, redactor, request, generated, id)
    requires var prepared := PrepareMemory(redactor, request);
             && ValidateEvidence(db, prepared.evidence, prepared.scope).Ok?
             && ValidateLinks(db, prepared.links, prepared.scope).Ok?
             && CheckLinks(prepared.links, id, |prepared.links|).Ok?
    ensures Upsert(db, PrepareMemory(redactor, request), event, generated).Ok?
  {
    hide PrepareMemory, Written, ValidateEvidence, ValidateLinks, CheckLinks, Scope.Durable;
    PreparedTexts(redactor, request);
    var prepared := PrepareMemory(redactor, request);
    if request.memoryId.None? && request.key.Some? {
      var among := Candidates(db, request.scope.Durable(), request.kind, prepared.key.value);
      assert forall other :: other in among <==> AnswersTo(db, request, prepared.key.value, other);
    }
  }

  lemma UpsertIsAccepted(db: Db, redactor: Redactor, request: MemoryRequest, event: EventId, generated: MemoryId)
    requires var prepared := PrepareMemory(redactor, request);
             ValidateEvidence(db, prepared.evidence, prepared.scope).Ok?
             && ValidateLinks(db, prepared.links, prepared.scope).Ok?
    ensures Upsert(db, PrepareMemory(redactor, request), event, generated).Ok?
       <==> Addressed(db, redactor, request, generated)
  {
    hide PrepareMemory, Upsert, ValidateEvidence, ValidateLinks, CheckLinks, IsAbout, DistinctLinks;
    PreparedLists(redactor, request);
    var prepared := PrepareMemory(redactor, request);
    var links := prepared.links;
    assert links[..|links|] == links;
    if Upsert(db, prepared, event, generated).Ok? {
      var id := Upsert(db, prepared, event, generated).value.id;
      ResolvedIsAbout(db, redactor, request, event, generated);
      ReadBack.ResolvedIdentity(db, prepared, event, generated);
      LinksAreDistinct(links, id, |links|);
    }
    if id :| IsAbout(db, redactor, request, generated, id) && DistinctLinks(TrimmedLinks(request.links), id) {
      LinksAreDistinct(links, id, |links|);
      AddressedResolves(db, redactor, request, event, generated, id);
    }
  }

  lemma AddressedWhenLogged(db: Db, after: Db, redactor: Redactor, request: MemoryRequest, generated: MemoryId)
    requires after.heads == db.heads
    ensures Addressed(after, redactor, request, generated) == Addressed(db, redactor, request, generated)
  {
    hide DistinctLinks, Scope.Durable;
    forall id
      ensures IsAbout(after, redactor, request, generated, id) == IsAbout(db, redactor, request, generated, id)
    {
      if IsAbout(db, redactor, request, generated, id) {
        SameAddressees(after, db, redactor, request, generated, id);
      }
      if IsAbout(after, redactor, request, generated, id) {
        SameAddressees(db, after, redactor, request, generated, id);
      }
    }
  }

  lemma PartsAreFit(db: Db, redactor: Redactor, request: MemoryRequest)
    ensures var prepared := PrepareMemory(redactor, request);
            && (ValidateEvidence(db, prepared.evidence, prepared.scope).Ok?
                <==> forall i | 0 <= i < |request.evidence| ::
                       FitSource(db, TrimSource(request.evidence[i]), request.scope))
            && (ValidateLinks(db, prepared.links, prepared.scope).Ok?
                <==> forall i | 0 <= i < |request.links| :: FitLink(db, TrimLink(request.links[i]), request.scope))
  {
    hide PrepareMemory, ValidateEvidence, ValidateLinks, FitSource, FitLink, TrimSource, TrimLink;
    PreparedLists(redactor, request);
    var prepared := PrepareMemory(redactor, request);
    assert forall i | 0 <= i < |prepared.links| :: prepared.links[i] == TrimLink(request.links[i]);
    EvidenceIsFit(db, prepared.evidence, prepared.scope);
    LinksAreFit(db, prepared.links, prepared.scope);
  }

  // Under an unused key a memory is accepted exactly when it is within the
  // limits, its event is new, its evidence and links are fit, and the memory it
  // is about is known and not among its own links.
  lemma RememberIsAccepted(
    db: Db, redactor: Redactor, request: RememberRequest, event: EventId, generated: MemoryId)
    requires Inv(db)
    requires request.idempotencyKey.Some? ==>
               ScopedKey(RememberOperation, request.memory.scope.Durable(), request.idempotencyKey.value)
                 !in db.idempotency
    ensures RememberStep(db, redactor, request, event, generated).result.Ok?
       <==> Acceptable(db, redactor, request.memory, event, generated)
  {
    hide Inv, PrepareMemory, Upsert, ValidateEvidence, ValidateLinks, Scope.Durable, FitSource, FitLink, Addressed,
      RememberFingerprintOf, IsLogged, SeqOf, TrimSource, TrimLink;
    PreparedLists(redactor, request.memory);
    PartsAreFit(db, redactor, request.memory);
    SeqIsLast(db.events, event);
    var prepared := PrepareMemory(redactor, request.memory);
    if !HasEvent(db, event) && ValidateEvidence(db, prepared.evidence, prepared.scope).Ok?
       && ValidateLinks(db, prepared.links, prepared.scope).Ok?
    {
      var entry := Event(event, ExplicitMemory, prepared.scope, prepared.body, prepared.attributes);
      var logged := Logged(db, entry);
      InsertEventKeepsInv(db, entry);
      Extension.NumberedInv(logged);
      CheckpointAcceptance.EvidenceStaysValid(db, logged, prepared.evidence, prepared.scope);
      LinksStayValid(db, logged, prepared.links, prepared.scope);
      UpsertIsAccepted(logged, redactor, request.memory, event, generated);
      AddressedWhenLogged(db, logged, redactor, request.memory, generated);
    }
  }

  lemma {:induction false} LinksStayValid(db: Db, after: Db, links: seq<LinkInput>, scope: Scope)
    requires after.heads == db.heads
    ensures ValidateLinks(after, links, scope) == ValidateLinks(db, links, scope)
  {
    hide Scope.Durable, ValidRelation;
    if links != [] { LinksStayValid(db, after, links[1..], scope); }
  }

  // --- checkpoint -------------------------------------------------------

  // As many items as one checkpoint may carry; its episode takes fewer tags.
  predicate CheckpointWithinLimits(request: CheckpointRequest) {
    && |request.verification| <= 128 && |request.decisions| <= 128 && |request.attempts| <= 128
    && |request.openTasks| <= 128 && |request.artifacts| <= 128 && |request.tags| <= 64 && |request.evidence| <= 256
  }

  lemma SafeEvidence(redactor: Redactor, request: CheckpointRequest)
    ensures var safe := RedactCheckpoint(redactor, request);
            && |safe.evidence| == |request.evidence|
            && forall i | 0 <= i < |request.evidence| :: safe.evidence[i] == TrimSource(request.evidence[i])
  {
    hide Trim;
  }

  // Under an unused key and with fresh identifiers a checkpoint is accepted exactly
  // when it is within the limits, its event is new, and its evidence is fit.
  lemma CheckpointIsAcceptedWhen(
    db: Db, redactor: Redactor, request: CheckpointRequest, event: EventId, draws: nat -> MemoryId)
    requires Inv(db)
    requires CheckpointAcceptance.Drawable(
               db, draws, 1 + |request.decisions| + |request.attempts| + |request.openTasks|)
    requires request.idempotencyKey.Some? ==>
               ScopedKey(CheckpointOperation, request.scope.Durable(), request.idempotencyKey.value) !in db.idempotency
    ensures CheckpointStep(db, redactor, request, event, draws).result.Ok?
       <==> && CheckpointWithinLimits(request) && !IsLogged(db.events, event)
            && forall i | 0 <= i < |request.evidence| :: FitSource(db, TrimSource(request.evidence[i]), request.scope)
  {
    hide Inv, CheckpointStep, RedactCheckpoint, ValidateEvidence, Scope.Durable, FitSource, IsLogged, SeqOf,
      TrimSource, CheckpointAcceptance.Drawable;
    CheckpointAcceptance.CheckpointIsAccepted(db, redactor, request, event, draws);
    SafeEvidence(redactor, request);
    EvidenceIsFit(db, RedactCheckpoint(redactor, request).evidence, request.scope);
    SeqIsLast(db.events, event);
  }

  // --- observe and retract ----------------------------------------------

  // Under an unused key an observation is accepted exactly when its event is new.
  lemma ObserveIsAccepted(db: Db, redactor: Redactor, request: ObserveRequest, generated: EventId)
    requires request.idempotencyKey.Some? ==>
               ScopedKey(ObserveOperation, request.scope.Durable(), request.idempotencyKey.value) !in db.idempotency
    ensures var id := if request.eventId.Some? then request.eventId.value else generated;
            ObserveStep(db, redactor, request, generated).result.Ok? <==> !IsLogged(db.events, id)
  {
    hide SeqOf, IsLogged, ObserveFingerprintOf, PrepareObserve;
    SeqIsLast(db.events, if request.eventId.Some? then request.eventId.value else generated);
  }

  // Under an unused key a retraction is accepted exactly when the memory exists,
  // is not retracted yet, and the event is new; otherwise the first of these decides.
  lemma RetractIsAccepted(db: Db, redactor: Redactor, request: RetractRequest, event: EventId)
    requires Inv(db)
    requires request.memoryId in db.heads && request.idempotencyKey.Some? ==>
               RetractKey(db.heads[request.memoryId].durable.key.namespace, request.memoryId,
                          request.idempotencyKey.value) !in db.idempotency
    ensures var result := RetractStep(db, redactor, request, event).result;
            if request.memoryId !in db.heads then result == Err(NotFound)
            else if db.heads[request.memoryId].state == Retracted then result == Err(Conflict)
            else if IsLogged(db.events, event) then result == Err(ConstraintViolation)
            else result.Ok?
  {
    hide Inv, SeqOf, IsLogged, WithRetraction, Scope.Durable;
    SeqIsLast(db.events, event);
    if request.memoryId in db.heads { HasRevision(db, request.memoryId); }
  }

  lemma HasRevision(db: Db, id: MemoryId)
    requires Inv(db) && id in db.heads
    ensures HeadScope(db, id).Some?
  {
    hide EventsDistinct, RevisionsOrdered, HeadsRecorded, MetadataKinds, LinksGrounded, AssociationsGrounded,
      LedgerDeterminesState, IndexCoversHeads, ProjectionsCurrentOnce, ReceiptsGrounded;
  }

  // --- where a retry starts ---------------------------------------------

  // The answer of the retry lookup when a receipt is on record under the key: the
  // place and session of the event it names, or why there is none.
  lemma RetryPointIs(db: Db, request: CheckpointRequest, receipt: Receipt)
    requires request.idempotencyKey.Some?
    requires var key := ScopedKey(CheckpointOperation, request.scope.Durable(), request.idempotencyKey.value);
             key in db.idempotency && db.idempotency[key].receipt == receipt
    ensures var found := CheckpointSession.FindRetry(db, request);
            && (!IsLogged(db.events, receipt.eventId) ==> found == Err(Storage))
            && forall i: nat | LoggedAt(db.events, receipt.eventId, i) ::
                 found ==
                   if !SameEventScope(db.events[i].scope, request.scope) then Err(Conflict)
                   else if db.events[i].scope.sessionId.None? then Err(Migration)
                   else Ok(Some(CheckpointSession.RetryPoint(i + 1, db.events[i].scope.sessionId.value)))
  {
    hide SeqOf, Scope.Durable, Scope.Key, SameEventScope, IsLogged, LoggedAt;
    SeqIsLast(db.events, receipt.eventId);
    var n := SeqOf(db.events, receipt.eventId);
    if n > 0 { DurableScopeIsEventScope(db.events[n - 1].scope, request.scope); }
  }
}
