// What repeating a session checkpoint does: exactly when it converges, and when
// it is refused.
module SessionRetry {
  import opened Basics
  import opened Domain
  import opened Database
  import opened Ledger
  import opened Extension
  import opened TimeTravel
  import opened CheckpointSession
  import AttemptCoalescing

  // The same request up to session and worktree details.
  predicate SameRequest(a: CheckpointRequest, b: CheckpointRequest) {
    a.(scope := a.scope.Stabilize()) == b.(scope := b.scope.Stabilize())
  }

  lemma {:induction false} SameScopeSameRows(
    events: seq<Event>, a: Scope, b: Scope, session: string, limit: nat)
    requires a.Durable() == b.Durable()
    ensures SessionRows(events, a, session, limit) == SessionRows(events, b, session, limit)
  {
    if limit > 0 && events != [] {
      var front, last := events[..|events| - 1], events[|events| - 1];
      SameScopeSameRows(front, a, b, session, limit - 1);
      SameScopeSameRows(front, a, b, session, limit);
      DurableScopeIsEventScope(last.scope, a);
      DurableScopeIsEventScope(last.scope, b);
    }
  }

  lemma SameRequestReflexive(request: CheckpointRequest)
    ensures SameRequest(request, request)
  {
  }

  lemma SameRequestFacts(a: CheckpointRequest, b: CheckpointRequest)
    requires SameRequest(a, b)
    ensures a.scope.Durable() == b.scope.Durable() && a.scope.Key() == b.scope.Key()
    ensures a.scope.workspaceId == b.scope.workspaceId && a.idempotencyKey == b.idempotencyKey
    ensures Start(a) == Start(b) && a.attempts == b.attempts
  {
    DurableScopeIsEventScope(a.scope, b.scope);
    assert a.(scope := a.scope.Stabilize()).idempotencyKey == b.(scope := b.scope.Stabilize()).idempotencyKey;
    assert a.(scope := a.scope.Stabilize()).goal == b.(scope := b.scope.Stabilize()).goal;
    assert a.(scope := a.scope.Stabilize()).evidence == b.(scope := b.scope.Stabilize()).evidence;
    assert a.(scope := a.scope.Stabilize()).verification == b.(scope := b.scope.Stabilize()).verification;
    assert a.(scope := a.scope.Stabilize()).attempts == b.(scope := b.scope.Stabilize()).attempts;
    assert a.scope.Stabilize() == b.scope.Stabilize();
  }

  lemma SameRequestFits(a: CheckpointRequest, b: CheckpointRequest)
    requires SameRequest(a, b)
    ensures CheckpointFits(a) == CheckpointFits(b)
  {
    assert CheckpointFits(a.(scope := a.scope.Stabilize())) == CheckpointFits(b.(scope := b.scope.Stabilize()));
  }

  // What is fingerprinted does not depend on the session or the key.
  lemma SameFingerprint(redactor: Redactor, a: CheckpointRequest, b: CheckpointRequest)
    requires SameRequest(a, b)
    ensures CheckpointFingerprintOf(RedactCheckpoint(redactor, a))
        == CheckpointFingerprintOf(RedactCheckpoint(redactor, b))
  {
    var stable := a.(scope := a.scope.Stabilize());
    assert RedactCheckpoint(redactor, a).(scope := a.scope.Stabilize()) == RedactCheckpoint(redactor, stable);
    assert RedactCheckpoint(redactor, b).(scope := b.scope.Stabilize()) == RedactCheckpoint(redactor, stable);
  }

  lemma SameRequestReplaced(a: CheckpointRequest, b: CheckpointRequest, x: CheckpointRequest, y: CheckpointRequest)
    requires SameRequest(a, b)
    requires x == a.(goal := x.goal, evidence := x.evidence, verification := x.verification, attempts := x.attempts)
    requires y == b.(goal := x.goal, evidence := x.evidence, verification := x.verification, attempts := x.attempts)
    ensures SameRequest(x, y)
  {
    assert a.(scope := a.scope.Stabilize()).(goal := x.goal, evidence := x.evidence, verification := x.verification,
        attempts := x.attempts)
        == x.(scope := x.scope.Stabilize());
    assert b.(scope := b.scope.Stabilize()).(goal := x.goal, evidence := x.evidence, verification := x.verification,
        attempts := x.attempts)
        == y.(scope := y.scope.Stabilize());
  }

  // --- the request a retry rebuilds -------------------------------------

  // The request a retry will rebuild after a commit on `db`: the events logged
  // by then, and its heads ordered by when they were recorded.
  ghost function Rebuilt(db: Db, request: CheckpointRequest, session: string): CheckpointRequest {
    var g := Gathered(request, db.events, session);
    Filled(request, g, RecordedFailures(db, request.scope.Durable(), AttemptCoalescing.AutomaticKeys(g.attempts)))
  }

  lemma NoKeysNoFailures(db: Db, durable: DurableScope)
    ensures RecordedFailures(db, durable, {}) == map[] && LiveFailures(db, durable, {}) == map[]
  {
  }

  // `t` still has the log of `s`, and its historical lookups at the boundary of
  // `s` still answer what the heads of `s` said.
  ghost predicate Recalls(s: Db, t: Db) {
    && s.events <= t.events
    && forall durable, keys :: HistoricalFailures(t, durable, keys, Boundary(s)) == RecordedFailures(s, durable, keys)
  }

  // Every later store does.
  lemma LaterRecalls(s: Db, t: Db)
    requires Inv(s) && Inv(t) && Extends(s, t)
    ensures Recalls(s, t)
  {
    hide Inv, RevisionsGrow, LedgersGrow, HeadsPersist, ReceiptsPersist, HistoricalFailures, RecordedFailures;
    forall durable, keys
      ensures HistoricalFailures(t, durable, keys, Boundary(s)) == RecordedFailures(s, durable, keys)
    {
      TimeTravelResults(s, t, durable, keys);
    }
  }

  // On such a store, and from any session, a retry rebuilds just that.
  lemma RebuiltRequest(
    db: Db, later: Db, first: CheckpointRequest, again: CheckpointRequest, session: string)
    requires Recalls(db, later) && SameRequest(first, again)
    requires |later.events| > |db.events|
    ensures SameRequest(Rebuilt(db, first, session), Enriched(later, again, session, Some(Boundary(db))))
  {
    hide Gather, RecordedFailures, HistoricalFailures, AttemptCoalescing.Coalesced, SessionRows, Scope.Durable,
      AttemptCoalescing.AutomaticKeys, Start, CutAtPrompt;
    SameRequestFacts(first, again);
    assert Visible(later, Some(Boundary(db))) == db.events;
    SameScopeSameRows(db.events, first.scope, again.scope, session, SESSION_LIMIT);
    var g := Gathered(first, db.events, session);
    assert g == Gathered(again, db.events, session);
    NoKeysNoFailures(db, first.scope.Durable());
    SameRequestReplaced(first, again, Rebuilt(db, first, session), Enriched(later, again, session, Some(Boundary(db))));
  }

  // What a fresh, accepted checkpoint leaves behind.
  lemma CommittedReceipt(db: Db, redactor: Redactor, request: CheckpointRequest, event: EventId, draws: nat -> MemoryId)
    requires Inv(db) && request.idempotencyKey.Some?
    requires ScopedKey(CheckpointOperation, request.scope.Durable(), request.idempotencyKey.value) !in db.idempotency
    requires CheckpointStep(db, redactor, request, event, draws).result.Ok?
    ensures var reply := CheckpointStep(db, redactor, request, event, draws);
            var key := ScopedKey(CheckpointOperation, request.scope.Durable(), request.idempotencyKey.value);
            && key in reply.db.idempotency
            && reply.db.idempotency[key] == IdempotencyRow(
                 CheckpointFingerprintOf(RedactCheckpoint(redactor, request)), reply.result.value)
            && reply.result.value.eventId == event
            && |reply.db.events| == |db.events| + 1
            && reply.db.events[|db.events|].id == event && reply.db.events[|db.events|].scope == request.scope
            && Extends(db, reply.db) && Inv(reply.db)
  {
    hide Inv, Extends, CheckpointWrites, RedactCheckpoint, Scope.Durable, CheckpointAttributes, CheckpointFingerprintOf;
    var safe := RedactCheckpoint(redactor, request);
    RedactionKeepsScope(redactor, request);
    CheckpointWritesKeepInv(db, redactor, safe, event, draws);
    CheckpointKeepsInv(db, redactor, request, event, draws);
    CheckpointExtends(db, redactor, request, event, draws);
  }

  lemma SeqOfIndex(events: seq<Event>, i: nat)
    requires i < |events| && forall j, k | 0 <= j < k < |events| :: events[j].id != events[k].id
    ensures SeqOf(events, events[i].id) == i + 1
  {
  }

  // A store that kept log and receipts finds the retry point of the committed
  // checkpoint.
  lemma RetryFound(
    db: Db, committed: Db, later: Db, first: CheckpointRequest, again: CheckpointRequest, receipt: Receipt,
    fingerprint: Fingerprint)
    requires EventsDistinct(later) && committed.events <= later.events && ReceiptsPersist(committed, later)
    requires first.idempotencyKey.Some? && first.scope.sessionId.Some? && SameRequest(first, again)
    requires |committed.events| == |db.events| + 1
    requires committed.events[|db.events|].id == receipt.eventId && committed.events[|db.events|].scope == first.scope
    requires var key := ScopedKey(CheckpointOperation, first.scope.Durable(), first.idempotencyKey.value);
             key in committed.idempotency && committed.idempotency[key] == IdempotencyRow(fingerprint, receipt)
    ensures FindRetry(later, again) == Ok(Some(RetryPoint(Boundary(db), first.scope.sessionId.value)))
  {
    hide SeqOf, Scope.Durable, SameRequest;
    SameRequestFacts(first, again);
    assert later.events[|db.events|] == committed.events[|db.events|];
    SeqOfIndex(later.events, |db.events|);
  }

  // A store that kept the receipts answers from the receipt.
  lemma ReceiptFound(
    committed: Db, latest: Db, first: CheckpointRequest, again: CheckpointRequest, receipt: Receipt,
    fingerprint: Fingerprint)
    requires ReceiptsPersist(committed, latest) && first.idempotencyKey.Some? && SameRequest(first, again)
    requires var key := ScopedKey(CheckpointOperation, first.scope.Durable(), first.idempotencyKey.value);
             key in committed.idempotency && committed.idempotency[key] == IdempotencyRow(fingerprint, receipt)
    ensures var key := ScopedIdempotencyKey(CheckpointOperation, again.scope, again.idempotencyKey);
            && GetIdempotent(latest, key, fingerprint) == Ok(Some(receipt))
            && forall other | other != fingerprint :: GetIdempotent(latest, key, other) == Err(Conflict)
  {
    hide Scope.Durable, SameRequest;
    SameRequestFacts(first, again);
  }

  lemma EnrichedKeepsAddress(db: Db, request: CheckpointRequest, session: string, before: Option<nat>)
    ensures Enriched(db, request, session, before).scope == request.scope
    ensures Enriched(db, request, session, before).idempotencyKey == request.idempotencyKey
  {
  }

  lemma LogsGrow(s: Db, t: Db)
    requires Extends(s, t)
    ensures s.events <= t.events && ReceiptsPersist(s, t)
  {
    hide RevisionsGrow, LedgersGrow, HeadsPersist, ReceiptsPersist;
  }

  // --- the outcome, read off the two stores of the first execution ------

  // A keyed session checkpoint that was accepted: the session was read from
  // `read`, the checkpoint committed on `db`.
  ghost predicate Accepted(
    read: Db, db: Db, redactor: Redactor, first: CheckpointRequest, event: EventId, draws: nat -> MemoryId)
  {
    && Inv(db)
    && first.idempotencyKey.Some? && first.scope.sessionId.Some?
    && FindRetry(read, first) == Ok(None)
    && ScopedKey(CheckpointOperation, first.scope.Durable(), first.idempotencyKey.value) !in db.idempotency
    && CheckpointSessionStep(read, db, redactor, first, event, draws).result.Ok?
  }

  // Whether the stored fingerprint will be the one a retry presents.
  ghost predicate Stable(read: Db, db: Db, redactor: Redactor, first: CheckpointRequest)
    requires first.scope.sessionId.Some?
  {
    var session := first.scope.sessionId.value;
    CheckpointFingerprintOf(RedactCheckpoint(redactor, Enriched(read, first, session, None)))
    == CheckpointFingerprintOf(RedactCheckpoint(redactor, Rebuilt(db, first, session)))
  }

  // What a retry answers: the receipt, or a conflict, unless the rebuilt request
  // exceeds the collection limits, which are checked first.
  ghost function Retried(latest: Db, db: Db, first: CheckpointRequest, stable: bool, receipt: Receipt): Reply
    requires first.scope.sessionId.Some?
  {
    if stable then Replay(latest, receipt)
    else
      var rebuilt := Rebuilt(db, first, first.scope.sessionId.value);
      Refuse(latest, if CheckpointFits(rebuilt) then Conflict else InvalidInput)
  }

  // Both fingerprints are taken over as many items.
  lemma StableFits(read: Db, db: Db, redactor: Redactor, first: CheckpointRequest)
    requires first.scope.sessionId.Some? && Stable(read, db, redactor, first)
    ensures var session := first.scope.sessionId.value;
            CheckpointFits(Rebuilt(db, first, session)) == CheckpointFits(Enriched(read, first, session, None))
  {
    hide Enriched, Rebuilt, RedactCheckpoint;
    var session := first.scope.sessionId.value;
    var sent, rebuilt := Enriched(read, first, session, None), Rebuilt(db, first, session);
    RedactionKeepsCounts(redactor, sent);
    RedactionKeepsCounts(redactor, rebuilt);
    SameFields(RedactCheckpoint(redactor, sent), RedactCheckpoint(redactor, rebuilt));
  }

  lemma RedactionKeepsCounts(redactor: Redactor, request: CheckpointRequest)
    ensures CheckpointFits(RedactCheckpoint(redactor, request)) == CheckpointFits(request)
  {
  }

  // A retry that reads a store with the committed log and receipts, which still
  // recalls the boundary, and writes to one with the receipts, returns the first
  // receipt or is refused according to the two stores of the first execution
  // alone; the store does not change either way.
  lemma RetryAnswers(
    read: Db, db: Db, later: Db, latest: Db, redactor: Redactor, first: CheckpointRequest, again: CheckpointRequest,
    event: EventId, draws: nat -> MemoryId, event2: EventId, draws2: nat -> MemoryId)
    requires Accepted(read, db, redactor, first, event, draws)
    requires EventsDistinct(later) && Recalls(db, later)
    requires var committed := CheckpointSessionStep(read, db, redactor, first, event, draws).db;
             && committed.events <= later.events && ReceiptsPersist(committed, later)
             && ReceiptsPersist(committed, latest)
    requires SameRequest(first, again) && again.scope.sessionId.Some?
    ensures CheckpointSessionStep(later, latest, redactor, again, event2, draws2)
         == Retried(latest, db, first, Stable(read, db, redactor, first),
                    CheckpointSessionStep(read, db, redactor, first, event, draws).result.value)
  {
    hide Inv, Extends, RedactCheckpoint, CheckpointWrites, Scope.Durable, SameRequest, CheckpointFingerprintOf,
      GetIdempotent, FindRetry, Enriched, Rebuilt, ScopedIdempotencyKey, CheckpointFits, Recalls, ReceiptsPersist,
      EventsDistinct;
    var session := first.scope.sessionId.value;
    var sent := Enriched(read, first, session, None);
    EnrichedKeepsAddress(read, first, session, None);
    var reply := CheckpointStep(db, redactor, sent, event, draws);
    CommittedReceipt(db, redactor, sent, event, draws);
    var fingerprint := CheckpointFingerprintOf(RedactCheckpoint(redactor, sent));
    RetryFound(db, reply.db, later, first, again, reply.result.value, fingerprint);
    ReceiptFound(reply.db, latest, first, again, reply.result.value, fingerprint);
    EnrichedKeepsAddress(later, again, session, Some(Boundary(db)));
    RebuiltRequest(db, later, first, again, session);
    SameFingerprint(redactor, Rebuilt(db, first, session), Enriched(later, again, session, Some(Boundary(db))));
    SameRequestFits(Rebuilt(db, first, session), Enriched(later, again, session, Some(Boundary(db))));
    if Stable(read, db, redactor, first) { StableFits(read, db, redactor, first); }
  }

  // So does every retry whatever is committed before it reads the session and
  // between its read and its write.
  lemma RetryOutcome(
    read: Db, db: Db, later: Db, latest: Db, redactor: Redactor, first: CheckpointRequest, again: CheckpointRequest,
    event: EventId, draws: nat -> MemoryId, event2: EventId, draws2: nat -> MemoryId)
    requires Accepted(read, db, redactor, first, event, draws)
    requires Inv(later) && Extends(CheckpointSessionStep(read, db, redactor, first, event, draws).db, later)
    requires Inv(latest) && Extends(later, latest)
    requires SameRequest(first, again) && again.scope.sessionId.Some?
    ensures CheckpointSessionStep(later, latest, redactor, again, event2, draws2)
         == Retried(latest, db, first, Stable(read, db, redactor, first),
                    CheckpointSessionStep(read, db, redactor, first, event, draws).result.value)
  {
    hide Inv, Extends, CheckpointSessionStep, Scope.Durable, SameRequest, FindRetry, Stable, Recalls, ReceiptsPersist;
    var committed := CheckpointSessionStep(read, db, redactor, first, event, draws).db;
    CommitExtends(read, db, redactor, first, event, draws);
    NumberedInv(later);
    NumberedInv(latest);
    ExtendsTransitive(db, committed, later);
    ExtendsTransitive(committed, later, latest);
    LogsGrow(committed, later);
    LogsGrow(committed, latest);
    LaterRecalls(db, later);
    RetryAnswers(read, db, later, latest, redactor, first, again, event, draws, event2, draws2);
  }

  lemma CommitExtends(
    read: Db, db: Db, redactor: Redactor, first: CheckpointRequest, event: EventId, draws: nat -> MemoryId)
    requires Accepted(read, db, redactor, first, event, draws)
    ensures var committed := CheckpointSessionStep(read, db, redactor, first, event, draws).db;
            Extends(db, committed) && Inv(committed)
  {
    hide Inv, Extends, CheckpointStep, Scope.Durable, FindRetry, Enriched;
    EnrichedKeepsAddress(read, first, first.scope.sessionId.value, None);
    CommittedReceipt(db, redactor, Enriched(read, first, first.scope.sessionId.value, None), event, draws);
  }

  // --- what was committed in between ------------------------------------

  // The newest event of the session logged after `read`.
  function NewestBetween(read: Db, db: Db, scope: Scope, session: string): Option<Event>
    requires |read.events| <= |db.events|
  {
    var rows := SessionRows(db.events[|read.events|..], scope, session, 1);
    if rows == [] then None else Some(rows[0])
  }

  lemma {:induction false} SessionRowsAppend(
    earlier: seq<Event>, added: seq<Event>, scope: Scope, session: string, limit: nat)
    requires limit > 0
    ensures var newest := SessionRows(added, scope, session, 1);
            && (newest == [] ==>
                  SessionRows(earlier + added, scope, session, limit) == SessionRows(earlier, scope, session, limit))
            && (newest != [] ==>
                  (var rows := SessionRows(earlier + added, scope, session, limit);
                   rows != [] && rows[0] == newest[0] && newest[0] in added))
  {
    hide InSession;
    if added == [] {
      assert earlier + added == earlier;
    } else {
      var n := |added| - 1;
      assert (earlier + added)[..|earlier| + n] == earlier + added[..n];
      assert (earlier + added)[|earlier| + n] == added[n];
      SessionRowsAppend(earlier, added[..n], scope, session, limit);
      assert added == added[..n] + [added[n]];
    }
  }

  // Without an event of the session in between, both slices are the same.
  lemma SameSlice(read: Db, db: Db, scope: Scope, session: string)
    requires read.events <= db.events && NewestBetween(read, db, scope, session).None?
    ensures Ambient(db.events, scope, session) == Ambient(read.events, scope, session)
  {
    hide InSession, SessionRows;
    assert db.events == read.events + db.events[|read.events|..];
    SessionRowsAppend(read.events, db.events[|read.events|..], scope, session, SESSION_LIMIT);
  }

  // A checkpoint in between empties the slice; any other event ends it.
  lemma SliceAfter(read: Db, db: Db, scope: Scope, session: string)
    requires read.events <= db.events && NewestBetween(read, db, scope, session).Some?
    ensures var newest := NewestBetween(read, db, scope, session).value;
            && newest in db.events[|read.events|..]
            && (newest.kind == Checkpoint ==> Ambient(db.events, scope, session) == [])
            && (newest.kind != Checkpoint ==> newest in Ambient(db.events, scope, session))
  {
    hide InSession, SessionRows, IsUserPrompt;
    assert db.events == read.events + db.events[|read.events|..];
    SessionRowsAppend(read.events, db.events[|read.events|..], scope, session, SESSION_LIMIT);
    var rows := SessionRows(db.events, scope, session, SESSION_LIMIT);
    var cut := CutAtPrompt(rows);
    if rows[0].kind != Checkpoint {
      assert cut[0] == rows[0];
      ReversedAt(cut, |cut| - 1);
      assert Reversed(cut)[|cut| - 1] in Reversed(cut);
    }
  }

  function IdsOf(events: seq<Event>): set<EventId> { set i | 0 <= i < |events| :: events[i].id }

  lemma EvidenceGrows(g: Gathering, event: Event)
    ensures EvidenceEvents(GatherEvent(g, event).evidence) == EvidenceEvents(g.evidence) + {event.id}
    ensures g.evidence <= GatherEvent(g, event).evidence && g.verification <= GatherEvent(g, event).verification
  {
    hide ClassifyEvent, ClosesFailure, AttemptOf, IsUserPrompt, IsGenericGoal, RelationOf;
    var added := Evidence(event.id, RelationOf(event.kind));
    var all := g.evidence + [added];
    assert all[|g.evidence|] == added && forall i | 0 <= i < |g.evidence| :: all[i] == g.evidence[i];
    assert EvidenceEvents(all) == EvidenceEvents(g.evidence) + {event.id};
  }

  // Gathering cites every event once more than nothing and only appends.
  lemma {:induction false} GatheredEvidence(g: Gathering, events: seq<Event>)
    ensures EvidenceEvents(Gather(g, events).evidence) == EvidenceEvents(g.evidence) + IdsOf(events)
    ensures g.evidence <= Gather(g, events).evidence && g.verification <= Gather(g, events).verification
  {
    hide GatherEvent, EvidenceEvents;
    if events == [] {
      assert IdsOf(events) == {};
    } else {
      var n := |events| - 1;
      GatheredEvidence(g, events[..n]);
      EvidenceGrows(Gather(g, events[..n]), events[n]);
      assert IdsOf(events) == IdsOf(events[..n]) + {events[n].id} by {
        assert forall i | 0 <= i < n :: events[..n][i] == events[i];
      }
    }
  }

  lemma RedactedEvidenceEvents(redactor: Redactor, request: CheckpointRequest)
    ensures EvidenceEvents(RedactCheckpoint(redactor, request).evidence) == EvidenceEvents(request.evidence)
  {
    var safe := RedactCheckpoint(redactor, request);
    assert |safe.evidence| == |request.evidence|;
    assert forall i | 0 <= i < |request.evidence| :: safe.evidence[i].event == request.evidence[i].event;
  }

  // An event of the session logged in between is cited by the retry only.
  lemma NewEvidenceUnstable(read: Db, db: Db, redactor: Redactor, first: CheckpointRequest)
    requires EventsDistinct(db) && read.events <= db.events && first.scope.sessionId.Some?
    requires var newest := NewestBetween(read, db, first.scope, first.scope.sessionId.value);
             newest.Some? && newest.value.kind != Checkpoint && newest.value.id !in EvidenceEvents(first.evidence)
    ensures !Stable(read, db, redactor, first)
  {
    hide Ambient, Gather, AttemptCoalescing.Coalesced, RedactCheckpoint, EvidenceEvents, PreviousFailures,
      RecordedFailures, AttemptCoalescing.AutomaticKeys;
    var session := first.scope.sessionId.value;
    var newest := NewestBetween(read, db, first.scope, session).value;
    SliceAfter(read, db, first.scope, session);
    AmbientSlice(read.events, first.scope, session);
    var before, after := Ambient(read.events, first.scope, session), Ambient(db.events, first.scope, session);
    GatheredEvidence(Start(first), before);
    GatheredEvidence(Start(first), after);
    assert newest.id in IdsOf(after);
    assert newest.id !in IdsOf(before) by { NewIdIsNew(read, db, newest, before); }
    var sent, rebuilt := Enriched(read, first, session, None), Rebuilt(db, first, session);
    RedactedEvidenceEvents(redactor, sent);
    RedactedEvidenceEvents(redactor, rebuilt);
    assert newest.id in EvidenceEvents(rebuilt.evidence) && newest.id !in EvidenceEvents(sent.evidence);
  }

  lemma NewIdIsNew(read: Db, db: Db, event: Event, slice: seq<Event>)
    requires EventsDistinct(db) && read.events <= db.events && event in db.events[|read.events|..]
    requires forall i | 0 <= i < |slice| :: slice[i] in read.events
    ensures event.id !in IdsOf(slice)
  {
    var k :| |read.events| <= k < |db.events| && db.events[k] == event;
    forall i | 0 <= i < |slice| ensures slice[i].id != event.id {
      var j :| 0 <= j < |read.events| && read.events[j] == slice[i];
      assert db.events[j] == slice[i];
    }
  }

  // --- exactly when a retry converges -----------------------------------

  // Redaction that keeps texts apart, as it does when it is switched off.
  ghost predicate Faithful(redactor: Redactor) {
    forall x, y :: redactor.text(x) == redactor.text(y) ==> x == y
  }

  lemma PlainIsFaithful()
    ensures Faithful(PLAIN)
  {
  }

  // What must not have happened between the two transactions: no event of the
  // session but a checkpoint that leaves nothing to add, and without one no
  // change in what the failing heads of the attempted keys report.
  ghost predicate Undisturbed(read: Db, db: Db, first: CheckpointRequest)
    requires |read.events| <= |db.events| && first.scope.sessionId.Some?
  {
    var session := first.scope.sessionId.value;
    match NewestBetween(read, db, first.scope, session)
    case None =>
      var keys := AttemptCoalescing.AutomaticKeys(Gathered(first, read.events, session).attempts);
      LiveFailures(read, first.scope.Durable(), keys) == RecordedFailures(db, first.scope.Durable(), keys)
    case Some(newest) => newest.kind == Checkpoint && Enriched(read, first, session, None) == first
  }

  // The request cites no event logged after `read`.
  predicate CitesNothingNew(read: Db, db: Db, first: CheckpointRequest)
    requires |read.events| <= |db.events|
  {
    forall i | |read.events| <= i < |db.events| :: db.events[i].id !in EvidenceEvents(first.evidence)
  }

  lemma UndisturbedIsStable(read: Db, db: Db, redactor: Redactor, first: CheckpointRequest)
    requires read.events <= db.events && first.scope.sessionId.Some? && Undisturbed(read, db, first)
    ensures Stable(read, db, redactor, first)
  {
    hide Ambient, Gather, AttemptCoalescing.Coalesced, RedactCheckpoint, LiveFailures, RecordedFailures,
      AttemptCoalescing.AutomaticKeys, NewestBetween;
    var session := first.scope.sessionId.value;
    NoKeysNoFailures(read, first.scope.Durable());
    if NewestBetween(read, db, first.scope, session).None? {
      SameSlice(read, db, first.scope, session);
      assert Rebuilt(db, first, session) == Enriched(read, first, session, None);
    } else {
      SliceAfter(read, db, first.scope, session);
      EmptySliceAddsNothing(db, first, session);
    }
  }

  lemma EmptySliceAddsNothing(db: Db, request: CheckpointRequest, session: string)
    requires Ambient(db.events, request.scope, session) == []
    ensures Rebuilt(db, request, session) == request
  {
    hide Ambient, AttemptCoalescing.Coalesced, RecordedFailures;
    var g := Gathered(request, db.events, session);
    assert g == Start(request);
    AttemptCoalescing.NothingCoalesced(RecordedFailures(db, request.scope.Durable(),
        AttemptCoalescing.AutomaticKeys(g.attempts)));
  }

  lemma TextsTell(redactor: Redactor, a: seq<string>, b: seq<string>)
    requires Faithful(redactor) && RedactAll(redactor, a) == RedactAll(redactor, b)
    ensures a == b
  {
    assert |a| == |RedactAll(redactor, a)| == |b|;
    forall i | 0 <= i < |a| ensures a[i] == b[i] {
      assert RedactAll(redactor, a)[i] == RedactAll(redactor, b)[i];
    }
  }

  // Faithful redaction keeps goals, verification notes and attempts apart.
  lemma FingerprintTells(redactor: Redactor, a: CheckpointRequest, b: CheckpointRequest)
    requires Faithful(redactor)
    requires CheckpointFingerprintOf(RedactCheckpoint(redactor, a))
        == CheckpointFingerprintOf(RedactCheckpoint(redactor, b))
    ensures a.goal == b.goal && a.verification == b.verification && a.attempts == b.attempts
    ensures |a.evidence| == |b.evidence|
  {
    hide RedactAll, RedactArtifact;
    var x, y := RedactCheckpoint(redactor, a), RedactCheckpoint(redactor, b);
    SameFields(x, y);
    TextsTell(redactor, a.verification, b.verification);
    assert |a.attempts| == |x.attempts| == |b.attempts|;
    forall i | 0 <= i < |a.attempts| ensures a.attempts[i] == b.attempts[i] {
      assert x.attempts[i] == y.attempts[i];
    }
  }

  lemma SameFields(x: CheckpointRequest, y: CheckpointRequest)
    requires CheckpointFingerprintOf(x) == CheckpointFingerprintOf(y)
    ensures x.goal == y.goal && x.verification == y.verification && x.attempts == y.attempts && x.evidence == y.evidence
    ensures CheckpointFits(x) == CheckpointFits(y)
  {
    var a, b := x.(scope := x.scope.Stabilize(), idempotencyKey := None),
        y.(scope := y.scope.Stabilize(), idempotencyKey := None);
    assert a == b;
    assert CheckpointFits(a) == CheckpointFits(x) && CheckpointFits(b) == CheckpointFits(y);
    assert a.goal == x.goal && a.verification == x.verification && a.attempts == x.attempts && a.evidence == x.evidence;
  }

  // Different earlier failures make different requests.
  lemma PriorsTell(request: CheckpointRequest, g: Gathering, p: map<string, string>, q: map<string, string>)
    requires Filled(request, g, p).attempts == Filled(request, g, q).attempts
    requires p.Keys <= AttemptCoalescing.AutomaticKeys(g.attempts)
        && q.Keys <= AttemptCoalescing.AutomaticKeys(g.attempts)
    ensures p == q
  {
    hide AttemptCoalescing.Coalesced;
    var a, b := AttemptCoalescing.Coalesced(g.attempts, p), AttemptCoalescing.Coalesced(g.attempts, q);
    assert a == (request.attempts + a)[|request.attempts|..] && b == (request.attempts + b)[|request.attempts|..];
    AttemptCoalescing.CoalescedTellsPriors(g.attempts, p, q);
  }

  lemma StableIsUndisturbed(read: Db, db: Db, redactor: Redactor, first: CheckpointRequest)
    requires EventsDistinct(db) && read.events <= db.events && first.scope.sessionId.Some? && Faithful(redactor)
    requires CitesNothingNew(read, db, first)
    requires Stable(read, db, redactor, first)
    ensures Undisturbed(read, db, first)
  {
    hide Ambient, Gather, AttemptCoalescing.Coalesced, RedactCheckpoint, LiveResult, RecordedResult,
      AttemptCoalescing.AutomaticKeys, NewestBetween, EventsDistinct, CheckpointFingerprintOf;
    var session := first.scope.sessionId.value;
    var sent, rebuilt := Enriched(read, first, session, None), Rebuilt(db, first, session);
    FingerprintTells(redactor, sent, rebuilt);
    NoKeysNoFailures(read, first.scope.Durable());
    match NewestBetween(read, db, first.scope, session) {
      case None =>
        SameSlice(read, db, first.scope, session);
        var g := Gathered(first, read.events, session);
        var keys := AttemptCoalescing.AutomaticKeys(g.attempts);
        PriorsTell(first, g, LiveFailures(read, first.scope.Durable(), keys),
            RecordedFailures(db, first.scope.Durable(), keys));
      case Some(newest) =>
        SliceAfter(read, db, first.scope, session);
        if newest.kind != Checkpoint {
          NewEvidenceUnstable(read, db, redactor, first);
        } else {
          EmptySliceAddsNothing(db, first, session);
          GatheredEvidence(Start(first), Ambient(read.events, first.scope, session));
        }
    }
  }

  // Retrying a keyed session checkpoint that was read from `read` and committed
  // on the later store `db`; the retry reads from any later store and writes to a
  // later one still. If nothing disturbed the first execution in between, the
  // retry returns its receipt; with faithful redaction that is the only way. If
  // the newest event of the session logged in between is no checkpoint and the
  // request does not cite it, the retry is refused.
  lemma RetryExact(
    read: Db, db: Db, later: Db, latest: Db, redactor: Redactor, first: CheckpointRequest, again: CheckpointRequest,
    event: EventId, draws: nat -> MemoryId, event2: EventId, draws2: nat -> MemoryId)
    requires Extends(read, db) && Accepted(read, db, redactor, first, event, draws)
    requires Inv(later) && Extends(CheckpointSessionStep(read, db, redactor, first, event, draws).db, later)
    requires Inv(latest) && Extends(later, latest)
    requires SameRequest(first, again) && again.scope.sessionId.Some?
    ensures |read.events| <= |db.events|
    ensures var retried := CheckpointSessionStep(later, latest, redactor, again, event2, draws2);
            var receipt := CheckpointSessionStep(read, db, redactor, first, event, draws).result.value;
            var newest := NewestBetween(read, db, first.scope, first.scope.sessionId.value);
            && (Undisturbed(read, db, first) ==> retried == Replay(latest, receipt))
            && (newest.Some? && newest.value.kind != Checkpoint
                  && newest.value.id !in EvidenceEvents(first.evidence) ==>
                  retried == Retried(latest, db, first, false, receipt))
            && (Faithful(redactor) && CitesNothingNew(read, db, first) ==>
                  retried == Retried(latest, db, first, Undisturbed(read, db, first), receipt))
  {
    hide Inv, RevisionsGrow, LedgersGrow, HeadsPersist, ReceiptsPersist, Stable, Undisturbed, SameRequest, Faithful,
      CheckpointSessionStep, Scope.Durable, FindRetry, Rebuilt, CheckpointFits, NewestBetween, CitesNothingNew;
    assert EventsDistinct(db) by { NumberedInv(db); }
    RetryOutcome(read, db, later, latest, redactor, first, again, event, draws, event2, draws2);
    var newest := NewestBetween(read, db, first.scope, first.scope.sessionId.value);
    if Undisturbed(read, db, first) { UndisturbedIsStable(read, db, redactor, first); }
    if newest.Some? && newest.value.kind != Checkpoint && newest.value.id !in EvidenceEvents(first.evidence) {
      NewEvidenceUnstable(read, db, redactor, first);
    }
    if Faithful(redactor) && CitesNothingNew(read, db, first) && Stable(read, db, redactor, first) {
      StableIsUndisturbed(read, db, redactor, first);
    }
  }

  // --- nothing in between -----------------------------------------------

  // No key attempted in the session has its failing heads swapped by a contest
  // or a shared event.
  ghost predicate Settled(db: Db, first: CheckpointRequest)
    requires first.scope.sessionId.Some?
  {
    var g := Gathered(first, db.events, first.scope.sessionId.value);
    forall key | key in AttemptCoalescing.AutomaticKeys(g.attempts) :: !Reordered(db, first.scope.Durable(), key)
  }

  lemma SettledIsUndisturbed(db: Db, first: CheckpointRequest)
    requires Inv(db) && first.scope.sessionId.Some?
    ensures Undisturbed(db, db, first) == Settled(db, first)
  {
    hide Inv, Ambient, Gather, AttemptCoalescing.AutomaticKeys, Scope.Durable, LiveFailures, RecordedFailures,
      Reordered;
    var session := first.scope.sessionId.value;
    assert db.events[|db.events|..] == [];
    assert SessionRows([], first.scope, session, 1) == [];
    RecordedAgreesIff(db, first.scope.Durable(),
        AttemptCoalescing.AutomaticKeys(Gathered(first, db.events, session).attempts));
  }

  // Retry convergence: when nothing is committed between the two transactions
  // of the first execution and the attempted keys are settled, repeating the
  // request after any run, from any session, returns the first receipt and leaves
  // the store alone, whatever runs between its own two transactions; with faithful
  // redaction exactly then, and it is refused otherwise.
  lemma RetryConverges(
    db: Db, redactor: Redactor, first: CheckpointRequest, again: CheckpointRequest, ops: seq<Op>,
    between: seq<Op>, event: EventId, draws: nat -> MemoryId, event2: EventId, draws2: nat -> MemoryId)
    requires Accepted(db, db, redactor, first, event, draws)
    requires SameRequest(first, again) && again.scope.sessionId.Some?
    ensures var reply := CheckpointSessionStep(db, db, redactor, first, event, draws);
            var later := Run(reply.db, redactor, ops);
            var latest := Run(later, redactor, between);
            var retried := CheckpointSessionStep(later, latest, redactor, again, event2, draws2);
            && (Settled(db, first) ==> retried == Replay(latest, reply.result.value))
            && (Faithful(redactor) ==> retried == Retried(latest, db, first, Settled(db, first), reply.result.value))
  {
    hide Inv, Extends, Settled, Undisturbed, SameRequest, Faithful, CheckpointStep, Scope.Durable, Run, Enriched,
      FindRetry;
    var sent := Enriched(db, first, first.scope.sessionId.value, None);
    EnrichedKeepsAddress(db, first, first.scope.sessionId.value, None);
    CommittedReceipt(db, redactor, sent, event, draws);
    var committed := CheckpointStep(db, redactor, sent, event, draws).db;
    RunKeeps(committed, redactor, ops);
    var later := Run(committed, redactor, ops);
    RunKeeps(later, redactor, between);
    ExtendsReflexive(db);
    SettledIsUndisturbed(db, first);
    var latest := Run(later, redactor, between);
    RetryExact(db, db, later, latest, redactor, first, again, event, draws, event2, draws2);
  }

  // Unique live keys are settled.
  lemma UniqueIsSettled(db: Db, first: CheckpointRequest)
    requires UniqueLive(db) && first.scope.sessionId.Some?
    ensures Settled(db, first)
  {
    hide UniqueLive, Reordered, AttemptCoalescing.AutomaticKeys, Gathered, Scope.Durable;
    var g := Gathered(first, db.events, first.scope.sessionId.value);
    forall key | key in AttemptCoalescing.AutomaticKeys(g.attempts) ensures !Reordered(db, first.scope.Durable(), key) {
      UniqueIsNotReordered(db, first.scope.Durable(), key);
    }
  }
}
