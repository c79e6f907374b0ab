// The read half of a session checkpoint, loop by loop.
module SessionReading {
  import opened Basics
  import opened Domain
  import opened Database
  import opened TimeTravel
  import opened CheckpointSession
  import Text
  import AttemptCoalescing
  import AttemptKeys
  import SessionSlice

  // --- the ambient slice ------------------------------------------------

  method ReverseEvents(items: seq<Event>) returns (reversed: seq<Event>)
    ensures reversed == Reversed(items)
  {
    reversed := [];
    var i := |items|;
    while i > 0
      invariant 0 <= i <= |items| && Reversed(items[i..]) == reversed
    {
      i := i - 1;
      assert items[i..][1..] == items[i + 1..];
      reversed := reversed + [items[i]];
    }
    assert items[0..] == items;
  }

  // Newest first, the rows stop at a checkpoint and end with a user prompt.
  method AmbientEvents(events: seq<Event>, scope: Scope, session: string) returns (slice: seq<Event>)
    ensures slice == Ambient(events, scope, session)
    ensures SessionSlice.ReadsExactly(events, scope, session, slice)
  {
    hide SessionRows, IsUserPrompt;
    var rows := SessionRows(events, scope, session, SESSION_LIMIT);
    slice := [];
    var i := 0;
    while i < |rows| && rows[i].kind != Checkpoint
      invariant 0 <= i <= |rows| && CutAtPrompt(rows) == slice + CutAtPrompt(rows[i..])
    {
      assert rows[i..][0] == rows[i] && rows[i..][1..] == rows[i + 1..];
      slice := slice + [rows[i]];
      if IsUserPrompt(rows[i]) { break; }
      i := i + 1;
    }
    if i < |rows| { assert rows[i..][0] == rows[i]; }
    assert CutAtPrompt(rows) == slice;
    slice := ReverseEvents(slice);
    var at := SessionSlice.SliceExact(events, scope, session);
  }

  // --- what the session's events add to the request ---------------------

  lemma EvidenceSnoc(evidence: seq<Evidence>, last: Evidence)
    ensures EvidenceEvents(evidence + [last]) == EvidenceEvents(evidence) + {last.event}
  {
    var all := evidence + [last];
    assert all[|evidence|] == last && forall i | 0 <= i < |evidence| :: all[i] == evidence[i];
  }

  method GatherAttempts(request: CheckpointRequest, events: seq<Event>) returns (gathered: Gathering)
    ensures gathered == Gather(Start(request), events)
  {
    hide ClassifyEvent, ClosesFailure, AttemptOf, IsUserPrompt, IsGenericGoal, RelationOf, Text.TruncateToTokens;
    var goal, evidence, verification := request.goal, request.evidence, request.verification;
    var attempts: seq<AttemptCoalescing.AutomaticAttempt> := [];
    var seen := EvidenceEvents(request.evidence);
    for i := 0 to |events|
      invariant seen == EvidenceEvents(evidence)
      invariant Gather(Start(request), events[..i]) == Gathering(goal, evidence, verification, attempts)
    {
      hide EvidenceEvents;
      assert events[..i + 1][..i] == events[..i];
      var event := events[i];
      if event.id !in seen {
        EvidenceSnoc(evidence, Evidence(event.id, RelationOf(event.kind)));
        seen := seen + {event.id};
        evidence := evidence + [Evidence(event.id, RelationOf(event.kind))];
      }
      if IsUserPrompt(event) && IsGenericGoal(goal) { goal := Text.TruncateToTokens(event.content, 256); }
      var reason := ClassifyEvent(event);
      if reason.Some? || ClosesFailure(event) {
        var attempt := AttemptOf(event);
        attempts := attempts + [attempt];
        if reason == Some(AttemptCoalescing.VerificationReason) {
          var note := attempt.action + ": " + attempt.result;
          if note !in verification { verification := verification + [note]; }
        }
      }
    }
    assert events[..|events|] == events;
    return Gathering(goal, evidence, verification, attempts);
  }

  // --- earlier failures -------------------------------------------------

  // The first row in query order.
  method SelectFirst(rank: Rank, rows: set<RevisionId>) returns (first: RevisionId)
    requires rows != {}
    ensures IsFirst(rank, first, rows)
  {
    first :| first in rows;
    var rest := rows - {first};
    while rest != {}
      invariant rest <= rows && first in rows && first !in rest
      invariant IsFirst(rank, first, rows - rest)
    {
      var next :| next in rest;
      assert rows - (rest - {next}) == (rows - rest) + {next};
      if Precedes(rank, next, first) { first := next; }
      rest := rest - {next};
    }
    assert rows - rest == rows;
  }

  // The result of the first row, if there are rows.
  method FirstResult(db: Db, rank: Rank, rows: set<RevisionId>) returns (result: Option<string>)
    requires forall at | at in rows :: at in db.revisions
    ensures result == FirstText(db, rank, rows)
  {
    hide ResultText, Precedes;
    if rows == {} { return None; }
    var first := SelectFirst(rank, rows);
    FirstUnique(rank, first, First(rank, rows), rows);
    return Some(ResultText(db.revisions[first]));
  }

  // Keeps the result of the first row of every key.
  method LoadFailedCheckpointAttempts(db: Db, scope: Scope, keys: set<string>, before: Option<nat>)
    returns (failed: map<string, string>)
    ensures failed == PreviousFailures(db, scope, keys, before)
  {
    hide LiveKeyed, HistoricalKeyed, LiveRank, HistoricalRank, FirstText, LiveFailures, HistoricalFailures,
      Scope.Durable;
    failed := map[];
    var rest := keys;
    NothingToLook(db, scope.Durable());
    assert keys - rest == {};
    while rest != {}
      invariant rest <= keys
      invariant before.None? ==> failed == LiveFailures(db, scope.Durable(), keys - rest)
      invariant before.Some? ==> failed == HistoricalFailures(db, scope.Durable(), keys - rest, before.value)
    {
      var key :| key in rest;
      assert keys - (rest - {key}) == (keys - rest) + {key};
      if before.Some? {
        KeyedRowsStored(db, scope.Durable(), key, before.value);
        HistoricalFailuresSnoc(db, scope.Durable(), keys - rest, key, before.value);
        var result := FirstResult(db, HistoricalRank(db), HistoricalKeyed(db, scope.Durable(), key, before.value));
        if result.Some? { failed := failed[key := result.value]; }
      } else {
        KeyedRowsStored(db, scope.Durable(), key, 0);
        LiveFailuresSnoc(db, scope.Durable(), keys - rest, key);
        var result := FirstResult(db, LiveRank(db), LiveKeyed(db, scope.Durable(), key));
        if result.Some? { failed := failed[key := result.value]; }
      }
      rest := rest - {key};
    }
    assert keys - rest == keys;
  }

  lemma LiveFailuresSnoc(db: Db, durable: DurableScope, done: set<string>, key: string)
    ensures var result := LiveResult(db, durable, key);
            LiveFailures(db, durable, done + {key})
            == if result.None? then LiveFailures(db, durable, done)
               else LiveFailures(db, durable, done)[key := result.value]
  {
    hide LiveResult;
  }

  lemma HistoricalFailuresSnoc(db: Db, durable: DurableScope, done: set<string>, key: string, boundary: nat)
    ensures var result := HistoricalResult(db, durable, key, boundary);
            HistoricalFailures(db, durable, done + {key}, boundary)
            == if result.None? then HistoricalFailures(db, durable, done, boundary)
               else HistoricalFailures(db, durable, done, boundary)[key := result.value]
  {
    hide HistoricalResult;
  }

  lemma NothingToLook(db: Db, durable: DurableScope)
    ensures LiveFailures(db, durable, {}) == map[]
    ensures forall boundary :: HistoricalFailures(db, durable, {}, boundary) == map[]
  {
  }

  // --- the enriched request ---------------------------------------------

  method Enrich(db: Db, request: CheckpointRequest, session: string, before: Option<nat>)
    returns (enriched: CheckpointRequest)
    ensures enriched == Enriched(db, request, session, before)
  {
    hide Ambient, Gather, PreviousFailures, AttemptCoalescing.Coalesced, AttemptKeys.CanonicalKey;
    var events := AmbientEvents(Visible(db, before), request.scope, session);
    var gathered := GatherAttempts(request, events);
    var failed := LoadFailedCheckpointAttempts(db, request.scope, AttemptCoalescing.AutomaticKeys(gathered.attempts),
        before);
    var coalesced := AttemptCoalescing.CoalesceCheckpointAttempts(gathered.attempts, failed);
    enriched := request.(goal := gathered.goal, evidence := gathered.evidence, verification := gathered.verification,
                         attempts := request.attempts + coalesced);
  }
}
