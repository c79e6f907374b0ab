// What a session adds to a checkpoint, against the collection limits of the request.
module CheckpointLimits {
  import opened Basics
  import opened Domain
  import opened Database
  import opened CheckpointSession
  import opened SessionRetry
  import opened TimeTravel
  import AttemptCoalescing

  // The request leaves room for `n` more evidence sources, notes and attempts.
  predicate HasRoom(request: CheckpointRequest, n: nat) {
    && CheckpointFits(request)
    && |request.evidence| + n <= MAX_EVIDENCE_ITEMS
    && |request.verification| + n <= MAX_COLLECTION_ITEMS
    && |request.attempts| + n <= MAX_COLLECTION_ITEMS
  }

  // Every event adds at most one of each.
  lemma {:induction false} GatheredCounts(g: Gathering, events: seq<Event>)
    ensures var all := Gather(g, events);
            && |all.evidence| <= |g.evidence| + |events|
            && |all.verification| <= |g.verification| + |events|
            && |all.attempts| <= |g.attempts| + |events|
  {
    hide GatherEvent;
    if events != [] {
      var n := |events| - 1;
      GatheredCounts(g, events[..n]);
      EventCounts(Gather(g, events[..n]), events[n]);
    }
  }

  lemma EventCounts(g: Gathering, event: Event)
    ensures var more := GatherEvent(g, event);
            && |more.evidence| <= |g.evidence| + 1
            && |more.verification| <= |g.verification| + 1
            && |more.attempts| <= |g.attempts| + 1
  {
    hide ClassifyEvent, ClosesFailure, AttemptOf, IsUserPrompt, IsGenericGoal, RelationOf;
  }

  // A request with room for its slice stays within the limits, whatever earlier
  // failures are found; room for a full slice is always enough.
  lemma FilledFits(request: CheckpointRequest, events: seq<Event>, session: string, prior: map<string, string>)
    requires HasRoom(request, |Ambient(events, request.scope, session)|) || HasRoom(request, SESSION_LIMIT)
    ensures CheckpointFits(Filled(request, Gathered(request, events, session), prior))
  {
    hide Ambient, Gather, AttemptCoalescing.Coalesced;
    var slice := Ambient(events, request.scope, session);
    AmbientSlice(events, request.scope, session);
    GatheredCounts(Start(request), slice);
    AttemptCoalescing.CoalescedIsShort(Gathered(request, events, session).attempts, prior);
  }

  // With such room a retry that is not answered from its receipt is a conflict.
  lemma RoomyRetry(latest: Db, db: Db, first: CheckpointRequest, stable: bool, receipt: Receipt)
    requires first.scope.sessionId.Some?
    requires HasRoom(first, |Ambient(db.events, first.scope, first.scope.sessionId.value)|)
        || HasRoom(first, SESSION_LIMIT)
    ensures Retried(latest, db, first, stable, receipt) == Answer(latest, stable, receipt)
  {
    hide Ambient, Gathered, RecordedFailures, HasRoom;
    var session := first.scope.sessionId.value;
    var keys := AttemptCoalescing.AutomaticKeys(Gathered(first, db.events, session).attempts);
    FilledFits(first, db.events, session, RecordedFailures(db, first.scope.Durable(), keys));
  }
}
