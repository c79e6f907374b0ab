// Two concrete schedules of a session checkpoint: an event logged between its
// two transactions makes the honest retry fail, unless a later checkpoint of the
// session hides it.
module InterleavedRetryExample {
  import opened Basics
  import opened Domain
  import opened Database
  import opened Ledger
  import opened Extension
  import opened TimeTravel
  import opened CheckpointSession
  import opened CheckpointAcceptance
  import opened CheckpointLimits
  import opened SessionRetry
  import AttemptCoalescing

  const PLACE: Scope := Scope("n", None, Some("s"), None)

  const REQUEST: CheckpointRequest :=
    CheckpointRequest(Some("retry-key"), PLACE, "goal", "summary", SuccessOutcome, [], [], [], [], [], [], 0, [])

  const BETWEEN: Event := Event(7, FileChange, PLACE, "edited", NO_ATTRIBUTES)
  const OTHER: Event := Event(6, Checkpoint, PLACE, "other", NO_ATTRIBUTES)
  const DRAWS: nat -> MemoryId := i => i

  // The store after the other writer's event, and after that writer's checkpoint.
  const BUSY: Db := Logged(EMPTY, BETWEEN)
  const HIDDEN: Db := Logged(BUSY, OTHER)

  lemma SentRequest()
    ensures Enriched(EMPTY, REQUEST, "s", None) == REQUEST
  {
    hide AttemptCoalescing.Coalesced;
    AttemptCoalescing.NothingCoalesced(map[]);
    assert SessionRows([], PLACE, "s", SESSION_LIMIT) == [];
    assert Ambient([], PLACE, "s") == [];
    assert AttemptCoalescing.AutomaticKeys([]) == {};
  }

  lemma SafeRequest()
    ensures RedactCheckpoint(PLAIN, REQUEST) == REQUEST
  {
    var safe := RedactCheckpoint(PLAIN, REQUEST);
    assert safe.verification == [] && safe.decisions == [] && safe.attempts == [] && safe.openTasks == [];
    assert safe.artifacts == [] && safe.evidence == [] && safe.tags == [];
  }

  lemma NothingCited()
    ensures EvidenceEvents(REQUEST.evidence) == {}
  {
  }

  lemma NewestIsBetween()
    ensures NewestBetween(EMPTY, BUSY, PLACE, "s") == Some(BETWEEN)
  {
    assert BUSY.events[|EMPTY.events|..] == [BETWEEN];
    assert InSession(BETWEEN, PLACE, "s");
    var rows := SessionRows([BETWEEN], PLACE, "s", 1);
    assert rows == [BETWEEN] + SessionRows([BETWEEN][..0], PLACE, "s", 0);
    assert rows[0] == BETWEEN;
  }

  lemma NewestIsOther()
    ensures NewestBetween(EMPTY, HIDDEN, PLACE, "s") == Some(OTHER)
  {
    assert HIDDEN.events[|EMPTY.events|..] == [BETWEEN, OTHER];
    assert InSession(OTHER, PLACE, "s");
    var rows := SessionRows([BETWEEN, OTHER], PLACE, "s", 1);
    assert rows == [OTHER] + SessionRows([BETWEEN, OTHER][..1], PLACE, "s", 0);
    assert rows[0] == OTHER;
  }

  lemma BusyIsFine()
    ensures Inv(BUSY) && BUSY.idempotency == map[] && BUSY.events == [BETWEEN] && BUSY.heads == map[]
    ensures Extends(EMPTY, BUSY)
  {
    hide Inv;
    EmptyInv();
    assert !HasEvent(EMPTY, 7);
    InsertEventKeepsInv(EMPTY, BETWEEN);
    LoggingExtends(EMPTY, BETWEEN);
    assert BUSY.events == [] + [BETWEEN];
  }

  lemma HiddenIsFine()
    ensures Inv(HIDDEN) && HIDDEN.idempotency == map[] && HIDDEN.events == [BETWEEN, OTHER] && HIDDEN.heads == map[]
    ensures Extends(EMPTY, HIDDEN)
  {
    hide Inv, Extends;
    BusyIsFine();
    assert !HasEvent(BUSY, 6) by { assert [BETWEEN][..0] == []; }
    InsertEventKeepsInv(BUSY, OTHER);
    LoggingExtends(BUSY, OTHER);
    assert EventsDistinct(HIDDEN) by { NumberedInv(HIDDEN); }
    ExtendsTransitive(EMPTY, BUSY, HIDDEN);
  }

  // The request, read from the empty store, is accepted by either store.
  lemma FirstAccepted(db: Db)
    requires Inv(db) && db.idempotency == map[] && db.heads == map[] && !HasEvent(db, 8)
    ensures Accepted(EMPTY, db, PLAIN, REQUEST, 8, DRAWS)
    ensures CheckpointSessionStep(EMPTY, db, PLAIN, REQUEST, 8, DRAWS).result.Ok?
    ensures CheckpointSessionStep(EMPTY, db, PLAIN, REQUEST, 8, DRAWS) == CheckpointStep(db, PLAIN, REQUEST, 8, DRAWS)
  {
    hide Inv, Enriched, CheckpointWrites, RedactCheckpoint, Scope.Durable, HasEvent;
    SentRequest();
    SafeRequest();
    assert ValidateEvidence(db, [], PLACE) == Ok(());
    assert Drawable(db, DRAWS, 1);
    CheckpointIsAccepted(db, PLAIN, REQUEST, 8, DRAWS);
  }

  lemma RoomForSession()
    ensures HasRoom(REQUEST, SESSION_LIMIT)
  {
  }

  // What the first execution left behind is extended by itself.
  lemma FirstCommitted(db: Db)
    requires Accepted(EMPTY, db, PLAIN, REQUEST, 8, DRAWS)
    requires CheckpointSessionStep(EMPTY, db, PLAIN, REQUEST, 8, DRAWS) == CheckpointStep(db, PLAIN, REQUEST, 8, DRAWS)
    ensures var first := CheckpointSessionStep(EMPTY, db, PLAIN, REQUEST, 8, DRAWS);
            Inv(first.db) && Extends(first.db, first.db)
  {
    hide Inv, Extends, CheckpointWrites, RedactCheckpoint, Scope.Durable, Enriched;
    CommittedReceipt(db, PLAIN, REQUEST, 8, DRAWS);
    ExtendsReflexive(CheckpointStep(db, PLAIN, REQUEST, 8, DRAWS).db);
  }

  // The first execution reads an empty session, another event commits, the
  // checkpoint commits; repeating the very same request then conflicts.
  lemma InterleavedRetryConflicts()
    ensures var first := CheckpointSessionStep(EMPTY, BUSY, PLAIN, REQUEST, 8, DRAWS);
            && Inv(BUSY) && UniqueLive(BUSY)
            && first.result.Ok?
            && CheckpointSessionStep(first.db, first.db, PLAIN, REQUEST, 9, DRAWS) == Refuse(first.db, Conflict)
  {
    hide Inv, Extends, CheckpointSessionStep, Scope.Durable, NewestBetween, Undisturbed, Faithful, EvidenceEvents,
      HasRoom, Retried, Accepted, CheckpointStep;
    BusyIsFine();
    assert !HasEvent(BUSY, 8) by { assert [BETWEEN][..0] == []; }
    FirstAccepted(BUSY);
    FirstCommitted(BUSY);
    NewestIsBetween();
    NothingCited();
    SameRequestReflexive(REQUEST);
    var first := CheckpointSessionStep(EMPTY, BUSY, PLAIN, REQUEST, 8, DRAWS);
    RetryExact(EMPTY, BUSY, first.db, first.db, PLAIN, REQUEST, REQUEST, 8, DRAWS, 9, DRAWS);
    RoomForSession();
    RoomyRetry(first.db, BUSY, REQUEST, false, first.result.value);
  }

  // If a checkpoint of the session follows that event, the slice of the retry is
  // empty, as the first one was: the receipt comes back.
  lemma HiddenEventConverges()
    ensures var first := CheckpointSessionStep(EMPTY, HIDDEN, PLAIN, REQUEST, 8, DRAWS);
            && BETWEEN in HIDDEN.events && BETWEEN.id !in EvidenceEvents(REQUEST.evidence)
            && first.result.Ok?
            && CheckpointSessionStep(first.db, first.db, PLAIN, REQUEST, 9, DRAWS)
               == Replay(first.db, first.result.value)
  {
    hide Inv, Extends, CheckpointSessionStep, Scope.Durable, NewestBetween, Faithful, EvidenceEvents, Enriched;
    HiddenIsFine();
    assert !HasEvent(HIDDEN, 8) by { assert [BETWEEN, OTHER][..1] == [BETWEEN]; }
    FirstAccepted(HIDDEN);
    FirstCommitted(HIDDEN);
    NewestIsOther();
    NothingCited();
    SentRequest();
    SameRequestReflexive(REQUEST);
    var first := CheckpointSessionStep(EMPTY, HIDDEN, PLAIN, REQUEST, 8, DRAWS);
    RetryExact(EMPTY, HIDDEN, first.db, first.db, PLAIN, REQUEST, REQUEST, 8, DRAWS, 9, DRAWS);
  }
}
