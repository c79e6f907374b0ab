// The failed-attempt lookup after a checkpoint: what was attempted under a key
// last is what a later checkpoint finds.
module FailedAttempts {
  import opened Basics
  import opened Domain
  import opened Database
  import opened Ledger
  import opened MemberHeads
  import opened ReadBack
  import opened TimeTravel
  import AttachmentTables
  import AttemptCoalescing
  import AttemptKeys
  import AttemptReports
  import CanonicalKeys
  import CheckpointSession
  import Strings

  // Keys pass the redactor with the checkpoint and again with the memory.
  function Twice(redactor: Redactor, text: string): string { redactor.text(redactor.text(text)) }

  function StoredKey(redactor: Redactor, key: Option<string>): Option<string> {
    match key
    case None => None
    case Some(text) => Some(Twice(redactor, text))
  }

  // --- the transaction --------------------------------------------------

  lemma CommittedCheckpoint(
    db: Db, redactor: Redactor, request: CheckpointRequest, event: EventId, draws: nat -> MemoryId)
    requires CheckpointStep(db, redactor, request, event, draws).db != db
    ensures var reply, safe := CheckpointStep(db, redactor, request, event, draws), RedactCheckpoint(redactor, request);
            var writes := CheckpointWrites(db, redactor, safe, event, draws);
            && writes.Ok? && reply.db == writes.value.db.(idempotency := reply.db.idempotency)
            && reply.result == Ok(Receipt(event, writes.value.ids, |writes.value.db.events|, false))
            && GetIdempotent(db, ScopedIdempotencyKey(CheckpointOperation, request.scope, request.idempotencyKey),
                             CheckpointFingerprintOf(safe)) == Ok(None)
  {
    hide GetIdempotent, ScopedIdempotencyKey, CheckpointFingerprintOf, CheckpointWrites, RedactCheckpoint;
  }

  lemma EpisodeAndMembers(
    db: Db, redactor: Redactor, safe: CheckpointRequest, event: EventId, draws: nat -> MemoryId)
    requires Inv(db) && CheckpointWrites(db, redactor, safe, event, draws).Ok?
    ensures var batch := CheckpointWrites(db, redactor, safe, event, draws).value;
            var entry := Event(event, Checkpoint, safe.scope, safe.summary, CheckpointAttributes(redactor, safe));
            var episode := Upsert(Logged(db, entry), PrepareMemory(redactor, EpisodeRequest(safe)), event, draws(0));
            && episode.Ok? && |batch.ids| >= 1 && batch.ids[0] == episode.value.id
            && batch.db.events == db.events + [entry]
            && OneCurrent(episode.value.db) && OnlyOne(Logged(db, entry), episode.value.db, batch.ids[0])
            && Tells(episode.value.db, batch.ids[0], PrepareMemory(redactor, EpisodeRequest(safe)))
            && BatchTells(episode.value.db, batch.db,
                          Prepared(redactor, MemberRequests(safe, batch.ids[0])), batch.ids[1..])
  {
    hide Inv, Upsert, UpsertAll, PrepareMemory, EpisodeRequest, MemberRequests, CheckpointAttributes, MemoryFits,
      ValidateEvidence, HasEvent, OneCurrent, Tells, BatchTells, OnlyOne, Plain;
    var entry := Event(event, Checkpoint, safe.scope, safe.summary, CheckpointAttributes(redactor, safe));
    var logged := Logged(db, entry);
    NothingCurrent(db, entry);
    PlainMembers(redactor, safe);
    UpsertTells(logged, PrepareMemory(redactor, EpisodeRequest(safe)), event, draws(0));
    var episode := Upsert(logged, PrepareMemory(redactor, EpisodeRequest(safe)), event, draws(0)).value;
    UpsertAllTells(episode.db, redactor, MemberRequests(safe, episode.id), event, draws);
    var members := UpsertAll(episode.db, redactor, MemberRequests(safe, episode.id), event, draws).value;
    var batch := CheckpointWrites(db, redactor, safe, event, draws).value;
    assert batch == Batch(members.db, [episode.id] + members.ids);
    assert batch.ids[1..] == members.ids;
    SameLog(logged, episode.db, members.db, Prepared(redactor, MemberRequests(safe, episode.id)), episode.id,
            members.ids);
  }

  lemma SameLog(logged: Db, episode: Db, after: Db, requests: seq<MemoryRequest>, id: MemoryId, ids: seq<MemoryId>)
    requires OnlyOne(logged, episode, id) && BatchTells(episode, after, requests, ids)
    ensures after.events == logged.events
  {
  }

  lemma NothingCurrent(db: Db, entry: Event)
    requires Inv(db)
    ensures OneCurrent(Logged(db, entry))
  {
    hide EventsDistinct, RevisionsNumbered, RevisionsOrdered, MetadataKinds, LinksGrounded, AssociationsGrounded,
      LedgerDeterminesState, IndexCoversHeads, ProjectionsCurrentOnce, ReceiptsGrounded, HeadRecorded, Scope.Durable;
  }

  lemma PlainMembers(redactor: Redactor, safe: CheckpointRequest)
    ensures Plain(PrepareMemory(redactor, EpisodeRequest(safe)))
    ensures forall episode, i | 0 <= i < |MemberRequests(safe, episode)| ::
              Plain(PrepareMemory(redactor, MemberRequests(safe, episode)[i]))
  {
    hide Quiet, PrepareMemory, MemberRequests;
    Unaddressed(redactor, EpisodeRequest(safe));
    assert Quiet(PrepareMemory(redactor, EpisodeRequest(safe))) by { MembersAreQuiet(redactor, safe, 0); }
    forall episode, i | 0 <= i < |MemberRequests(safe, episode)|
      ensures Plain(PrepareMemory(redactor, MemberRequests(safe, episode)[i]))
    {
      MembersAreQuiet(redactor, safe, episode);
      MembersUnaddressed(safe, episode);
      Unaddressed(redactor, MemberRequests(safe, episode)[i]);
    }
  }

  lemma Unaddressed(redactor: Redactor, request: MemoryRequest)
    ensures PrepareMemory(redactor, request).memoryId == request.memoryId
  {
  }

  lemma MembersUnaddressed(safe: CheckpointRequest, episode: MemoryId)
    ensures forall i | 0 <= i < |MemberRequests(safe, episode)| :: MemberRequests(safe, episode)[i].memoryId.None?
  {
  }

  // --- attempts and the lookup ------------------------------------------

  // No later attempt is stored under the same key.
  predicate LastUnderKey(redactor: Redactor, attempts: seq<CheckpointAttempt>, i: nat) {
    && i < |attempts| && attempts[i].key.Some?
    && forall j | i < j < |attempts| :: StoredKey(redactor, attempts[j].key) != StoredKey(redactor, attempts[i].key)
  }

  // Redaction of attributes rewrites texts, not flags.
  ghost predicate KeepsFlags(redactor: Redactor) {
    forall attributes ::
      && redactor.attributes(attributes).succeeded == attributes.succeeded
      && redactor.attributes(attributes).attemptResult ==
         match attributes.attemptResult
         case None => None
         case Some(text) => Some(redactor.text(text))
  }

  // The position of an attempt among the identifiers of the receipt.
  function AttemptAt(request: CheckpointRequest, i: nat): nat { 1 + |request.decisions| + i }

  lemma PreparedAttempt(redactor: Redactor, request: CheckpointRequest, episode: MemoryId, i: nat)
    requires KeepsFlags(redactor) && i < |request.attempts|
    ensures var members := Prepared(redactor, MemberRequests(RedactCheckpoint(redactor, request), episode));
            var at := |request.decisions| + i;
            && at < |members|
            && members[at].scope == request.scope && members[at].kind == Outcome
            && members[at].key == StoredKey(redactor, request.attempts[i].key)
            && members[at].attributes.succeeded == Some(request.attempts[i].succeeded)
            && members[at].attributes.attemptResult == Some(Twice(redactor, request.attempts[i].result))
  {
    hide PrepareMemory, AttemptRequest, DecisionRequest, TaskRequest, MemberRequests, KeepsFlags;
    var safe := RedactCheckpoint(redactor, request);
    MembersInOrder(safe, episode);
    AttemptFields(redactor, request, safe.attempts[i], request.attempts[i], safe, episode);
  }

  lemma AttemptFields(redactor: Redactor, request: CheckpointRequest, safeAttempt: CheckpointAttempt,
      attempt: CheckpointAttempt, safe: CheckpointRequest, episode: MemoryId)
    requires KeepsFlags(redactor) && safe.scope == request.scope
    requires safeAttempt.key == RedactOption(redactor, attempt.key) && safeAttempt.succeeded == attempt.succeeded
    requires safeAttempt.result == redactor.text(attempt.result)
    ensures var member := PrepareMemory(redactor, AttemptRequest(safe, safeAttempt, episode));
            && member.scope == request.scope && member.kind == Outcome
            && member.key == StoredKey(redactor, attempt.key)
            && member.attributes.succeeded == Some(attempt.succeeded)
            && member.attributes.attemptResult == Some(Twice(redactor, attempt.result))
  {
    hide AttachmentTables.StoreAll;
  }

  lemma MemberKinds(redactor: Redactor, request: CheckpointRequest, episode: MemoryId)
    ensures var members := Prepared(redactor, MemberRequests(RedactCheckpoint(redactor, request), episode));
            var d, a := |request.decisions|, |request.attempts|;
            && |members| == d + a + |request.openTasks|
            && (forall i | 0 <= i < |members| ::
                  members[i].kind == if i < d then Decision else if i < d + a then Outcome else Task)
  {
    hide AttachmentTables.StoreAll, OutcomeName, Strings.JoinWith;
  }

  lemma LastAttemptIsLast(redactor: Redactor, request: CheckpointRequest, episode: MemoryId, i: nat)
    requires KeepsFlags(redactor) && LastUnderKey(redactor, request.attempts, i)
    ensures IsLast(Prepared(redactor, MemberRequests(RedactCheckpoint(redactor, request), episode)),
                   |request.decisions| + i)
  {
    hide MemberRequests, Prepared, RedactCheckpoint, Scope.Durable, StoredKey, KeepsFlags;
    var members := Prepared(redactor, MemberRequests(RedactCheckpoint(redactor, request), episode));
    var d := |request.decisions|;
    MemberKinds(redactor, request, episode);
    PreparedAttempt(redactor, request, episode, i);
    forall j | d + i < j < |members| ensures !SharesKey(members[j], members[d + i]) {
      if j < d + |request.attempts| { PreparedAttempt(redactor, request, episode, j - d); }
    }
  }

  lemma TellsAside(db: Db, after: Db, id: MemoryId, request: MemoryRequest)
    requires after == db.(idempotency := after.idempotency) && OneCurrent(db) && Tells(db, id, request)
    ensures OneCurrent(after) && Tells(after, id, request)
  {
    hide Scope.Durable;
  }

  lemma ToldMembers(db: Db, after: Db, requests: seq<MemoryRequest>, ids: seq<MemoryId>, at: nat)
    requires BatchTells(db, after, requests, ids) && IsLast(requests, at)
    ensures at < |ids| && OneCurrent(after) && Tells(after, ids[at], requests[at])
  {
    hide OneCurrent, Tells, AllAddressed, OthersStay;
  }

  // The head an attempt ends on, when it is the last one under its key.
  lemma AttemptHead(
    db: Db, redactor: Redactor, request: CheckpointRequest, event: EventId, draws: nat -> MemoryId, i: nat,
    reply: Reply)
    returns (member: MemoryRequest)
    requires Inv(db) && reply == CheckpointStep(db, redactor, request, event, draws) && reply.db != db
    requires KeepsFlags(redactor) && LastUnderKey(redactor, request.attempts, i)
    ensures reply.result.Ok? && AttemptAt(request, i) < |reply.result.value.memoryIds|
    ensures OneCurrent(reply.db) && Tells(reply.db, reply.result.value.memoryIds[AttemptAt(request, i)], member)
    ensures member.scope == request.scope && member.kind == Outcome
    ensures member.key == StoredKey(redactor, request.attempts[i].key)
    ensures member.attributes.succeeded == Some(request.attempts[i].succeeded)
    ensures member.attributes.attemptResult == Some(Twice(redactor, request.attempts[i].result))
  {
    hide Inv, CheckpointWrites, CheckpointStep, RedactCheckpoint, MemberRequests, Prepared, EpisodeRequest, Upsert,
      PrepareMemory, BatchTells, OneCurrent, Tells, OnlyOne, StoredKey, KeepsFlags, Twice, LastUnderKey, IsLast,
      GetIdempotent, CheckpointFingerprintOf, CheckpointAttributes, Scope.Durable;
    CommittedCheckpoint(db, redactor, request, event, draws);
    var safe := RedactCheckpoint(redactor, request);
    EpisodeAndMembers(db, redactor, safe, event, draws);
    var batch := CheckpointWrites(db, redactor, safe, event, draws).value;
    var entry := Event(event, Checkpoint, safe.scope, safe.summary, CheckpointAttributes(redactor, safe));
    var episode := Upsert(Logged(db, entry), PrepareMemory(redactor, EpisodeRequest(safe)), event, draws(0)).value;
    var members, at := Prepared(redactor, MemberRequests(safe, batch.ids[0])), |request.decisions| + i;
    LastIsWithin(redactor, request.attempts, i);
    LastAttemptIsLast(redactor, request, batch.ids[0], i);
    PreparedAttempt(redactor, request, batch.ids[0], i);
    ToldMembers(episode.db, batch.db, members, batch.ids[1..], at);
    member := members[at];
    TellsAside(batch.db, reply.db, batch.ids[1 + at], member);
  }

  lemma LastIsWithin(redactor: Redactor, attempts: seq<CheckpointAttempt>, i: nat)
    requires LastUnderKey(redactor, attempts, i)
    ensures i < |attempts| && attempts[i].key.Some? && StoredKey(redactor, attempts[i].key).Some?
  {
  }

  // After an accepted checkpoint, looking a key up among failed attempts finds
  // the result of the last attempt under it, when that one failed.
  lemma FailureIsFound(
    db: Db, redactor: Redactor, request: CheckpointRequest, event: EventId, draws: nat -> MemoryId, i: nat)
    requires Inv(db) && CheckpointStep(db, redactor, request, event, draws).db != db
    requires KeepsFlags(redactor) && LastUnderKey(redactor, request.attempts, i) && !request.attempts[i].succeeded
    ensures var key := Twice(redactor, request.attempts[i].key.value);
            LiveFailures(CheckpointStep(db, redactor, request, event, draws).db, request.scope.Durable(), {key})
            == map[key := Twice(redactor, request.attempts[i].result)]
  {
    hide Inv, CheckpointStep, OneCurrent, Tells, KeepsFlags, Twice, Scope.Durable, LiveFailures;
    var reply := CheckpointStep(db, redactor, request, event, draws);
    var member := AttemptHead(db, redactor, request, event, draws, i, reply);
    CurrentFailureIsFound(reply.db, reply.result.value.memoryIds[AttemptAt(request, i)], member);
  }

  // --- everything else stays --------------------------------------------

  // The identifiers of the receipt are the heads the checkpoint wrote, and every
  // other memory is as it was.
  ghost predicate OnlyWrittenChange(db: Db, after: Db, ids: seq<MemoryId>) {
    && (forall j | 0 <= j < |ids| :: ids[j] in after.heads && after.heads[ids[j]].updatedSeq == |after.events|)
    && (forall id | id in after.heads && id !in ids :: id in db.heads && after.heads[id] == db.heads[id])
    && (forall id | id in db.heads :: id in after.heads)
    && (forall at: RevisionId | at.memory !in ids ::
          && (at in after.revisions <==> at in db.revisions)
          && (at in db.revisions ==> after.revisions[at] == db.revisions[at]))
  }

  lemma BatchChangesOnly(db: Db, episode: Db, after: Db, requests: seq<MemoryRequest>, id: MemoryId,
      first: MemoryRequest, ids: seq<MemoryId>)
    requires OnlyOne(db, episode, id) && Tells(episode, id, first) && BatchTells(episode, after, requests, ids)
    ensures OnlyWrittenChange(db, after, [id] + ids)
  {
    hide OneCurrent, LastAreTold, Scope.Durable;
    var all := [id] + ids;
    forall j | 0 <= j < |all| ensures all[j] in after.heads && after.heads[all[j]].updatedSeq == |after.events| {
      if j > 0 { assert all[j] == ids[j - 1]; }
    }
    StaysUnlessWritten(db, episode, after, id, ids);
  }

  lemma StaysUnlessWritten(db: Db, episode: Db, after: Db, id: MemoryId, ids: seq<MemoryId>)
    requires OnlyOne(db, episode, id) && OthersStay(episode, after, ids)
    ensures forall m | m in after.heads && m !in [id] + ids :: m in db.heads && after.heads[m] == db.heads[m]
    ensures forall m | m in db.heads :: m in after.heads
    ensures forall at: RevisionId | at.memory !in [id] + ids ::
              && (at in after.revisions <==> at in db.revisions)
              && (at in db.revisions ==> after.revisions[at] == db.revisions[at])
  {
    assert forall m :: m in [id] + ids <==> m == id || m in ids;
  }

  lemma CheckpointChangesOnly(
    db: Db, redactor: Redactor, request: CheckpointRequest, event: EventId, draws: nat -> MemoryId, reply: Reply)
    requires Inv(db) && reply == CheckpointStep(db, redactor, request, event, draws) && reply.db != db
    ensures reply.result.Ok? && |reply.db.events| == |db.events| + 1
    ensures OnlyWrittenChange(db, reply.db, reply.result.value.memoryIds)
  {
    hide Inv, CheckpointWrites, CheckpointStep, RedactCheckpoint, MemberRequests, Prepared, EpisodeRequest, Upsert,
      PrepareMemory, BatchTells, OneCurrent, Tells, OnlyOne, GetIdempotent, CheckpointFingerprintOf,
      CheckpointAttributes, Scope.Durable, OnlyWrittenChange;
    CommittedCheckpoint(db, redactor, request, event, draws);
    var safe := RedactCheckpoint(redactor, request);
    EpisodeAndMembers(db, redactor, safe, event, draws);
    var batch := CheckpointWrites(db, redactor, safe, event, draws).value;
    var entry := Event(event, Checkpoint, safe.scope, safe.summary, CheckpointAttributes(redactor, safe));
    var logged := Logged(db, entry);
    var first := PrepareMemory(redactor, EpisodeRequest(safe));
    var episode := Upsert(logged, first, event, draws(0)).value;
    assert batch.ids == [batch.ids[0]] + batch.ids[1..];
    BatchChangesOnly(logged, episode.db, batch.db, Prepared(redactor, MemberRequests(safe, batch.ids[0])),
                     batch.ids[0], first, batch.ids[1..]);
    ChangeAside(logged, db, batch.db, reply.db, batch.ids);
  }

  lemma ChangeAside(logged: Db, db: Db, before: Db, after: Db, ids: seq<MemoryId>)
    requires OnlyWrittenChange(logged, before, ids)
    requires logged == db.(events := logged.events) && after == before.(idempotency := after.idempotency)
    ensures OnlyWrittenChange(db, after, ids)
  {
  }

  // When the last attempt under a key succeeded, its memory is the live outcome
  // of the key, and the lookup finds at most failures of older memories.
  lemma SuccessIsNotFound(
    db: Db, redactor: Redactor, request: CheckpointRequest, event: EventId, draws: nat -> MemoryId, i: nat,
    reply: Reply)
    requires Inv(db) && reply == CheckpointStep(db, redactor, request, event, draws) && reply.db != db
    requires KeepsFlags(redactor) && LastUnderKey(redactor, request.attempts, i) && request.attempts[i].succeeded
    ensures var key, durable := Twice(redactor, request.attempts[i].key.value), request.scope.Durable();
            && reply.result.Ok? && AttemptAt(request, i) < |reply.result.value.memoryIds|
            && (var id := reply.result.value.memoryIds[AttemptAt(request, i)];
                && id in reply.db.heads && reply.db.heads[id].durable == durable
                && reply.db.heads[id].kind == Outcome && reply.db.heads[id].key == Some(key)
                && reply.db.heads[id].state == Active && reply.db.heads[id].updatedSeq == |db.events| + 1)
            && (forall at | at in LiveRows(reply.db, durable, {key}) ::
                  at.memory !in reply.result.value.memoryIds && at in LiveRows(db, durable, {key}))
  {
    hide Inv, CheckpointStep, OneCurrent, KeepsFlags, Twice, Scope.Durable, LastUnderKey;
    LastIsWithin(redactor, request.attempts, i);
    var member := AttemptHead(db, redactor, request, event, draws, i, reply);
    CheckpointChangesOnly(db, redactor, request, event, draws, reply);
    CurrentSuccessIsNotFound(reply.db, reply.result.value.memoryIds[AttemptAt(request, i)], member);
  }

  // So a key that was not contended is found no more once an attempt under it succeeded.
  lemma RecoveryIsRemembered(
    db: Db, redactor: Redactor, request: CheckpointRequest, event: EventId, draws: nat -> MemoryId, i: nat,
    reply: Reply)
    requires Inv(db) && reply == CheckpointStep(db, redactor, request, event, draws) && reply.db != db
    requires KeepsFlags(redactor) && LastUnderKey(redactor, request.attempts, i) && request.attempts[i].succeeded
    requires UniqueLive(db)
    ensures LiveFailures(reply.db, request.scope.Durable(), {Twice(redactor, request.attempts[i].key.value)}) == map[]
  {
    hide Inv, CheckpointStep, KeepsFlags, Twice, Scope.Durable, LastUnderKey, UniqueLive, LiveRows;
    LastIsWithin(redactor, request.attempts, i);
    SuccessIsNotFound(db, redactor, request, event, draws, i, reply);
    CanonicalKeys.CheckpointKeepsUnique(db, redactor, request, event, draws);
    var durable, key := request.scope.Durable(), Twice(redactor, request.attempts[i].key.value);
    NoRowOfOthers(reply.db, durable, key, reply.result.value.memoryIds[AttemptAt(request, i)],
                  reply.result.value.memoryIds);
  }

  lemma NoRowOfOthers(db: Db, durable: DurableScope, key: string, id: MemoryId, ids: seq<MemoryId>)
    requires UniqueLive(db) && id in ids && id in db.heads
    requires db.heads[id].durable == durable && db.heads[id].kind == Outcome && db.heads[id].key == Some(key)
    requires Live(db.heads[id].state)
    requires forall at | at in LiveRows(db, durable, {key}) :: at.memory !in ids
    ensures LiveFailures(db, durable, {key}) == map[]
  {
    assert forall at | at in LiveKeyed(db, durable, key) :: at.memory == id;
    assert LiveKeyed(db, durable, key) == {};
  }

  // --- the next checkpoint of a session ---------------------------------

  lemma LookupIsByMemory(db: Db, read: Db, durable: DurableScope, keys: set<string>)
    requires read.heads == db.heads && read.revisions == db.revisions
    ensures LiveFailures(read, durable, keys) == LiveFailures(db, durable, keys)
  {
    assert LiveRank(read) == LiveRank(db) by {
      assert forall at :: LiveRank(read)(at) == LiveRank(db)(at);
    }
  }

  // Looking up more keys changes nothing for each of them.
  lemma LookupIsPerKey(db: Db, durable: DurableScope, keys: set<string>, key: string)
    requires key in keys
    ensures key in LiveFailures(db, durable, keys) <==> key in LiveFailures(db, durable, {key})
    ensures key in LiveFailures(db, durable, keys) ==>
              LiveFailures(db, durable, keys)[key] == LiveFailures(db, durable, {key})[key]
  {
    hide LiveResult;
  }

  // A failure one checkpoint recorded is followed up by the next one of the
  // scope: when the session's last run of the same words succeeded, it is
  // returned, and tells the earlier failure first.
  lemma FailureIsFollowedUp(
    db: Db, first: CheckpointRequest, event: EventId, draws: nat -> MemoryId, i: nat, reply: Reply,
    read: Db, second: CheckpointRequest, session: string, last: nat) returns (o: nat)
    requires Inv(db) && reply == CheckpointStep(db, PLAIN, first, event, draws) && reply.db != db
    requires LastUnderKey(PLAIN, first.attempts, i) && !first.attempts[i].succeeded
    requires read.heads == reply.db.heads && read.revisions == reply.db.revisions
    requires second.scope.Durable() == first.scope.Durable()
    requires var runs := CheckpointSession.Gathered(second, read.events, session).attempts;
             && last < |runs| && runs[last].succeeded
             && (forall j | last < j < |runs| ::
                   AttemptKeys.Words(runs[j].identity) != AttemptKeys.Words(runs[last].identity))
             && first.attempts[i].key == Some(AttemptKeys.CanonicalKey(runs[last].identity))
    ensures var runs := CheckpointSession.Gathered(second, read.events, session).attempts;
            var attempts := CheckpointSession.Enriched(read, second, session, None).attempts;
            && o < |attempts| && attempts[o].action == runs[last].action && attempts[o].succeeded
            && Strings.Contains(attempts[o].result,
                 "First failure: " + first.attempts[i].result + "\nFinal result: " + runs[last].result)
  {
    hide Inv, CheckpointStep, AttemptKeys.CanonicalKey, AttemptCoalescing.Coalesced, Strings.Contains, LiveFailures,
      AttemptKeys.Words, AttemptReports.Urgency, AttemptReports.ReturnsWorthy, CheckpointSession.Gathered,
      Scope.Durable, AttemptReports.ReportsFailure;
    var runs := CheckpointSession.Gathered(second, read.events, session).attempts;
    var durable, keys := first.scope.Durable(), AttemptCoalescing.AutomaticKeys(runs);
    var prior := LiveFailures(read, durable, keys);
    var key := AttemptKeys.CanonicalKey(runs[last].identity);
    PriorIsFound(db, first, event, draws, i, reply, read, keys, key);
    assert CheckpointSession.Enriched(read, second, session, None).attempts
        == second.attempts + AttemptCoalescing.Coalesced(runs, prior);
    var p := RecoveryIsReported(runs, prior, last);
    o := |second.attempts| + p;
  }

  lemma PriorIsFound(
    db: Db, first: CheckpointRequest, event: EventId, draws: nat -> MemoryId, i: nat, reply: Reply, read: Db,
    keys: set<string>, key: string)
    requires Inv(db) && reply == CheckpointStep(db, PLAIN, first, event, draws) && reply.db != db
    requires LastUnderKey(PLAIN, first.attempts, i) && !first.attempts[i].succeeded
    requires read.heads == reply.db.heads && read.revisions == reply.db.revisions
    requires key in keys && first.attempts[i].key == Some(key)
    ensures var prior := LiveFailures(read, first.scope.Durable(), keys);
            key in prior && prior[key] == first.attempts[i].result
  {
    hide Inv, CheckpointStep, LiveFailures, Scope.Durable;
    FailureIsFound(db, PLAIN, first, event, draws, i);
    LookupIsByMemory(reply.db, read, first.scope.Durable(), keys);
    LookupIsPerKey(reply.db, first.scope.Durable(), keys, key);
  }

  lemma RecoveryIsReported(
    runs: seq<AttemptCoalescing.AutomaticAttempt>, prior: AttemptCoalescing.Priors, last: nat) returns (o: nat)
    requires last < |runs| && runs[last].succeeded && AttemptKeys.CanonicalKey(runs[last].identity) in prior
    requires forall j | last < j < |runs| :: !AttemptReports.SameWords(runs[j], runs[last])
    ensures var out := AttemptCoalescing.Coalesced(runs, prior);
            && o < |out| && out[o].action == runs[last].action && out[o].succeeded
            && Strings.Contains(out[o].result,
                 "First failure: " + prior[AttemptKeys.CanonicalKey(runs[last].identity)]
                 + "\nFinal result: " + runs[last].result)
  {
    hide AttemptKeys.CanonicalKey, AttemptCoalescing.Coalesced, AttemptReports.SameWords, AttemptReports.Quiet,
      AttemptReports.LaterQuiet, AttemptReports.Urgency, Strings.Contains;
    var lasts := AttemptReports.CoalescedReports(runs, prior);
    assert AttemptReports.FailedSometime(runs, prior, last);
    o :| 0 <= o < |lasts| && lasts[o] == last;
  }
}
