// Which heads a batch of writes ends on: the last request under a key decides
// what the memory of that key holds, and is the newest to answer to it.
module MemberHeads {
  import opened Basics
  import opened Domain
  import opened Database
  import opened Ledger
  import opened TimeTravel
  import Provenance

  // The head was written by the current event and holds what the request says.
  ghost predicate Tells(db: Db, id: MemoryId, request: MemoryRequest) {
    && id in db.heads
    && (var head := db.heads[id];
        && head.durable == request.scope.Durable() && head.kind == request.kind && head.key == request.key
        && head.state == Active && head.updatedSeq == |db.events|
        && RevisionId(id, head.headRevision) in db.revisions
        && db.revisions[RevisionId(id, head.headRevision)]
           == Revision(request.title, request.body, request.attributes, request.scope, |db.events|))
  }

  predicate SameAddress(db: Db, a: MemoryId, b: MemoryId)
    requires a in db.heads && b in db.heads
  {
    && db.heads[a].durable == db.heads[b].durable && db.heads[a].kind == db.heads[b].kind
    && db.heads[a].key.Some? && db.heads[a].key == db.heads[b].key
  }

  // Heads of the current event are active and answer to different keys, and no
  // head is newer.
  ghost predicate OneCurrent(db: Db) {
    && (forall id | id in db.heads :: db.heads[id].updatedSeq <= |db.events|)
    && (forall id | id in db.heads && db.heads[id].updatedSeq == |db.events| :: db.heads[id].state == Active)
    && (forall a, b | a in db.heads && b in db.heads && SameAddress(db, a, b) ::
          db.heads[a].updatedSeq == |db.events| && db.heads[b].updatedSeq == |db.events| ==> a == b)
  }

  // A request without an address of its own that changes no other memory.
  ghost predicate Plain(request: MemoryRequest) { request.memoryId.None? && Quiet(request) }

  lemma NothingSettles(id: MemoryId, head: Head, source: MemoryId, links: seq<LinkInput>, sequence: nat)
    requires forall i | 0 <= i < |links| :: Effect(links[i].relation) == NoEffect
    ensures Settle(id, head, source, links, sequence) == head
  {
    hide Effect;
  }

  // All heads and revisions but those of one memory stay.
  ghost predicate OnlyOne(before: Db, after: Db, id: MemoryId) {
    && after.events == before.events && after.heads.Keys == before.heads.Keys + {id}
    && (forall other | other in before.heads && other != id :: after.heads[other] == before.heads[other])
    && (forall at: RevisionId | at.memory != id ::
          && (at in after.revisions <==> at in before.revisions)
          && (at in before.revisions ==> after.revisions[at] == before.revisions[at]))
  }

  lemma QuietWrite(db: Db, id: MemoryId, request: MemoryRequest, event: EventId)
    requires Quiet(request)
    ensures var after := Written(db, id, request, event);
            OnlyOne(db, after, id) && Tells(after, id, request)
  {
    hide Written, Settle, Scope.Durable, Quiet, NextRevision;
    WrittenHeads(db, id, request, event);
    WrittenRows(db, id, request, event);
    forall other | other in db.heads
      ensures Settle(other, db.heads[other], id, request.links, |db.events|) == db.heads[other]
    {
      QuietSettle(other, db.heads[other], id, request, |db.events|);
    }
    QuietSettle(id, RevisedHead(db, id, request), id, request, |db.events|);
  }

  lemma QuietSettle(id: MemoryId, head: Head, source: MemoryId, request: MemoryRequest, sequence: nat)
    requires Quiet(request)
    ensures Settle(id, head, source, request.links, sequence) == head
  {
    hide Settle, Effect;
    NothingSettles(id, head, source, request.links, sequence);
  }

  // The memory a keyed request resolves to is the current one of its key, if any.
  lemma ResolvesToCurrent(db: Db, request: MemoryRequest, event: EventId, generated: MemoryId, current: MemoryId)
    requires OneCurrent(db) && Plain(request) && Upsert(db, request, event, generated).Ok?
    requires current in db.heads && db.heads[current].updatedSeq == |db.events|
    ensures var id := Upsert(db, request, event, generated).value.id;
            id == current <==>
              && request.key.Some? && db.heads[current].key == request.key && db.heads[current].kind == request.kind
              && db.heads[current].durable == request.scope.Durable()
  {
    hide Written, Quiet, ValidateEvidence, ValidateLinks, CheckLinks, Scope.Durable;
    var id := Upsert(db, request, event, generated).value.id;
    if request.key.Some? {
      var among := Candidates(db, request.scope.Durable(), request.kind, request.key.value);
      if current in among {
        var newest := Newest(db, among);
        assert id == newest;
        assert newest != current ==> Newer(db, newest, current) && SameAddress(db, newest, current);
      } else if among != {} {
        assert id == Newest(db, among) && id in among;
      } else {
        assert id == generated && generated !in db.heads;
      }
    }
  }

  // One write of a batch.
  lemma UpsertTells(db: Db, request: MemoryRequest, event: EventId, generated: MemoryId)
    requires OneCurrent(db) && Plain(request) && Upsert(db, request, event, generated).Ok?
    ensures var upserted := Upsert(db, request, event, generated).value;
            && OneCurrent(upserted.db) && OnlyOne(db, upserted.db, upserted.id)
            && Tells(upserted.db, upserted.id, request)
            && (upserted.id in db.heads ==> db.heads[upserted.id].kind == request.kind)
  {
    hide Upsert, Written, Quiet, Scope.Durable, OneCurrent, Tells, OnlyOne;
    Provenance.AcceptedParts(db, request, event, generated);
    var upserted := Upsert(db, request, event, generated).value;
    QuietWrite(db, upserted.id, request, event);
    KindStays(db, request, event, generated);
    forall other | other in db.heads && db.heads[other].updatedSeq == |db.events|
      ensures upserted.id == other <==>
                && request.key.Some? && db.heads[other].key == request.key && db.heads[other].kind == request.kind
                && db.heads[other].durable == request.scope.Durable()
    {
      ResolvesToCurrent(db, request, event, generated, other);
    }
    OneStillCurrent(db, upserted.db, upserted.id, request);
  }

  lemma OneStillCurrent(db: Db, after: Db, id: MemoryId, request: MemoryRequest)
    requires OneCurrent(db) && OnlyOne(db, after, id) && Tells(after, id, request)
    requires forall other | other in db.heads && db.heads[other].updatedSeq == |db.events| ::
               id == other <==>
                 && request.key.Some? && db.heads[other].key == request.key && db.heads[other].kind == request.kind
                 && db.heads[other].durable == request.scope.Durable()
    ensures OneCurrent(after)
  {
    hide Scope.Durable;
    assert forall a | a in after.heads && a != id :: after.heads[a] == db.heads[a];
  }

  lemma KindStays(db: Db, request: MemoryRequest, event: EventId, generated: MemoryId)
    requires Upsert(db, request, event, generated).Ok?
    ensures var id := Upsert(db, request, event, generated).value.id;
            id in db.heads ==> db.heads[id].kind == request.kind
  {
    hide Written, ValidateEvidence, ValidateLinks, CheckLinks, Scope.Durable, Candidates;
  }

  // --- a batch ----------------------------------------------------------

  predicate SharesKey(a: MemoryRequest, b: MemoryRequest) {
    a.key.Some? && a.key == b.key && a.kind == b.kind && a.scope.Durable() == b.scope.Durable()
  }

  function Prepared(redactor: Redactor, requests: seq<MemoryRequest>): seq<MemoryRequest> {
    seq(|requests|, i requires 0 <= i < |requests| => PrepareMemory(redactor, requests[i]))
  }

  // No later request has the key.
  predicate IsLast(requests: seq<MemoryRequest>, i: nat) {
    i < |requests| && forall j | i < j < |requests| :: !SharesKey(requests[j], requests[i])
  }

  // The last requests under a key are what their heads hold.
  ghost predicate LastAreTold(after: Db, requests: seq<MemoryRequest>, ids: seq<MemoryId>) {
    && |ids| == |requests|
    && forall i: nat | IsLast(requests, i) :: Tells(after, ids[i], requests[i])
  }

  ghost predicate Addresses(after: Db, id: MemoryId, request: MemoryRequest) {
    && id in after.heads && after.heads[id].updatedSeq == |after.events|
    && after.heads[id].kind == request.kind && after.heads[id].key == request.key
    && after.heads[id].durable == request.scope.Durable()
  }

  // Every request ends on a head of its kind and key.
  ghost predicate AllAddressed(after: Db, requests: seq<MemoryRequest>, ids: seq<MemoryId>) {
    |ids| == |requests| && forall i | 0 <= i < |ids| :: Addresses(after, ids[i], requests[i])
  }

  // Memories keep their kind, and those that are not written stay as they are.
  ghost predicate OthersStay(db: Db, after: Db, ids: seq<MemoryId>) {
    && after.events == db.events
    && (forall id | id in db.heads :: id in after.heads && after.heads[id].kind == db.heads[id].kind)
    && (forall id | id in after.heads :: id in ids || (id in db.heads && after.heads[id] == db.heads[id]))
    && (forall at: RevisionId | at.memory !in ids ::
          && (at in after.revisions <==> at in db.revisions)
          && (at in db.revisions ==> after.revisions[at] == db.revisions[at]))
  }

  ghost predicate BatchTells(db: Db, after: Db, requests: seq<MemoryRequest>, ids: seq<MemoryId>) {
    && OneCurrent(after) && LastAreTold(after, requests, ids) && AllAddressed(after, requests, ids)
    && OthersStay(db, after, ids)
  }

  lemma NothingTold(db: Db)
    requires OneCurrent(db)
    ensures BatchTells(db, db, [], [])
  {
  }

  lemma LastStillTold(before: Db, after: Db, requests: seq<MemoryRequest>, ids: seq<MemoryId>, last: MemoryRequest,
      id: MemoryId)
    requires LastAreTold(before, requests, ids) && OnlyOne(before, after, id) && Tells(after, id, last)
    requires forall i | 0 <= i < |ids| :: id == ids[i] ==> SharesKey(last, requests[i])
    ensures LastAreTold(after, requests + [last], ids + [id])
  {
    hide Scope.Durable, SharesKey;
    var all, allIds := requests + [last], ids + [id];
    forall i: nat | IsLast(all, i) ensures Tells(after, allIds[i], all[i]) {
      if i < |requests| {
        assert !SharesKey(all[|requests|], all[i]);
        assert forall j | i < j < |requests| :: all[j] == requests[j];
        assert IsLast(requests, i);
        assert Tells(before, ids[i], requests[i]);
      }
    }
  }

  lemma StillAddressed(before: Db, after: Db, requests: seq<MemoryRequest>, ids: seq<MemoryId>, last: MemoryRequest,
      id: MemoryId)
    requires AllAddressed(before, requests, ids) && OnlyOne(before, after, id) && Tells(after, id, last)
    requires forall i | 0 <= i < |ids| :: id == ids[i] ==> SharesKey(last, requests[i])
    ensures AllAddressed(after, requests + [last], ids + [id])
  {
    hide Scope.Durable;
  }

  lemma OthersStillStay(db: Db, before: Db, after: Db, ids: seq<MemoryId>, id: MemoryId)
    requires OthersStay(db, before, ids) && OnlyOne(before, after, id) && id in after.heads
    requires id in before.heads ==> before.heads[id].kind == after.heads[id].kind
    ensures OthersStay(db, after, ids + [id])
  {
    var all := ids + [id];
    assert forall m :: m in all <==> m in ids || m == id;
  }

  lemma {:induction false} UpsertAllTells(
    db: Db, redactor: Redactor, requests: seq<MemoryRequest>, event: EventId, draws: nat -> MemoryId)
    requires OneCurrent(db) && UpsertAll(db, redactor, requests, event, draws).Ok?
    requires forall i | 0 <= i < |requests| :: Plain(PrepareMemory(redactor, requests[i]))
    ensures var batch := UpsertAll(db, redactor, requests, event, draws).value;
            BatchTells(db, batch.db, Prepared(redactor, requests), batch.ids)
  {
    hide OneCurrent, Plain, PrepareMemory, Upsert, BatchTells;
    if requests == [] {
      NothingTold(db);
      assert Prepared(redactor, requests) == [];
    } else {
      var n := |requests| - 1;
      var front, last := requests[..n], PrepareMemory(redactor, requests[n]);
      UpsertAllTells(db, redactor, front, event, draws);
      var before := UpsertAll(db, redactor, front, event, draws).value;
      assert Prepared(redactor, requests) == Prepared(redactor, front) + [last];
      BatchStep(db, before.db, Prepared(redactor, front), before.ids, last, event, draws(n + 1));
    }
  }

  lemma AddressedIsCurrent(
    db: Db, last: MemoryRequest, event: EventId, generated: MemoryId, current: MemoryId, request: MemoryRequest)
    requires OneCurrent(db) && Plain(last) && Upsert(db, last, event, generated).Ok?
    requires Addresses(db, current, request)
    ensures Upsert(db, last, event, generated).value.id == current <==> SharesKey(last, request)
  {
    hide Upsert, OneCurrent, Plain, Scope.Durable;
    ResolvesToCurrent(db, last, event, generated, current);
  }

  lemma BatchStep(db: Db, before: Db, requests: seq<MemoryRequest>, ids: seq<MemoryId>, last: MemoryRequest,
      event: EventId, generated: MemoryId)
    requires BatchTells(db, before, requests, ids) && Plain(last) && Upsert(before, last, event, generated).Ok?
    ensures var upserted := Upsert(before, last, event, generated).value;
            BatchTells(db, upserted.db, requests + [last], ids + [upserted.id])
  {
    hide Plain, Upsert, OneCurrent, Scope.Durable, SharesKey, LastAreTold, OthersStay, OnlyOne;
    UpsertTells(before, last, event, generated);
    var upserted := Upsert(before, last, event, generated).value;
    forall i | 0 <= i < |ids| ensures upserted.id == ids[i] <==> SharesKey(last, requests[i]) {
      AddressedIsCurrent(before, last, event, generated, ids[i], requests[i]);
    }
    LastStillTold(before, upserted.db, requests, ids, last, upserted.id);
    StillAddressed(before, upserted.db, requests, ids, last, upserted.id);
    OthersStillStay(db, before, upserted.db, ids, upserted.id);
  }

  // --- what the failed-attempt lookup finds -----------------------------

  lemma CurrentFailureIsFound(db: Db, id: MemoryId, request: MemoryRequest)
    requires OneCurrent(db) && Tells(db, id, request)
    requires request.kind == Outcome && request.key.Some? && request.attributes.succeeded == Some(false)
    requires request.attributes.attemptResult.Some?
    ensures LiveFailures(db, request.scope.Durable(), {request.key.value})
         == map[request.key.value := request.attributes.attemptResult.value]
  {
    hide Scope.Durable;
    var durable, key := request.scope.Durable(), request.key.value;
    var at, rows := RevisionId(id, db.heads[id].headRevision), LiveKeyed(db, durable, key);
    assert at in rows;
    KeyedRowsStored(db, durable, key, 0);
    forall other | other in rows && other != at ensures Precedes(LiveRank(db), at, other) {
      assert other.memory != id && SameAddress(db, id, other.memory);
    }
    assert IsFirst(LiveRank(db), at, rows);
    FirstUnique(LiveRank(db), First(LiveRank(db), rows), at, rows);
  }

  // The key of a current head that is no failure finds only other memories.
  lemma CurrentSuccessIsNotFound(db: Db, id: MemoryId, request: MemoryRequest)
    requires OneCurrent(db) && Tells(db, id, request)
    requires request.kind == Outcome && request.key.Some? && request.attributes.succeeded != Some(false)
    ensures forall at | at in LiveRows(db, request.scope.Durable(), {request.key.value}) ::
              at.memory != id && db.heads[at.memory].updatedSeq < |db.events|
  {
    hide Scope.Durable;
    forall at | at in LiveRows(db, request.scope.Durable(), {request.key.value})
      ensures at.memory != id && db.heads[at.memory].updatedSeq < |db.events|
    {
      assert at.memory != id ==> SameAddress(db, id, at.memory);
    }
  }
}
