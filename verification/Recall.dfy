// The two read transactions of a recall: candidates are staged from the heads,
// the selected ones are hydrated later from their pinned revisions.
module Recall {
  import opened Basics
  import opened Domain
  import opened Strings
  import opened Database
  import opened Ledger
  import opened Extension
  import ContextCompiler

  const MMR_BODY_PREVIEW_CHARS: nat := 1024

  predicate Present(db: Db, at: RevisionId) {
    at in db.revisions && at in db.metadata && at in db.attachments && at.memory in db.heads
  }

  // A memory as its head shows it.
  function LoadHead(db: Db, id: MemoryId): Option<Memory> {
    if id !in db.heads || !Present(db, HeadAt(db, id)) then None
    else
      var head, at := db.heads[id], HeadAt(db, id);
      var revision, attached := db.revisions[at], db.attachments[at];
      Some(Memory(id, head.headRevision, head.kind, head.state, revision.scope, head.key, revision.title, revision.body,
                  head.ranking, revision.attributes, head.createdSeq, head.updatedSeq, attached.tags, attached.entities,
                  attached.artifacts, attached.evidence))
  }

  // Staging keeps a body preview and leaves attributes and attachments out.
  function StageCandidate(db: Db, id: MemoryId): Option<Memory> {
    match LoadHead(db, id)
    case None => None
    case Some(memory) =>
      Some(memory.(body := BoundedText(memory.body, MMR_BODY_PREVIEW_CHARS), attributes := NO_ATTRIBUTES,
                   tags := [], entities := [], artifacts := [], evidence := []))
  }

  // What ranking sees of a memory: its scalars and the beginning of its body.
  lemma StagedIsPreview(db: Db, id: MemoryId)
    ensures StageCandidate(db, id).Some? <==> LoadHead(db, id).Some?
    ensures StageCandidate(db, id).Some? ==>
              var staged, memory := StageCandidate(db, id).value, LoadHead(db, id).value;
              && staged.body <= memory.body
              && |staged.body| == (if |memory.body| < 1024 then |memory.body| else 1024)
              && staged == memory.(body := staged.body, attributes := staged.attributes, tags := [], entities := [],
                                   artifacts := [], evidence := [])
              && staged.attributes == NO_ATTRIBUTES
  {
    hide LoadHead;
  }

  // A memory as one of its revisions recorded it, with a bounded body.
  function LoadRevision(db: Db, at: RevisionId, limit: nat): Option<Memory> {
    if !Present(db, at) then None
    else
      var recorded, revision, attached := db.metadata[at], db.revisions[at], db.attachments[at];
      Some(Memory(at.memory, at.revision, recorded.kind, recorded.state, revision.scope, recorded.key, revision.title,
                  BoundedText(revision.body, limit), recorded.ranking, revision.attributes,
                  db.heads[at.memory].createdSeq, revision.recordedSeq, attached.tags, attached.entities,
                  attached.artifacts, attached.evidence))
  }

  predicate Ambiguous(wanted: seq<RevisionId>) {
    exists i, j | 0 <= i < j < |wanted| :: wanted[i].memory == wanted[j].memory && wanted[i] != wanted[j]
  }

  // Batch hydration, keyed by memory: a batch naming two revisions of one
  // memory is refused, and so is one naming a revision that does not exist.
  method LoadRevisionsBounded(db: Db, wanted: seq<RevisionId>, limit: nat) returns (r: Result<map<MemoryId, Memory>>)
    ensures r == Err(InvalidInput) <==> Ambiguous(wanted)
    ensures !Ambiguous(wanted) ==> (r.Ok? <==> forall at | at in wanted :: Present(db, at))
    ensures r.Ok? ==> forall id :: id in r.value <==> exists i :: 0 <= i < |wanted| && wanted[i].memory == id
    ensures r.Ok? ==> forall at | at in wanted :: Some(r.value[at.memory]) == LoadRevision(db, at, limit)
    ensures r.Err? ==> r.error == InvalidInput || r.error == NotFound
  {
    hide LoadRevision, Present;
    var requested: map<MemoryId, nat> := map[];
    for i := 0 to |wanted|
      invariant forall j | 0 <= j < i ::
          wanted[j].memory in requested && requested[wanted[j].memory] == wanted[j].revision
      invariant forall id | id in requested :: exists j :: 0 <= j < i && wanted[j].memory == id
    {
      var at := wanted[i];
      if at.memory in requested && requested[at.memory] != at.revision {
        var j :| 0 <= j < i && wanted[j].memory == at.memory;
        assert wanted[j] != wanted[i];
        return Err(InvalidInput);
      }
      requested := requested[at.memory := at.revision];
    }
    var memories: map<MemoryId, Memory> := map[];
    for i := 0 to |wanted|
      invariant forall id :: id in memories <==> exists j :: 0 <= j < i && wanted[j].memory == id
      invariant forall j | 0 <= j < i :: Some(memories[wanted[j].memory]) == LoadRevision(db, wanted[j], limit)
      invariant forall j | 0 <= j < i :: Present(db, wanted[j])
    {
      var at := wanted[i];
      var loaded := LoadRevision(db, at, limit);
      LoadedIffPresent(db, at, limit);
      if loaded.None? {
        assert at in wanted;
        return Err(NotFound);
      }
      memories := memories[at.memory := loaded.value];
    }
    r := Ok(memories);
  }

  lemma LoadedIffPresent(db: Db, at: RevisionId, limit: nat)
    ensures LoadRevision(db, at, limit).Some? <==> Present(db, at)
  {
  }

  // The second transaction: content of the pinned revision, state and update
  // position of the staged head.
  function Rehydrate(db: Db, staged: Memory, limit: nat): Option<Memory> {
    match LoadRevision(db, RevisionId(staged.memoryId, staged.revision), limit)
    case None => None
    case Some(memory) => Some(memory.(state := staged.state, updatedSeq := staged.updatedSeq))
  }

  // What a head's revision shows: rows that agree with it, on this store and later.
  lemma PinnedRows(s: Db, t: Db, id: MemoryId)
    requires Inv(s) && Extends(s, t) && id in s.heads
    ensures var at := HeadAt(s, id);
            && Present(s, at) && Present(t, at)
            && t.revisions[at] == s.revisions[at] && t.metadata[at] == s.metadata[at]
            && t.attachments[at] == s.attachments[at]
            && t.heads[id].createdSeq == s.heads[id].createdSeq
            && s.metadata[at].kind == s.heads[id].kind && s.metadata[at].key == s.heads[id].key
            && s.metadata[at].ranking == s.heads[id].ranking
  {
    hide Scope.Durable, SeqOf, EventsDistinct, LinksGrounded, AssociationsGrounded, LedgerDeterminesState,
      IndexCoversHeads, ProjectionsCurrentOnce, ReceiptsGrounded, LedgersGrow, ReceiptsPersist, LogGrows,
      RevisionsOrdered;
    var at := HeadAt(s, id);
    assert at in s.revisions && at in s.metadata && at in s.attachments;
  }

  // Whatever is committed between the two transactions, hydration finds every
  // staged memory and returns what its head showed when it was staged.
  lemma SnapshotConsistent(s: Db, t: Db, id: MemoryId, limit: nat)
    requires Inv(s) && Extends(s, t) && id in s.heads
    ensures StageCandidate(s, id).Some? && LoadHead(s, id).Some?
    ensures var full := LoadHead(s, id).value;
            Rehydrate(t, StageCandidate(s, id).value, limit) == Some(full.(body := BoundedText(full.body, limit)))
  {
    hide BoundedText, Inv, Extends, Present;
    PinnedRows(s, t, id);
  }

  // A selected hit before hydration.
  datatype Selection = Selection(id: MemoryId, applicability: Applicability, score: int, reasons: seq<string>)

  // Hits with bodies bounded for the budget, as the second transaction hydrates them.
  function HydratedHits(t: Db, staged: seq<Memory>, selected: seq<Selection>, limit: nat):
    Option<seq<ContextCompiler.RecallHit>>
    requires |staged| == |selected|
  {
    if selected == [] then Some([])
    else
      var n := |selected| - 1;
      var front, last := HydratedHits(t, staged[..n], selected[..n], limit), Rehydrate(t, staged[n], limit);
      if front.None? || last.None? then None
      else Some(front.value + [ContextCompiler.RecallHit(
        last.value, selected[n].applicability, selected[n].score, selected[n].reasons)])
  }

  // The same hits with the full memories of the staging transaction.
  function FullHits(s: Db, selected: seq<Selection>): seq<ContextCompiler.RecallHit>
    requires forall i | 0 <= i < |selected| :: LoadHead(s, selected[i].id).Some?
  {
    seq(|selected|, i requires 0 <= i < |selected| =>
      ContextCompiler.RecallHit(LoadHead(s, selected[i].id).value,
                                selected[i].applicability, selected[i].score, selected[i].reasons))
  }

  lemma {:induction false} HydratedAreShortened(
    s: Db, t: Db, staged: seq<Memory>, selected: seq<Selection>, limit: nat)
    requires Inv(s) && Extends(s, t) && |staged| == |selected|
    requires forall i | 0 <= i < |selected| ::
               selected[i].id in s.heads && StageCandidate(s, selected[i].id) == Some(staged[i])
    requires forall i | 0 <= i < |selected| :: LoadHead(s, selected[i].id).Some?
    ensures HydratedHits(t, staged, selected, limit)
         == Some(ContextCompiler.ShortenAll(FullHits(s, selected), limit))
  {
    hide Inv, Extends, LoadHead, StageCandidate, Rehydrate;
    if selected == [] {
      assert ContextCompiler.ShortenAll(FullHits(s, selected), limit) == [];
    } else {
      var n := |selected| - 1;
      HydratedAreShortened(s, t, staged[..n], selected[..n], limit);
      SnapshotConsistent(s, t, selected[n].id, limit);
      assert FullHits(s, selected)[..n] == FullHits(s, selected[..n]);
      assert ContextCompiler.ShortenAll(FullHits(s, selected), limit)
          == ContextCompiler.ShortenAll(FullHits(s, selected[..n]), limit)
             + [ContextCompiler.Shorten(FullHits(s, selected)[n], limit)];
    }
  }

  // Recall as a whole: the context pack compiled from bounded bodies hydrated on a
  // later store is the one full memories of the staging snapshot would give.
  lemma RecallIsConsistent(
    s: Db, t: Db, staged: seq<Memory>, selected: seq<Selection>, tokenBudget: nat)
    requires Inv(s) && Extends(s, t) && |staged| == |selected|
    requires forall i | 0 <= i < |selected| ::
               selected[i].id in s.heads && StageCandidate(s, selected[i].id) == Some(staged[i])
    ensures forall i | 0 <= i < |selected| :: LoadHead(s, selected[i].id).Some?
    ensures var hydrated := HydratedHits(t, staged, selected, ContextCompiler.HydrationLimit(tokenBudget));
            && hydrated.Some?
            && ContextCompiler.Compile(tokenBudget, hydrated.value)
               == ContextCompiler.Compile(tokenBudget, FullHits(s, selected))
  {
    hide Inv, Extends, LoadHead, HydratedHits, ContextCompiler.Compile;
    forall i | 0 <= i < |selected| ensures LoadHead(s, selected[i].id).Some? {
      assert StageCandidate(s, selected[i].id) == Some(staged[i]);
    }
    HydratedAreShortened(s, t, staged, selected, ContextCompiler.HydrationLimit(tokenBudget));
    ContextCompiler.BoundedHydrationRefines(tokenBudget, FullHits(s, selected));
  }
}
