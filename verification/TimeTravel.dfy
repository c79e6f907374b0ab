// The failed-attempt lookup of a checkpoint: over the live heads when it runs
// first, rebuilt from the ledgers when it is retried.
module TimeTravel {
  import opened Basics
  import opened Domain
  import opened Database
  import opened Ledger
  import opened Extension

  // --- result text ------------------------------------------------------

  function FindText(text: string, pattern: string): (r: Option<nat>)
    ensures r.Some? ==> r.value + |pattern| <= |text| && text[r.value..r.value + |pattern|] == pattern
  {
    if |text| < |pattern| then None
    else if text[..|pattern|] == pattern then Some(0)
    else if text == "" then None
    else
      var later := FindText(text[1..], pattern);
      if later.Some? then Some(later.value + 1) else None
  }

  function FindLastText(text: string, pattern: string): (r: Option<nat>)
    ensures r.Some? ==> r.value + |pattern| <= |text|
  {
    if |text| < |pattern| then None
    else if text[|text| - |pattern|..] == pattern then Some(|text| - |pattern|)
    else if text == "" then None
    else FindLastText(text[..|text| - 1], pattern)
  }

  // Recovers the result from the body of an older attempt memory.
  function ResultFromBody(body: string): Option<string> {
    var prefix, middle, suffix := "Attempt: ", "\nResult: ", "\nSucceeded: ";
    if |body| < |prefix| || body[..|prefix|] != prefix then None
    else
      var rest := body[|prefix|..];
      var at := FindText(rest, middle);
      if at.None? then None
      else
        var result := rest[at.value + |middle|..];
        var end := FindLastText(result, suffix);
        if end.None? then None else Some(result[..end.value])
  }

  function ResultText(revision: Revision): string {
    if revision.attributes.attemptResult.Some? then revision.attributes.attemptResult.value
    else
      var recovered := ResultFromBody(revision.body);
      if recovered.Some? then recovered.value else revision.body
  }

  predicate Failing(revision: Revision) { revision.attributes.succeeded == Some(false) }

  // --- the two queries --------------------------------------------------

  // First execution: current heads.
  function LiveRows(db: Db, durable: DurableScope, keys: set<string>): set<RevisionId> {
    set at | at in db.revisions
             && at.memory in db.heads && at.revision == db.heads[at.memory].headRevision
             && db.heads[at.memory].durable == durable
             && db.heads[at.memory].kind == Outcome
             && Live(db.heads[at.memory].state)
             && db.heads[at.memory].key.Some? && db.heads[at.memory].key.value in keys
             && Failing(db.revisions[at])
  }

  // `at` is the last revision of its memory recorded before the boundary.
  predicate LatestBefore(db: Db, at: RevisionId, boundary: nat)
    requires at in db.revisions
  {
    && db.revisions[at].recordedSeq < boundary
    && forall other | other in db.revisions && other.memory == at.memory
          && db.revisions[other].recordedSeq < boundary ::
         db.revisions[other].recordedSeq < db.revisions[at].recordedSeq
         || (db.revisions[other].recordedSeq == db.revisions[at].recordedSeq && other.revision <= at.revision)
  }

  predicate RetractedBefore(db: Db, id: MemoryId, boundary: nat) {
    exists a | a in db.associations ::
      a.memory == id && IsLifecycle(db.events, a.event) && SeqOf(db.events, a.event) < boundary
  }

  predicate SupersededBefore(db: Db, id: MemoryId, boundary: nat) {
    exists row | row in db.links ::
      row.target == id && Effect(row.relation) == Supersedes
      && 0 < SeqOf(db.events, row.event) < boundary
  }

  // Retry: revision metadata and ledgers, as of the boundary.
  function HistoricalRows(db: Db, durable: DurableScope, keys: set<string>, boundary: nat): set<RevisionId> {
    set at | at in db.metadata
             && at in db.revisions && at.memory in db.heads
             && db.heads[at.memory].durable == durable
             && db.metadata[at].kind == Outcome
             && LatestBefore(db, at, boundary)
             && !RetractedBefore(db, at.memory, boundary)
             && !SupersededBefore(db, at.memory, boundary)
             && db.metadata[at].key.Some? && db.metadata[at].key.value in keys
             && Failing(db.revisions[at])
  }

  // --- choosing one row per key -----------------------------------------

  // Rows are ordered by two descending ranks, then by memory. Rows of one
  // memory never meet, so the last comparison only makes the order total.
  type Rank = RevisionId -> (nat, nat)

  predicate Precedes(rank: Rank, a: RevisionId, b: RevisionId) {
    || rank(a).0 > rank(b).0
    || (rank(a).0 == rank(b).0 && rank(a).1 > rank(b).1)
    || (rank(a).0 == rank(b).0 && rank(a).1 == rank(b).1
        && (a.memory < b.memory || (a.memory == b.memory && a.revision < b.revision)))
  }

  ghost predicate IsFirst(rank: Rank, first: RevisionId, rows: set<RevisionId>) {
    first in rows && forall other | other in rows && other != first :: Precedes(rank, first, other)
  }

  lemma {:induction false} FirstExists(rank: Rank, rows: set<RevisionId>)
    requires rows != {}
    ensures exists first :: IsFirst(rank, first, rows)
    decreases rows
  {
    var some :| some in rows;
    var rest := rows - {some};
    assert forall at | at in rows :: at == some || at in rest;
    if rest == {} {
      assert IsFirst(rank, some, rows);
    } else {
      FirstExists(rank, rest);
      var best :| IsFirst(rank, best, rest);
      assert IsFirst(rank, if Precedes(rank, some, best) then some else best, rows);
    }
  }

  ghost function First(rank: Rank, rows: set<RevisionId>): (first: RevisionId)
    requires rows != {}
    ensures IsFirst(rank, first, rows)
  {
    FirstExists(rank, rows);
    var first :| IsFirst(rank, first, rows);
    first
  }

  lemma FirstUnique(rank: Rank, a: RevisionId, b: RevisionId, rows: set<RevisionId>)
    requires IsFirst(rank, a, rows) && IsFirst(rank, b, rows)
    ensures a == b
  {
  }

  function LiveRank(db: Db): Rank {
    (at: RevisionId) => (if at.memory in db.heads then db.heads[at.memory].updatedSeq else 0, 0)
  }

  function HistoricalRank(db: Db): Rank {
    (at: RevisionId) => (if at in db.revisions then db.revisions[at].recordedSeq else 0, at.revision)
  }

  function LiveKeyed(db: Db, durable: DurableScope, key: string): set<RevisionId> {
    LiveRows(db, durable, {key})
  }

  function HistoricalKeyed(db: Db, durable: DurableScope, key: string, boundary: nat): set<RevisionId> {
    HistoricalRows(db, durable, {key}, boundary)
  }

  lemma KeyedRowsStored(db: Db, durable: DurableScope, key: string, boundary: nat)
    ensures forall at | at in LiveKeyed(db, durable, key) :: at in db.revisions
    ensures forall at | at in HistoricalKeyed(db, durable, key, boundary) :: at in db.revisions
  {
  }

  // The result of the first of some rows, if there are any.
  ghost function FirstText(db: Db, rank: Rank, rows: set<RevisionId>): Option<string>
    requires forall at | at in rows :: at in db.revisions
  {
    if rows == {} then None else Some(ResultText(db.revisions[First(rank, rows)]))
  }

  ghost function LiveResult(db: Db, durable: DurableScope, key: string): Option<string> {
    KeyedRowsStored(db, durable, key, 0);
    FirstText(db, LiveRank(db), LiveKeyed(db, durable, key))
  }

  ghost function HistoricalResult(db: Db, durable: DurableScope, key: string, boundary: nat): Option<string> {
    KeyedRowsStored(db, durable, key, boundary);
    FirstText(db, HistoricalRank(db), HistoricalKeyed(db, durable, key, boundary))
  }

  // The same rows of the heads as they are, ordered by when they were recorded.
  ghost function RecordedResult(db: Db, durable: DurableScope, key: string): Option<string> {
    KeyedRowsStored(db, durable, key, 0);
    FirstText(db, HistoricalRank(db), LiveKeyed(db, durable, key))
  }

  // Results by key.
  ghost function LiveFailures(db: Db, durable: DurableScope, keys: set<string>): map<string, string> {
    map key | key in keys && LiveResult(db, durable, key).Some? :: LiveResult(db, durable, key).value
  }

  ghost function HistoricalFailures(db: Db, durable: DurableScope, keys: set<string>, boundary: nat):
    map<string, string>
  {
    map key | key in keys && HistoricalResult(db, durable, key, boundary).Some? ::
      HistoricalResult(db, durable, key, boundary).value
  }

  ghost function RecordedFailures(db: Db, durable: DurableScope, keys: set<string>): map<string, string> {
    map key | key in keys && RecordedResult(db, durable, key).Some? :: RecordedResult(db, durable, key).value
  }

  // --- the past seen from the present and from later --------------------

  // The boundary of a transaction that runs on store `s`.
  function Boundary(s: Db): nat { |s.events| + 1 }

  lemma LatestIsHead(s: Db, t: Db, at: RevisionId)
    requires RevisionsNumbered(s) && RevisionsOrdered(s) && RevisionsGrow(s, t) && at in t.revisions
    ensures LatestBefore(t, at, Boundary(s))
        <==> at in s.revisions && at.revision == s.heads[at.memory].headRevision
  {
    if at in s.revisions {
      var head := RevisionId(at.memory, s.heads[at.memory].headRevision);
      assert head in s.revisions && head in t.revisions;
      assert s.revisions[at].recordedSeq <= s.revisions[head].recordedSeq;
    }
  }

  lemma RetractedThen(s: Db, t: Db, id: MemoryId)
    requires Extends(s, t) && EventsDistinct(t) && AssociationsGrounded(s)
    ensures RetractedBefore(t, id, Boundary(s)) == WasRetracted(s, id)
  {
    hide SeqOf, RevisionsGrow, HeadsPersist, ReceiptsPersist;
    forall a | a in s.associations
      ensures SeqOf(t.events, a.event) == SeqOf(s.events, a.event)
      ensures IsLifecycle(t.events, a.event) == IsLifecycle(s.events, a.event)
    {
      SeqOfPersists(s.events, t.events, a.event);
      SeqOfBounded(s.events, a.event);
    }
    forall a | a in s.associations ensures SeqOf(s.events, a.event) <= |s.events| {
      SeqOfBounded(s.events, a.event);
    }
  }

  lemma SeqOfBounded(events: seq<Event>, id: EventId)
    ensures SeqOf(events, id) <= |events|
  {
  }

  lemma SupersededThen(s: Db, t: Db, id: MemoryId)
    requires Extends(s, t) && EventsDistinct(t) && LinksGrounded(s)
    ensures SupersededBefore(t, id, Boundary(s)) == WasSuperseded(s, id)
  {
    hide SeqOf, RevisionsGrow, HeadsPersist, ReceiptsPersist, Effect;
    forall row | row in s.links
      ensures SeqOf(t.events, row.event) == SeqOf(s.events, row.event) && SeqOf(s.events, row.event) <= |s.events|
    {
      SeqOfPersists(s.events, t.events, row.event);
      SeqOfBounded(s.events, row.event);
    }
  }

  lemma LiveIffNotEnded(s: Db, id: MemoryId)
    requires Inv(s) && id in s.heads
    ensures Live(s.heads[id].state) <==> !WasRetracted(s, id) && !WasSuperseded(s, id)
  {
    hide WasRetracted, WasSuperseded, IsContested;
  }

  // What a later store still knows about a revision of `s`.
  lemma RowPersists(s: Db, t: Db, at: RevisionId)
    requires Inv(s) && Extends(s, t) && at in s.revisions
    ensures at in t.revisions && t.revisions[at] == s.revisions[at]
    ensures at in s.metadata && at in t.metadata && t.metadata[at] == s.metadata[at]
    ensures at.memory in s.heads && at.memory in t.heads
    ensures t.heads[at.memory].durable == s.heads[at.memory].durable
    ensures s.metadata[at].kind == s.heads[at.memory].kind
    ensures at.revision == s.heads[at.memory].headRevision ==> s.metadata[at].key == s.heads[at.memory].key
  {
    hide LedgerDeterminesState, LinksGrounded, AssociationsGrounded, IndexCoversHeads, ProjectionsCurrentOnce,
      ReceiptsGrounded, EventsDistinct, LedgersGrow, ReceiptsPersist, RevisionsOrdered, LogGrows, Scope.Durable;
  }

  lemma RowLatestThen(s: Db, t: Db, at: RevisionId)
    requires Inv(s) && Inv(t) && Extends(s, t) && at in t.revisions
    ensures LatestBefore(t, at, Boundary(s))
        <==> at in s.revisions && at.memory in s.heads && at.revision == s.heads[at.memory].headRevision
    ensures RetractedBefore(t, at.memory, Boundary(s)) == WasRetracted(s, at.memory)
    ensures SupersededBefore(t, at.memory, Boundary(s)) == WasSuperseded(s, at.memory)
  {
    hide LedgerDeterminesState, LinksGrounded, AssociationsGrounded, IndexCoversHeads, ProjectionsCurrentOnce,
      ReceiptsGrounded, EventsDistinct, LatestBefore, RetractedBefore, SupersededBefore, WasRetracted, WasSuperseded,
      LedgersGrow, ReceiptsPersist, RevisionsOrdered, LogGrows, RevisionsGrow, HeadsRecorded, MetadataKinds;
    LatestIsHead(s, t, at);
    RetractedThen(s, t, at.memory);
    SupersededThen(s, t, at.memory);
  }

  lemma SameRow(s: Db, t: Db, durable: DurableScope, keys: set<string>, at: RevisionId)
    requires Inv(s) && Inv(t) && Extends(s, t)
    ensures at in HistoricalRows(t, durable, keys, Boundary(s)) <==> at in LiveRows(s, durable, keys)
  {
    hide Inv, Extends, LatestBefore, RetractedBefore, SupersededBefore, WasRetracted, WasSuperseded, Failing;
    if at in s.revisions {
      RowPersists(s, t, at);
      RowLatestThen(s, t, at);
      LiveIffNotEnded(s, at.memory);
    } else if at in t.revisions {
      RowLatestThen(s, t, at);
    }
  }

  // The historical query, run on any later store, selects exactly the
  // revisions that the live query selected at the boundary.
  lemma TimeTravelRows(s: Db, t: Db, durable: DurableScope, keys: set<string>)
    requires Inv(s) && Inv(t) && Extends(s, t)
    ensures HistoricalRows(t, durable, keys, Boundary(s)) == LiveRows(s, durable, keys)
  {
    hide Inv, Extends, HistoricalRows, LiveRows;
    forall at ensures at in HistoricalRows(t, durable, keys, Boundary(s)) <==> at in LiveRows(s, durable, keys) {
      SameRow(s, t, durable, keys, at);
    }
  }

  lemma RowsAreRevisions(db: Db, durable: DurableScope, key: string, at: RevisionId)
    requires at in LiveKeyed(db, durable, key)
    ensures at in db.revisions && at.memory in db.heads && at.revision == db.heads[at.memory].headRevision
    ensures Live(db.heads[at.memory].state)
  {
    hide Failing;
  }

  // The same rows with the same content give the same result.
  lemma SameFirst(s: Db, t: Db, durable: DurableScope, key: string)
    requires HistoricalKeyed(t, durable, key, Boundary(s)) == LiveKeyed(s, durable, key)
    requires forall at | at in s.revisions :: at in t.revisions && t.revisions[at] == s.revisions[at]
    ensures HistoricalResult(t, durable, key, Boundary(s)) == RecordedResult(s, durable, key)
  {
    hide HistoricalKeyed, LiveKeyed, ResultText;
    KeyedRowsStored(s, durable, key, 0);
    var rows := LiveKeyed(s, durable, key);
    if rows != {} {
      FirstUnique(HistoricalRank(t), First(HistoricalRank(t), rows), First(HistoricalRank(s), rows), rows);
    }
  }

  // On any later store the historical lookup at the boundary answers what the
  // boundary's own heads say when they are ordered by when they were recorded.
  lemma TimeTravelResults(s: Db, t: Db, durable: DurableScope, keys: set<string>)
    requires Inv(s) && Inv(t) && Extends(s, t)
    ensures HistoricalFailures(t, durable, keys, Boundary(s)) == RecordedFailures(s, durable, keys)
  {
    hide Inv, Extends, HistoricalRows, LiveRows;
    forall durable, keys { TimeTravelRows(s, t, durable, keys); }
    forall at | at in s.revisions ensures at in t.revisions && t.revisions[at] == s.revisions[at] {
      RowPersists(s, t, at);
    }
    SameRowsSameResults(s, t, durable, keys);
  }

  // The historical query of `t` selects what was live on `s`, in every scope.
  ghost predicate SameRows(s: Db, t: Db) {
    forall durable, keys :: HistoricalRows(t, durable, keys, Boundary(s)) == LiveRows(s, durable, keys)
  }

  lemma SameRowsSameResults(s: Db, t: Db, durable: DurableScope, keys: set<string>)
    requires SameRows(s, t)
    requires forall at | at in s.revisions :: at in t.revisions && t.revisions[at] == s.revisions[at]
    ensures HistoricalFailures(t, durable, keys, Boundary(s)) == RecordedFailures(s, durable, keys)
  {
    hide HistoricalRows, LiveRows, HistoricalResult, RecordedResult;
    forall key | key in keys
      ensures HistoricalResult(t, durable, key, Boundary(s)) == RecordedResult(s, durable, key)
    {
      SameFirst(s, t, durable, key);
    }
  }

  // --- when both lookups give the same result ---------------------------

  predicate AheadByUpdate(db: Db, a: RevisionId, b: RevisionId)
    requires a.memory in db.heads && b.memory in db.heads
  {
    || db.heads[a.memory].updatedSeq > db.heads[b.memory].updatedSeq
    || (db.heads[a.memory].updatedSeq == db.heads[b.memory].updatedSeq && a.memory < b.memory)
  }

  predicate AheadByRecord(db: Db, a: RevisionId, b: RevisionId)
    requires a in db.revisions && b in db.revisions
  {
    || db.revisions[a].recordedSeq > db.revisions[b].recordedSeq
    || (db.revisions[a].recordedSeq == db.revisions[b].recordedSeq
        && (a.revision > b.revision || (a.revision == b.revision && a.memory < b.memory)))
  }

  // `a` and `b` are current failing attempts under one key with different
  // results; `a` was touched last and `b` was recorded last. Only a contest
  // that came after `b` puts `a` first, or an event that recorded both.
  ghost predicate Swapped(db: Db, rows: set<RevisionId>, a: RevisionId, b: RevisionId)
    requires forall c | c in rows :: c in db.revisions && c.memory in db.heads
  {
    && a in rows && b in rows
    && ResultText(db.revisions[a]) != ResultText(db.revisions[b])
    && (forall c | c in rows && c != a :: AheadByUpdate(db, a, c))
    && (forall c | c in rows && c != b :: AheadByRecord(db, b, c))
    && ((db.heads[a.memory].state == Contested && db.heads[a.memory].updatedSeq > db.revisions[a].recordedSeq)
        || db.revisions[a].recordedSeq == db.revisions[b].recordedSeq)
  }

  ghost predicate Reordered(db: Db, durable: DurableScope, key: string) {
    var rows := LiveKeyed(db, durable, key);
    && (forall c | c in rows :: c in db.revisions && c.memory in db.heads)
    && exists a, b :: Swapped(db, rows, a, b)
  }

  lemma LeadersAreFirst(db: Db, rows: set<RevisionId>, a: RevisionId, b: RevisionId)
    requires forall c | c in rows ::
        c in db.revisions && c.memory in db.heads && c.revision == db.heads[c.memory].headRevision
    requires a in rows && b in rows
    ensures (forall c | c in rows && c != a :: AheadByUpdate(db, a, c)) == (a == First(LiveRank(db), rows))
    ensures (forall c | c in rows && c != b :: AheadByRecord(db, b, c)) == (b == First(HistoricalRank(db), rows))
  {
    var x, y := First(LiveRank(db), rows), First(HistoricalRank(db), rows);
    if forall c | c in rows && c != a :: AheadByUpdate(db, a, c) {
      assert IsFirst(LiveRank(db), a, rows);
      FirstUnique(LiveRank(db), a, x, rows);
    }
    if forall c | c in rows && c != b :: AheadByRecord(db, b, c) {
      assert IsFirst(HistoricalRank(db), b, rows);
      FirstUnique(HistoricalRank(db), b, y, rows);
    }
  }

  // Two heads that lead differently were separated by a contest or share their event.
  lemma LeadersDiffer(db: Db, durable: DurableScope, key: string, a: RevisionId, b: RevisionId)
    requires Inv(db) && a in LiveKeyed(db, durable, key) && b in LiveKeyed(db, durable, key)
    requires a != b ==> a.memory in db.heads && b.memory in db.heads && AheadByUpdate(db, a, b)
    requires a != b ==> a in db.revisions && b in db.revisions && AheadByRecord(db, b, a)
    ensures a in db.revisions && b in db.revisions && a.memory in db.heads
    ensures a != b ==>
              || (db.heads[a.memory].state == Contested && db.heads[a.memory].updatedSeq > db.revisions[a].recordedSeq)
              || db.revisions[a].recordedSeq == db.revisions[b].recordedSeq
  {
    hide Inv, LiveKeyed;
    RowsAreRevisions(db, durable, key, a);
    RowsAreRevisions(db, durable, key, b);
    RecordedOrder(db, a.memory);
    RecordedOrder(db, b.memory);
  }

  lemma ReorderedIff(db: Db, durable: DurableScope, key: string)
    requires Inv(db)
    ensures Reordered(db, durable, key) <==> LiveResult(db, durable, key) != RecordedResult(db, durable, key)
  {
    hide Inv, ResultText, LiveKeyed, LiveRank, HistoricalRank, AheadByUpdate, AheadByRecord;
    var rows := LiveKeyed(db, durable, key);
    if rows != {} {
      forall c | c in rows
        ensures c in db.revisions && c.memory in db.heads && c.revision == db.heads[c.memory].headRevision
      {
        RowsAreRevisions(db, durable, key, c);
      }
      var a, b := First(LiveRank(db), rows), First(HistoricalRank(db), rows);
      LeadersAreFirst(db, rows, a, b);
      LeadersDiffer(db, durable, key, a, b);
      if ResultText(db.revisions[a]) != ResultText(db.revisions[b]) { assert Swapped(db, rows, a, b); }
      if Reordered(db, durable, key) {
        var x, y :| Swapped(db, rows, x, y);
        LeadersAreFirst(db, rows, x, y);
      }
    }
  }

  // The two lookups give the same results for a set of keys exactly when none of
  // the keys is reordered in the columns of the boundary's heads.
  lemma ResultsAgreeIff(s: Db, t: Db, durable: DurableScope, keys: set<string>)
    requires Inv(s) && Inv(t) && Extends(s, t)
    ensures HistoricalFailures(t, durable, keys, Boundary(s)) == LiveFailures(s, durable, keys)
       <==> forall key | key in keys :: !Reordered(s, durable, key)
  {
    TimeTravelResults(s, t, durable, keys);
    RecordedAgreesIff(s, durable, keys);
  }

  lemma RecordedAgreesIff(db: Db, durable: DurableScope, keys: set<string>)
    requires Inv(db)
    ensures RecordedFailures(db, durable, keys) == LiveFailures(db, durable, keys)
       <==> forall key | key in keys :: !Reordered(db, durable, key)
  {
    hide Inv, LiveResult, RecordedResult, Reordered;
    SameDomain(db, durable);
    var live, recorded := LiveFailures(db, durable, keys), RecordedFailures(db, durable, keys);
    forall key | key in keys
      ensures Reordered(db, durable, key) <==> key in live && live[key] != recorded[key]
    {
      ReorderedIff(db, durable, key);
    }
  }

  lemma SameDomain(db: Db, durable: DurableScope)
    ensures forall key :: LiveResult(db, durable, key).Some? == RecordedResult(db, durable, key).Some?
  {
    hide LiveKeyed, LiveRank, HistoricalRank;
  }

  // At most one live head per scope, kind and canonical key.
  ghost predicate UniqueLive(db: Db) {
    forall a, b | a in db.heads && b in db.heads && Live(db.heads[a].state) && Live(db.heads[b].state)
                  && db.heads[a].key.Some? && db.heads[a].key == db.heads[b].key
                  && db.heads[a].durable == db.heads[b].durable && db.heads[a].kind == db.heads[b].kind :: a == b
  }

  // With unique live keys nothing is reordered.
  lemma UniqueIsNotReordered(db: Db, durable: DurableScope, key: string)
    requires UniqueLive(db)
    ensures !Reordered(db, durable, key)
  {
    hide Failing, ResultText;
    assert forall a, b | a in LiveKeyed(db, durable, key) && b in LiveKeyed(db, durable, key) :: a == b;
  }

  // Nor without a contested failing head, as long as no two were recorded together.
  lemma UncontestedIsNotReordered(db: Db, durable: DurableScope, key: string)
    requires forall a | a in LiveKeyed(db, durable, key) && a.memory in db.heads ::
        db.heads[a.memory].state != Contested
    requires forall a, b | a in LiveKeyed(db, durable, key) && b in LiveKeyed(db, durable, key) && a != b
                           && a in db.revisions && b in db.revisions ::
               db.revisions[a].recordedSeq != db.revisions[b].recordedSeq
    ensures !Reordered(db, durable, key)
  {
    hide LiveKeyed, ResultText;
  }

  lemma RecordedOrder(s: Db, id: MemoryId)
    requires Inv(s) && id in s.heads
    ensures HeadAt(s, id) in s.revisions && s.revisions[HeadAt(s, id)].recordedSeq <= s.heads[id].updatedSeq
    ensures s.heads[id].state == Active ==> s.revisions[HeadAt(s, id)].recordedSeq == s.heads[id].updatedSeq
  {
    hide LedgerDeterminesState, LinksGrounded, AssociationsGrounded, IndexCoversHeads, ProjectionsCurrentOnce,
      ReceiptsGrounded, EventsDistinct, RevisionsOrdered, MetadataKinds;
  }
}
