// The loop that stages artifact fingerprints of recall candidates, at most a
// fixed number per memory.
module ArtifactStaging {
  import opened Basics
  import opened Domain
  import opened ApplicabilityRules
  import Database

  const MAX_STAGED_ARTIFACT_FINGERPRINTS: nat := Database.MAX_COLLECTION_ITEMS
  const DIGEST_BYTES: nat := 32

  // One joined row: is the artifact hashed, does it have a projection row, and
  // which digests does that row hold.
  datatype AttachmentRow = AttachmentRow(
    memoryId: MemoryId, verifiable: bool, projected: bool, identity: Option<Bytes>, content: Option<Bytes>)
  {
    predicate Usable() { verifiable && projected && identity.Some? && content.Some? }

    predicate Missing() { verifiable && ((identity.None? && content.None?) || !projected) }

    predicate Irrelevant() { !verifiable && ((identity.None? && content.None?) || !projected) }

    predicate Sized() { identity.Some? && content.Some? && |identity.value| == |content.value| == DIGEST_BYTES }

    function Fingerprint(): ArtifactFingerprint
      requires Usable()
    {
      ArtifactFingerprint(identity.value, content.value)
    }
  }

  // The fingerprints storage holds for one memory, in row order.
  function Projected(rows: seq<AttachmentRow>, id: MemoryId): seq<ArtifactFingerprint> {
    if rows == [] then []
    else
      var last := rows[|rows| - 1];
      Projected(rows[..|rows| - 1], id) + if last.memoryId == id && last.Usable() then [last.Fingerprint()] else []
  }

  // How many artifacts of one memory could be verified at all.
  function VerifiableCount(rows: seq<AttachmentRow>, id: MemoryId): nat {
    if rows == [] then 0
    else
      var last := rows[|rows| - 1];
      VerifiableCount(rows[..|rows| - 1], id) + if last.memoryId == id && last.verifiable then 1 else 0
  }

  predicate Rejected(row: AttachmentRow, ids: set<MemoryId>) {
    row.memoryId !in ids || !(row.Usable() || row.Missing() || row.Irrelevant())
  }

  // Rows are refused when they contradict themselves, and digests of the wrong
  // size as long as their memory still has room for them.
  predicate RefusedAt(rows: seq<AttachmentRow>, i: nat, ids: set<MemoryId>)
    requires i < |rows|
  {
    || Rejected(rows[i], ids)
    || (rows[i].Usable() && !rows[i].Sized()
        && |Projected(rows[..i], rows[i].memoryId)| < MAX_STAGED_ARTIFACT_FINGERPRINTS)
  }

  function Capped(fingerprints: seq<ArtifactFingerprint>): seq<ArtifactFingerprint> {
    if |fingerprints| <= MAX_STAGED_ARTIFACT_FINGERPRINTS then fingerprints
    else fingerprints[..MAX_STAGED_ARTIFACT_FINGERPRINTS]
  }

  ghost predicate StagedExactly(
    staged: map<MemoryId, ArtifactFingerprintSet>, ids: set<MemoryId>, rows: seq<AttachmentRow>)
  {
    && staged.Keys == ids
    && forall id | id in ids ::
         && staged[id].fingerprints == Capped(Projected(rows, id))
         && (staged[id].complete <==> |staged[id].fingerprints| == VerifiableCount(rows, id))
  }

  lemma {:induction false} ProjectedBounded(rows: seq<AttachmentRow>, id: MemoryId)
    ensures |Projected(rows, id)| <= VerifiableCount(rows, id)
  {
    if rows != [] { ProjectedBounded(rows[..|rows| - 1], id); }
  }

  // How one accepted row changes the set of its memory.
  function Advance(staged: ArtifactFingerprintSet, row: AttachmentRow): ArtifactFingerprintSet {
    if row.Usable() then
      if |staged.fingerprints| == MAX_STAGED_ARTIFACT_FINGERPRINTS then staged.(complete := false)
      else staged.(fingerprints := staged.fingerprints + [row.Fingerprint()])
    else if row.Missing() then staged.(complete := false)
    else staged
  }

  lemma AdvanceKeepsExact(
    staged: map<MemoryId, ArtifactFingerprintSet>, ids: set<MemoryId>, rows: seq<AttachmentRow>, row: AttachmentRow)
    requires StagedExactly(staged, ids, rows) && !Rejected(row, ids)
    ensures StagedExactly(staged[row.memoryId := Advance(staged[row.memoryId], row)], ids, rows + [row])
  {
    var all := rows + [row];
    assert all[..|rows|] == rows;
    var after := staged[row.memoryId := Advance(staged[row.memoryId], row)];
    assert after.Keys == ids;
    forall id | id in ids
      ensures after[id].fingerprints == Capped(Projected(all, id))
      ensures after[id].complete <==> |after[id].fingerprints| == VerifiableCount(all, id)
    {
      ProjectedBounded(rows, id);
    }
  }

  lemma NothingStaged(ids: set<MemoryId>)
    ensures StagedExactly(map id | id in ids :: ArtifactFingerprintSet([], true), ids, [])
  {
  }

  // Staging keeps the first fingerprints of every memory and reports a set as
  // complete exactly when every verifiable artifact was retained.
  method StageArtifacts(ids: set<MemoryId>, rows: seq<AttachmentRow>)
    returns (r: Result<map<MemoryId, ArtifactFingerprintSet>>)
    ensures r.Ok? <==> forall i | 0 <= i < |rows| :: !RefusedAt(rows, i, ids)
    ensures r.Ok? ==> StagedExactly(r.value, ids, rows)
    ensures r.Err? ==> r.error == Migration
  {
    hide StagedExactly, AttachmentRow.Fingerprint, Projected;
    var staged := map id | id in ids :: ArtifactFingerprintSet([], true);
    NothingStaged(ids);
    for i := 0 to |rows|
      invariant forall k | 0 <= k < i :: !RefusedAt(rows, k, ids)
      invariant StagedExactly(staged, ids, rows[..i])
    {
      var row := rows[i];
      var id := row.memoryId;
      assert rows[..i + 1] == rows[..i] + [row];
      ghost var before := staged;
      ghost var refused := RefusedAt(rows, i, ids);
      SameKeys(staged, ids, rows[..i]);
      if id in staged { RoomLeft(staged, ids, rows[..i], id); }
      if id !in staged { return Err(Migration); }
      if row.Usable() {
        if |staged[id].fingerprints| == MAX_STAGED_ARTIFACT_FINGERPRINTS {
          staged := staged[id := staged[id].(complete := false)];
        } else {
          if !row.Sized() { return Err(Migration); }
          staged := staged[id := staged[id].(fingerprints := staged[id].fingerprints + [row.Fingerprint()])];
        }
      } else if row.Missing() {
        staged := staged[id := staged[id].(complete := false)];
      } else if !row.Irrelevant() {
        return Err(Migration);
      }
      AdvanceKeepsExact(before, ids, rows[..i], row);
      assert staged == before[id := Advance(before[id], row)];
    }
    assert rows[..|rows|] == rows;
    r := Ok(staged);
  }

  lemma RoomLeft(staged: map<MemoryId, ArtifactFingerprintSet>, ids: set<MemoryId>, rows: seq<AttachmentRow>,
      id: MemoryId)
    requires StagedExactly(staged, ids, rows) && id in staged
    ensures |staged[id].fingerprints| == MAX_STAGED_ARTIFACT_FINGERPRINTS
        <==> |Projected(rows, id)| >= MAX_STAGED_ARTIFACT_FINGERPRINTS
  {
    hide Projected;
  }

  lemma SameKeys(staged: map<MemoryId, ArtifactFingerprintSet>, ids: set<MemoryId>, rows: seq<AttachmentRow>)
    requires StagedExactly(staged, ids, rows)
    ensures staged.Keys == ids
  {
  }

  lemma {:induction false} ProjectedComesFromRows(rows: seq<AttachmentRow>, id: MemoryId)
    ensures forall f | f in Projected(rows, id) ::
              exists row :: row in rows && row.memoryId == id && row.Usable() && f == row.Fingerprint()
  {
    if rows != [] {
      ProjectedComesFromRows(rows[..|rows| - 1], id);
      assert rows == rows[..|rows| - 1] + [rows[|rows| - 1]];
    }
  }

  // A staged set that lost artifacts never claims freshness, and whatever
  // mismatch it proves holds for the memory's whole artifact list.
  lemma TruncatedStagingIsSound(
    ids: set<MemoryId>, rows: seq<AttachmentRow>, staged: map<MemoryId, ArtifactFingerprintSet>, id: MemoryId,
    artifacts: seq<ArtifactRef>, current: ArtifactFingerprintSet,
    memoryScope: Scope, currentScope: Scope, git: GitResolver)
    requires StagedExactly(staged, ids, rows) && id in ids
    requires |staged[id].fingerprints| < VerifiableCount(rows, id)
    requires forall row | row in rows && row.memoryId == id && row.Usable() ::
               row.Fingerprint() in Fingerprints(artifacts)
    ensures !staged[id].complete && !staged[id].IsFullyVerifiedBy(current)
    ensures var verdict := ClassifyFingerprints(memoryScope, currentScope, staged[id], current, git);
            var whole := ClassifyFingerprints(memoryScope, currentScope, FingerprintArtifacts(artifacts), current, git);
            && verdict != Exact
            && (CompareFingerprints(staged[id], current).mismatched ==> verdict == whole)
  {
    hide CompareFingerprints, Classify, Fingerprints;
    ProjectedComesFromRows(rows, id);
    forall f | f in staged[id].fingerprints ensures f in Fingerprints(artifacts) {
      assert f in Projected(rows, id);
    }
    IncompleteIsSound(staged[id], FingerprintArtifacts(artifacts), current, memoryScope, currentScope, git);
  }

  // --- refusal and completeness, by columns -----------------------------

  // A projected hashed artifact with both of its digests.
  predicate HasDigests(row: AttachmentRow) {
    row.verifiable && row.projected && row.identity.Some? && row.content.Some?
  }

  // A projection row whose digests do not fit whether the artifact is hashed.
  predicate Disagrees(row: AttachmentRow) {
    row.projected && (row.identity.Some? || row.content.Some?) && !HasDigests(row)
  }

  function DigestRows(rows: seq<AttachmentRow>, id: MemoryId): nat {
    if rows == [] then 0
    else
      var last := rows[|rows| - 1];
      DigestRows(rows[..|rows| - 1], id) + if last.memoryId == id && HasDigests(last) then 1 else 0
  }

  lemma {:induction false} ProjectedCount(rows: seq<AttachmentRow>, id: MemoryId)
    ensures |Projected(rows, id)| == DigestRows(rows, id)
  {
    if rows != [] { ProjectedCount(rows[..|rows| - 1], id); }
  }

  // A row is refused when its memory was not asked for, when its projection
  // disagrees, or when one of the first 128 pairs of digests is not 32 bytes wide.
  lemma RefusalsTold(rows: seq<AttachmentRow>, i: nat, ids: set<MemoryId>)
    requires i < |rows|
    ensures RefusedAt(rows, i, ids) <==>
              || rows[i].memoryId !in ids || Disagrees(rows[i])
              || (HasDigests(rows[i]) && (|rows[i].identity.value| != 32 || |rows[i].content.value| != 32)
                  && DigestRows(rows[..i], rows[i].memoryId) < 128)
  {
    hide Projected, DigestRows;
    ProjectedCount(rows[..i], rows[i].memoryId);
  }

  lemma {:induction false} AllCounted(rows: seq<AttachmentRow>, id: MemoryId)
    ensures DigestRows(rows, id) <= VerifiableCount(rows, id)
    ensures DigestRows(rows, id) == VerifiableCount(rows, id) <==>
              forall i | 0 <= i < |rows| && rows[i].memoryId == id && rows[i].verifiable :: HasDigests(rows[i])
  {
    if rows != [] {
      var front := rows[..|rows| - 1];
      AllCounted(front, id);
      assert forall i | 0 <= i < |front| :: front[i] == rows[i];
    }
  }

  // A staged set is complete exactly when every hashed artifact of its memory has
  // its digests and there are at most 128 of them.
  lemma CompletenessTold(
    staged: map<MemoryId, ArtifactFingerprintSet>, ids: set<MemoryId>, rows: seq<AttachmentRow>, id: MemoryId)
    requires StagedExactly(staged, ids, rows) && id in ids
    ensures staged[id].complete <==>
              && DigestRows(rows, id) <= 128
              && forall i | 0 <= i < |rows| && rows[i].memoryId == id && rows[i].verifiable :: HasDigests(rows[i])
  {
    hide Projected, DigestRows, VerifiableCount, HasDigests;
    ProjectedCount(rows, id);
    AllCounted(rows, id);
  }
}
