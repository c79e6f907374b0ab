// What the attachment tables hold of a request, row by row.
module AttachmentContents {
  import opened Basics
  import opened Domain
  import opened Database
  import opened AttachmentTables
  import opened Strings

  // --- tags -------------------------------------------------------------

  predicate FirstTag(redactor: Redactor, tags: seq<string>, i: nat)
    requires i < |tags|
  {
    forall j | 0 <= j < i :: AsciiLower(redactor.text(tags[j])) != AsciiLower(redactor.text(tags[i]))
  }

  // The first tag of each spelling up to case, and nothing else.
  ghost predicate TagsTold(redactor: Redactor, tags: seq<string>, stored: seq<string>) {
    && (forall tag :: tag in stored <==>
          exists i | 0 <= i < |tags| :: tag == redactor.text(tags[i]) && FirstTag(redactor, tags, i))
    && (forall i, j | 0 <= i < j < |stored| :: AsciiLower(stored[i]) != AsciiLower(stored[j]))
  }

  lemma TagKey(a: string, b: string)
    ensures SameKey(TagBefore, a, b) == (AsciiLower(a) == AsciiLower(b))
  {
    hide TextBefore, AsciiLower;
    TextOrder(AsciiLower(a), AsciiLower(b), "");
  }

  lemma StoredTags(redactor: Redactor, tags: seq<string>)
    ensures TagsTold(redactor, tags, StoreAll(RedactAll(redactor, tags), TagBefore))
  {
    hide StoreAll, TagBefore, AsciiLower, KeyOrder, Kept, SameKey, Ascending;
    var given := RedactAll(redactor, tags);
    TagOrder();
    StoredRows(given, TagBefore);
    forall tag
      ensures Kept(given, tag, TagBefore)
        <==> exists i | 0 <= i < |tags| :: tag == redactor.text(tags[i]) && FirstTag(redactor, tags, i)
    {
      FirstTagIsKept(redactor, tags, tag);
    }
    forall i, j | 0 <= i < j < |StoreAll(given, TagBefore)|
      ensures AsciiLower(StoreAll(given, TagBefore)[i]) != AsciiLower(StoreAll(given, TagBefore)[j])
    {
      AscendingDiffers(StoreAll(given, TagBefore), TagBefore, i, j);
      TagKey(StoreAll(given, TagBefore)[i], StoreAll(given, TagBefore)[j]);
    }
  }

  lemma AscendingDiffers<T(!new)>(rows: seq<T>, before: Order<T>, i: nat, j: nat)
    requires Ascending(rows, before) && i < j < |rows|
    ensures !SameKey(before, rows[i], rows[j])
  {
  }

  lemma FirstTagIsKept(redactor: Redactor, tags: seq<string>, tag: string)
    ensures Kept(RedactAll(redactor, tags), tag, TagBefore)
       <==> exists i | 0 <= i < |tags| :: tag == redactor.text(tags[i]) && FirstTag(redactor, tags, i)
  {
    hide TagBefore, AsciiLower, SameKey;
    var given := RedactAll(redactor, tags);
    forall i, j | 0 <= i < |given| && 0 <= j < |given|
      ensures SameKey(TagBefore, given[j], given[i])
           == (AsciiLower(redactor.text(tags[j])) == AsciiLower(redactor.text(tags[i])))
    {
      TagKey(given[j], given[i]);
    }
    assert forall i | 0 <= i < |tags| :: FirstTag(redactor, tags, i) == FirstOfKey(given, i, TagBefore);
  }

  // --- entities ---------------------------------------------------------

  predicate FirstEntity(redactor: Redactor, entities: seq<EntityRef>, i: nat)
    requires i < |entities|
  {
    forall j | 0 <= j < i ::
      || redactor.text(entities[j].kind) != redactor.text(entities[i].kind)
      || redactor.text(entities[j].canonical) != redactor.text(entities[i].canonical)
  }

  predicate IsEntityRow(redactor: Redactor, given: EntityRef, stored: EntityRef) {
    && stored.kind == redactor.text(given.kind) && stored.display == redactor.text(given.display)
    && stored.canonical == AsciiLower(redactor.text(given.canonical))
  }

  // The first entity of each kind and identity, its identity in lower case.
  ghost predicate EntitiesTold(redactor: Redactor, entities: seq<EntityRef>, stored: seq<EntityRef>) {
    forall row :: row in stored <==>
      exists i | 0 <= i < |entities| :: IsEntityRow(redactor, entities[i], row) && FirstEntity(redactor, entities, i)
  }

  lemma PreparedEntityOrder()
    ensures KeyOrder(PreparedEntityBefore)
    ensures forall a, b :: SameKey(PreparedEntityBefore, a, b) <==> a.kind == b.kind && a.canonical == b.canonical
  {
    hide TextBefore;
    TextOrders();
  }

  lemma FirstEntityIsKept(redactor: Redactor, entities: seq<EntityRef>, i: nat)
    requires i < |entities|
    ensures FirstOfKey(RedactEntities(redactor, entities), i, PreparedEntityBefore)
         == FirstEntity(redactor, entities, i)
  {
    hide PreparedEntityBefore, SameKey, KeyOrder;
    PreparedEntityOrder();
    var given := RedactEntities(redactor, entities);
    assert forall j | 0 <= j < i ::
        SameKey(PreparedEntityBefore, given[j], given[i])
        == (redactor.text(entities[j].kind) == redactor.text(entities[i].kind)
            && redactor.text(entities[j].canonical) == redactor.text(entities[i].canonical));
  }

  lemma StoredEntities(redactor: Redactor, entities: seq<EntityRef>, stored: seq<EntityRef>)
    requires forall row :: row in stored <==>
               row in LowerEntities(StoreAll(RedactEntities(redactor, entities), PreparedEntityBefore))
    ensures EntitiesTold(redactor, entities, stored)
  {
    hide StoreAll, PreparedEntityBefore, AsciiLower, KeyOrder, Kept, Ascending, FirstOfKey, FirstEntity;
    var given := RedactEntities(redactor, entities);
    var rows := StoreAll(given, PreparedEntityBefore);
    PreparedEntityOrder();
    StoredRows(given, PreparedEntityBefore);
    forall i | 0 <= i < |entities|
      ensures FirstOfKey(given, i, PreparedEntityBefore) == FirstEntity(redactor, entities, i)
    {
      FirstEntityIsKept(redactor, entities, i);
    }
    forall row
      ensures row in stored <==> exists i | 0 <= i < |entities| ::
                IsEntityRow(redactor, entities[i], row) && FirstEntity(redactor, entities, i)
    {
      if row in stored {
        var k :| 0 <= k < |rows| && LowerEntities(rows)[k] == row;
        var i := KeptIndex(given, rows[k], PreparedEntityBefore);
        assert IsEntityRow(redactor, entities[i], row);
      }
      if i :| 0 <= i < |entities| && IsEntityRow(redactor, entities[i], row) && FirstEntity(redactor, entities, i) {
        IndexIsKept(given, i, PreparedEntityBefore);
        var k :| 0 <= k < |rows| && rows[k] == given[i];
        assert LowerEntities(rows)[k] == row;
      }
    }
  }

  lemma KeptIndex<T>(items: seq<T>, x: T, before: Order<T>) returns (i: nat)
    requires Kept(items, x, before)
    ensures i < |items| && items[i] == x && FirstOfKey(items, i, before)
  {
    hide FirstOfKey;
    i :| 0 <= i < |items| && items[i] == x && FirstOfKey(items, i, before);
  }

  lemma IndexIsKept<T>(items: seq<T>, i: nat, before: Order<T>)
    requires i < |items| && FirstOfKey(items, i, before)
    ensures Kept(items, items[i], before)
  {
    hide FirstOfKey;
  }

  // --- artifacts --------------------------------------------------------

  // Nothing but steps to the current directory.
  predicate IsSteps(path: string) { path == "" || (|path| >= 2 && path[..2] == "./" && IsSteps(path[2..])) }

  // The path behind its leading steps, backslashes turned around.
  predicate IsPortableAfter(steps: string, rest: string, stored: string) {
    && IsSteps(steps) && !("./" <= rest) && |stored| == |rest|
    && forall i | 0 <= i < |rest| :: stored[i] == if rest[i] == '\\' then '/' else rest[i]
  }

  ghost predicate IsPortable(path: string, stored: string) {
    exists steps, rest :: path == steps + rest && IsPortableAfter(steps, rest, stored)
  }

  lemma OneMoreStep(path: string, stored: string)
    requires "./" <= path && IsPortable(path[2..], stored)
    ensures IsPortable(path, stored)
  {
    var steps, rest :| path[2..] == steps + rest && IsPortableAfter(steps, rest, stored);
    var all := "./" + steps;
    assert all[2..] == steps && all[..2] == "./" && path == all + rest;
  }

  lemma {:induction false} PortableIs(path: string)
    ensures IsPortable(path, PortablePath(path))
  {
    hide IsPortable;
    if "./" <= path {
      PortableIs(path[2..]);
      OneMoreStep(path, PortablePath(path));
    } else {
      NoMoreSteps(path, PortablePath(path));
    }
  }

  lemma NoMoreSteps(path: string, stored: string)
    requires IsPortableAfter("", path, stored)
    ensures IsPortable(path, stored)
  {
    assert path == "" + path;
  }

  // An absent or empty text is stored as absent.
  predicate IsColumnOf(redactor: Redactor, given: Option<string>, stored: Option<string>) {
    match given
    case None => stored == None
    case Some(text) => stored == if redactor.text(text) == "" then None else Some(redactor.text(text))
  }

  ghost predicate IsArtifactRow(redactor: Redactor, given: ArtifactRef, stored: ArtifactRef) {
    && stored.repoId == redactor.text(given.repoId) && IsPortable(redactor.text(given.path), stored.path)
    && IsColumnOf(redactor, given.symbol, stored.symbol)
    && IsColumnOf(redactor, given.contentHash, stored.contentHash)
    && IsColumnOf(redactor, given.gitOid, stored.gitOid) && IsColumnOf(redactor, given.language, stored.language)
  }

  ghost predicate RowOfSome(redactor: Redactor, artifacts: seq<ArtifactRef>, row: ArtifactRef) {
    exists i | 0 <= i < |artifacts| :: IsArtifactRow(redactor, artifacts[i], row)
  }

  ghost predicate HasRow(redactor: Redactor, artifact: ArtifactRef, stored: seq<ArtifactRef>) {
    exists k | 0 <= k < |stored| :: IsArtifactRow(redactor, artifact, stored[k])
  }

  // A row for every artifact given, and no other row.
  ghost predicate ArtifactsTold(redactor: Redactor, artifacts: seq<ArtifactRef>, stored: seq<ArtifactRef>) {
    && (forall k | 0 <= k < |stored| :: RowOfSome(redactor, artifacts, stored[k]))
    && (forall i | 0 <= i < |artifacts| :: HasRow(redactor, artifacts[i], stored))
    && (forall i, j | 0 <= i < j < |stored| :: stored[i] != stored[j])
  }

  function RedactArtifacts(redactor: Redactor, artifacts: seq<ArtifactRef>): seq<ArtifactRef> {
    seq(|artifacts|, i requires 0 <= i < |artifacts| => RedactArtifact(redactor, artifacts[i]))
  }

  lemma ArtifactRowIs(redactor: Redactor, artifact: ArtifactRef)
    ensures IsArtifactRow(redactor, artifact, ArtifactRow(RedactArtifact(redactor, artifact)))
  {
    hide PortablePath, IsPortable;
    PortableIs(redactor.text(artifact.path));
  }

  // Rows of one key are one row.
  lemma ArtifactKey(a: ArtifactRef, b: ArtifactRef)
    requires SameKey(ArtifactBefore, ArtifactRow(a), ArtifactRow(b))
    ensures ArtifactRow(a) == ArtifactRow(b)
  {
    hide TextBefore, PortablePath;
    TextOrders();
  }

  lemma StoredArtifacts(redactor: Redactor, artifacts: seq<ArtifactRef>)
    ensures ArtifactsTold(
              redactor, artifacts, StoreAll(ArtifactRows(RedactArtifacts(redactor, artifacts)), ArtifactBefore))
  {
    hide StoreAll, ArtifactBefore, ArtifactRow, RedactArtifact, KeyOrder, Kept, Ascending, IsArtifactRow, SameKey;
    var given := RedactArtifacts(redactor, artifacts);
    var rows := ArtifactRows(given);
    var stored := StoreAll(rows, ArtifactBefore);
    ArtifactOrder();
    StoredRows(rows, ArtifactBefore);
    forall k | 0 <= k < |stored| ensures RowOfSome(redactor, artifacts, stored[k]) {
      assert stored[k] in stored;
      var i := KeptIndex(rows, stored[k], ArtifactBefore);
      ArtifactRowIs(redactor, artifacts[i]);
      assert IsArtifactRow(redactor, artifacts[i], stored[k]);
    }
    forall i | 0 <= i < |artifacts| ensures HasRow(redactor, artifacts[i], stored) {
      ArtifactRowIs(redactor, artifacts[i]);
      RowIsStored(given, i);
      var k :| 0 <= k < |stored| && stored[k] == rows[i];
      assert IsArtifactRow(redactor, artifacts[i], stored[k]);
    }
    forall i, j | 0 <= i < j < |stored| ensures stored[i] != stored[j] {
      AscendingDiffers(stored, ArtifactBefore, i, j);
      Itself(stored[i]);
    }
  }

  lemma Itself(artifact: ArtifactRef)
    ensures SameKey(ArtifactBefore, artifact, artifact)
  {
    ArtifactOrder();
  }

  lemma RowIsStored(given: seq<ArtifactRef>, i: nat)
    requires i < |given|
    ensures ArtifactRows(given)[i] in StoreAll(ArtifactRows(given), ArtifactBefore)
  {
    hide StoreAll, ArtifactBefore, ArtifactRow, KeyOrder, Kept, Ascending, SameKey, FirstOfKey;
    var rows := ArtifactRows(given);
    ArtifactOrder();
    StoredRows(rows, ArtifactBefore);
    Itself(rows[i]);
    assert HasKey(rows, rows[i], ArtifactBefore);
    KeyIsKept(rows, rows[i], ArtifactBefore);
    var y :| Kept(rows, y, ArtifactBefore) && SameKey(ArtifactBefore, y, rows[i]);
    var k := KeptIndex(rows, y, ArtifactBefore);
    ArtifactKey(given[k], given[i]);
  }

  // --- evidence ---------------------------------------------------------

  // The first citation of an event under a relation; the revision's own event
  // is cited as derived from before any of them.
  predicate FirstCitation(evidence: seq<Evidence>, i: nat, event: EventId)
    requires i < |evidence|
  {
    && !(evidence[i].event == event && Trim(evidence[i].relation) == "derived_from")
    && forall j | 0 <= j < i ::
         evidence[j].event != evidence[i].event || Trim(evidence[j].relation) != Trim(evidence[i].relation)
  }

  ghost predicate EvidenceTold(evidence: seq<Evidence>, event: EventId, stored: seq<Evidence>) {
    forall row :: row in stored <==>
      || row == Evidence(event, "derived_from", None, None)
      || exists i | 0 <= i < |evidence| ::
           && FirstCitation(evidence, i, event)
           && row == Evidence(evidence[i].event, Trim(evidence[i].relation), evidence[i].spanStart, evidence[i].spanEnd)
  }

  function TrimEvidence(evidence: seq<Evidence>): seq<Evidence> {
    seq(|evidence|, i requires 0 <= i < |evidence| => evidence[i].(relation := Trim(evidence[i].relation)))
  }

  lemma EvidenceKey(a: Evidence, b: Evidence)
    ensures SameKey(EvidenceBefore, a, b) == (a.event == b.event && a.relation == b.relation)
  {
    hide TextBefore;
    TextOrders();
  }

  lemma FirstCitationIsKept(evidence: seq<Evidence>, i: nat, event: EventId)
    requires i < |evidence|
    ensures FirstOfKey([DerivedFrom(event)] + TrimEvidence(evidence), i + 1, EvidenceBefore)
         == FirstCitation(evidence, i, event)
  {
    hide EvidenceBefore, SameKey, Trim;
    var all := [DerivedFrom(event)] + TrimEvidence(evidence);
    forall j | 0 <= j < |all|
      ensures SameKey(EvidenceBefore, all[j], all[i + 1])
           == (all[j].event == all[i + 1].event && all[j].relation == all[i + 1].relation)
    {
      EvidenceKey(all[j], all[i + 1]);
    }
    assert forall j | 0 <= j < |evidence| :: all[j + 1] == TrimEvidence(evidence)[j];
    if FirstOfKey(all, i + 1, EvidenceBefore) {
      forall j | 0 <= j < i
        ensures evidence[j].event != evidence[i].event || Trim(evidence[j].relation) != Trim(evidence[i].relation)
      {
        assert !SameKey(EvidenceBefore, all[j + 1], all[i + 1]);
      }
      assert !SameKey(EvidenceBefore, all[0], all[i + 1]);
    }
    if FirstCitation(evidence, i, event) {
      forall j | 0 <= j < i + 1 ensures !SameKey(EvidenceBefore, all[j], all[i + 1]) {
        if j > 0 { assert all[j] == TrimEvidence(evidence)[j - 1]; }
      }
    }
  }

  lemma StoredEvidence(evidence: seq<Evidence>, event: EventId)
    ensures EvidenceTold(
              evidence, event, StoreAll([DerivedFrom(event)] + TrimEvidence(evidence), EvidenceBefore))
  {
    hide StoreAll, EvidenceBefore, KeyOrder, Ascending, SameKey, Trim, FirstOfKey, FirstCitation;
    var all := [DerivedFrom(event)] + TrimEvidence(evidence);
    EvidenceOrder();
    StoredRows(all, EvidenceBefore);
    forall i | 0 <= i < |evidence|
      ensures all[i + 1] == evidence[i].(relation := Trim(evidence[i].relation))
      ensures FirstOfKey(all, i + 1, EvidenceBefore) == FirstCitation(evidence, i, event)
    {
      FirstCitationIsKept(evidence, i, event);
    }
    AlwaysFirst(all, EvidenceBefore);
    forall row
      ensures Kept(all, row, EvidenceBefore) <==>
        || row == Evidence(event, "derived_from", None, None)
        || exists i | 0 <= i < |evidence| ::
             && FirstCitation(evidence, i, event)
             && row == Evidence(
                  evidence[i].event, Trim(evidence[i].relation), evidence[i].spanStart, evidence[i].spanEnd)
    {
      if Kept(all, row, EvidenceBefore) {
        var k := KeptIndex(all, row, EvidenceBefore);
        if k > 0 { assert FirstCitation(evidence, k - 1, event); }
      }
    }
  }

  lemma AlwaysFirst<T>(items: seq<T>, before: Order<T>)
    requires items != []
    ensures FirstOfKey(items, 0, before)
  {
  }

  // --- all four ---------------------------------------------------------

  ghost predicate AttachmentsTold(redactor: Redactor, request: MemoryRequest, event: EventId, stored: Attachments) {
    && TagsTold(redactor, request.tags, stored.tags) && EntitiesTold(redactor, request.entities, stored.entities)
    && ArtifactsTold(redactor, request.artifacts, stored.artifacts)
    && EvidenceTold(request.evidence, event, stored.evidence)
  }

  // What a prepared request leaves in its tables, in terms of the request itself.
  lemma StoredIsTold(redactor: Redactor, request: MemoryRequest, event: EventId)
    ensures var prepared := PrepareMemory(redactor, request);
            AttachmentsTold(redactor, request, event,
              Stored(prepared.tags, prepared.entities, prepared.artifacts, prepared.evidence, event))
  {
    hide StoreAll, TagsTold, EntitiesTold, ArtifactsTold, EvidenceTold, TagBefore, PreparedEntityBefore, EntityBefore,
      ArtifactBefore, EvidenceBefore, Trim, RedactArtifact, LowerEntity, ArtifactRow, KeyOrder, Ascending, Kept;
    var prepared := PrepareMemory(redactor, request);
    StoredAttachments(prepared.tags, prepared.entities, prepared.artifacts, prepared.evidence, event);
    PreparedTagsAreStored(RedactAll(redactor, request.tags));
    StoredTags(redactor, request.tags);
    StoredEntities(redactor, request.entities, StoreAll(LowerEntities(prepared.entities), EntityBefore));
    assert prepared.artifacts == RedactArtifacts(redactor, request.artifacts);
    StoredArtifacts(redactor, request.artifacts);
    assert prepared.evidence == TrimEvidence(request.evidence);
    StoredEvidence(request.evidence, event);
  }
}
