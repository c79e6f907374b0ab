// Attachments as their tables keep them: one row per key, the first one
// inserted wins, and rows are read in key order.
module AttachmentTables {
  import opened Basics
  import opened Domain
  import opened Strings

  // --- ordered tables ---------------------------------------------------

  // Compares the keys of two rows.
  type Order<!T> = (T, T) -> bool

  // INSERT OR IGNORE into a table read in key order.
  function InsertOrIgnore<T>(rows: seq<T>, row: T, before: Order<T>): seq<T> {
    if rows == [] then [row]
    else if before(row, rows[0]) then [row] + rows
    else if before(rows[0], row) then [rows[0]] + InsertOrIgnore(rows[1..], row, before)
    else rows
  }

  function StoreAll<T>(items: seq<T>, before: Order<T>): seq<T> {
    if items == [] then []
    else InsertOrIgnore(StoreAll(items[..|items| - 1], before), items[|items| - 1], before)
  }

  predicate SameKey<T>(before: Order<T>, a: T, b: T) { !before(a, b) && !before(b, a) }

  ghost predicate KeyOrder<T(!new)>(before: Order<T>) {
    && (forall a :: !before(a, a))
    && (forall a, b, c :: before(a, b) && before(b, c) ==> before(a, c))
    && (forall a, b, c :: before(a, b) ==> before(a, c) || before(c, b))
  }

  ghost predicate Ascending<T(!new)>(rows: seq<T>, before: Order<T>) {
    forall i, j | 0 <= i < j < |rows| :: before(rows[i], rows[j])
  }

  lemma {:induction false} InsertKeepsOrder<T(!new)>(rows: seq<T>, row: T, before: Order<T>)
    requires KeyOrder(before) && Ascending(rows, before)
    ensures var after := InsertOrIgnore(rows, row, before);
            && Ascending(after, before)
            && (forall x | x in rows :: x in after) && (forall x | x in after :: x in rows || x == row)
            && (row in after || exists x | x in rows :: SameKey(before, x, row))
            && ((exists x | x in rows :: SameKey(before, x, row)) ==> after == rows)
  {
    if rows == [] {
    } else if before(row, rows[0]) {
      forall x | x in rows ensures before(row, x) {
        var i :| 0 <= i < |rows| && rows[i] == x;
        assert i == 0 || before(rows[0], rows[i]);
      }
    } else if before(rows[0], row) {
      var rest := rows[1..];
      InsertKeepsOrder(rest, row, before);
      var after := InsertOrIgnore(rest, row, before);
      assert rows == [rows[0]] + rest;
      forall x | x in after ensures before(rows[0], x) {
        if x in rest { var i :| 0 <= i < |rest| && rest[i] == x; assert rows[i + 1] == x; }
      }
      assert forall i | 0 <= i < |after| :: after[i] in after;
      if x :| x in rows && SameKey(before, x, row) {
        assert x in rest;
        assert after == rest;
      }
    } else {
      assert SameKey(before, rows[0], row) && rows[0] in rows;
    }
  }

  // An item that comes first among those of its key.
  predicate FirstOfKey<T>(items: seq<T>, i: nat, before: Order<T>)
    requires i < |items|
  {
    forall j | 0 <= j < i :: !SameKey(before, items[j], items[i])
  }

  ghost predicate Kept<T>(items: seq<T>, x: T, before: Order<T>) {
    exists i | 0 <= i < |items| :: items[i] == x && FirstOfKey(items, i, before)
  }

  ghost predicate HasKey<T>(items: seq<T>, x: T, before: Order<T>) {
    exists i | 0 <= i < |items| :: SameKey(before, items[i], x)
  }

  lemma KeptSnoc<T(!new)>(items: seq<T>, last: T, x: T, before: Order<T>)
    ensures Kept(items + [last], x, before) == (Kept(items, x, before) || (x == last && !HasKey(items, last, before)))
  {
    var all := items + [last];
    assert forall i | 0 <= i < |items| ::
        all[i] == items[i] && FirstOfKey(all, i, before) == FirstOfKey(items, i, before);
    assert all[|items|] == last && FirstOfKey(all, |items|, before) == !HasKey(items, last, before);
  }

  // Every key among the items is the key of a kept item.
  lemma {:induction false} KeyIsKept<T(!new)>(items: seq<T>, x: T, before: Order<T>)
    requires KeyOrder(before)
    ensures HasKey(items, x, before) == (exists y :: Kept(items, y, before) && SameKey(before, y, x))
  {
    hide KeyOrder, HasKey, Kept;
    if items == [] {
      NothingKept(x, before);
    } else {
      var n := |items| - 1;
      var front, last := items[..n], items[n];
      assert items == front + [last];
      KeyIsKept(front, x, before);
      KeyIsKept(front, last, before);
      HasKeySnoc(front, last, x, before);
      KeptSnocs(front, last, before);
      if SameKey(before, last, x) && HasKey(front, last, before) {
        var y :| Kept(front, y, before) && SameKey(before, y, last);
        SameKeyChains(before, y, last, x);
      }
    }
  }

  lemma NothingKept<T(!new)>(x: T, before: Order<T>)
    ensures !HasKey([], x, before) && forall y :: !Kept([], y, before)
  {
  }

  lemma KeptSnocs<T(!new)>(items: seq<T>, last: T, before: Order<T>)
    ensures forall x ::
              Kept(items + [last], x, before) == (Kept(items, x, before) || (x == last && !HasKey(items, last, before)))
  {
    forall x
      ensures Kept(items + [last], x, before)
           == (Kept(items, x, before) || (x == last && !HasKey(items, last, before)))
    {
      KeptSnoc(items, last, x, before);
    }
  }

  lemma HasKeySnoc<T(!new)>(items: seq<T>, last: T, x: T, before: Order<T>)
    ensures HasKey(items + [last], x, before) == (HasKey(items, x, before) || SameKey(before, last, x))
  {
    var all := items + [last];
    assert all[|items|] == last && forall i | 0 <= i < |items| :: all[i] == items[i];
  }

  lemma SameKeyChains<T(!new)>(before: Order<T>, a: T, b: T, c: T)
    requires KeyOrder(before) && SameKey(before, a, b) && SameKey(before, b, c)
    ensures SameKey(before, a, c)
  {
  }

  // A stored list is ordered, has one row per key, and holds exactly the items
  // that come first among those of their keys.
  lemma {:induction false} StoredRows<T(!new)>(items: seq<T>, before: Order<T>)
    requires KeyOrder(before)
    ensures Ascending(StoreAll(items, before), before)
    ensures forall x :: x in StoreAll(items, before) <==> Kept(items, x, before)
  {
    hide KeyOrder, Ascending, HasKey, Kept, InsertOrIgnore;
    if items == [] {
      assert Ascending<T>([], before) by { NothingAscends(before); }
      forall x ensures !Kept([], x, before) { NothingKept(x, before); }
    } else {
      var n := |items| - 1;
      var front, last := items[..n], items[n];
      assert items == front + [last];
      StoredRows(front, before);
      InsertKeepsOrder(StoreAll(front, before), last, before);
      KeyIsKept(front, last, before);
      KeptSnocs(front, last, before);
    }
  }

  lemma NothingAscends<T(!new)>(before: Order<T>)
    ensures Ascending([], before)
  {
  }

  lemma {:induction false} AppendLargest<T(!new)>(rows: seq<T>, row: T, before: Order<T>)
    requires KeyOrder(before) && forall x | x in rows :: before(x, row)
    ensures InsertOrIgnore(rows, row, before) == rows + [row]
  {
    if rows != [] {
      assert before(rows[0], row);
      assert rows == [rows[0]] + rows[1..];
      AppendLargest(rows[1..], row, before);
    }
  }

  // Storing a stored list again changes nothing.
  lemma {:induction false} StoredIsFixed<T(!new)>(rows: seq<T>, before: Order<T>)
    requires KeyOrder(before) && Ascending(rows, before)
    ensures StoreAll(rows, before) == rows
  {
    if rows != [] {
      var n := |rows| - 1;
      StoredIsFixed(rows[..n], before);
      AppendLargest(rows[..n], rows[n], before);
      assert rows == rows[..n] + [rows[n]];
    }
  }

  // --- the attachment tables --------------------------------------------

  predicate TagBefore(a: string, b: string) { TextBefore(AsciiLower(a), AsciiLower(b)) }

  // Absent and empty columns are the same stored value.
  function Column(text: Option<string>): string { if text.Some? then text.value else "" }

  // Prepared requests keep one entity per kind and canonical identity.
  predicate PreparedEntityBefore(a: EntityRef, b: EntityRef) {
    TextBefore(a.kind, b.kind) || (a.kind == b.kind && TextBefore(a.canonical, b.canonical))
  }

  // Stored entities are partitioned by their display text as well.
  predicate EntityBefore(a: EntityRef, b: EntityRef) {
    PreparedEntityBefore(a, b) || (a.kind == b.kind && a.canonical == b.canonical && TextBefore(a.display, b.display))
  }

  predicate ArtifactTailBefore(a: ArtifactRef, b: ArtifactRef) {
    || TextBefore(Column(a.contentHash), Column(b.contentHash))
    || (Column(a.contentHash) == Column(b.contentHash)
        && (TextBefore(Column(a.gitOid), Column(b.gitOid))
            || (Column(a.gitOid) == Column(b.gitOid) && TextBefore(Column(a.language), Column(b.language)))))
  }

  predicate ArtifactBefore(a: ArtifactRef, b: ArtifactRef) {
    || TextBefore(a.repoId, b.repoId)
    || (a.repoId == b.repoId
        && (TextBefore(a.path, b.path)
            || (a.path == b.path
                && (TextBefore(Column(a.symbol), Column(b.symbol))
                    || (Column(a.symbol) == Column(b.symbol) && ArtifactTailBefore(a, b))))))
  }

  predicate EvidenceBefore(a: Evidence, b: Evidence) {
    a.event < b.event || (a.event == b.event && TextBefore(a.relation, b.relation))
  }

  // --- what rows hold of a request --------------------------------------

  function LowerEntity(entity: EntityRef): EntityRef { entity.(canonical := AsciiLower(entity.canonical)) }

  function LowerEntities(entities: seq<EntityRef>): seq<EntityRef> {
    seq(|entities|, i requires 0 <= i < |entities| => LowerEntity(entities[i]))
  }

  function PortablePath(path: string): string {
    if |path| >= 2 && path[..2] == "./" then PortablePath(path[2..])
    else seq(|path|, i requires 0 <= i < |path| => if path[i] == '\\' then '/' else path[i])
  }

  function NonEmpty(text: Option<string>): Option<string> { if text == Some("") then None else text }

  function ArtifactRow(artifact: ArtifactRef): ArtifactRef {
    ArtifactRef(artifact.repoId, PortablePath(artifact.path), NonEmpty(artifact.symbol), NonEmpty(artifact.contentHash),
                NonEmpty(artifact.gitOid), NonEmpty(artifact.language))
  }

  function ArtifactRows(artifacts: seq<ArtifactRef>): seq<ArtifactRef> {
    seq(|artifacts|, i requires 0 <= i < |artifacts| => ArtifactRow(artifacts[i]))
  }

  datatype Attachments = Attachments(
    tags: seq<string>, entities: seq<EntityRef>, artifacts: seq<ArtifactRef>, evidence: seq<Evidence>)

  function DerivedFrom(event: EventId): Evidence { Evidence(event, "derived_from") }

  // Every revision also cites the event it was derived from, before anything else.
  function Stored(
    tags: seq<string>, entities: seq<EntityRef>, artifacts: seq<ArtifactRef>, evidence: seq<Evidence>, event: EventId):
    Attachments
  {
    Attachments(StoreAll(tags, TagBefore), StoreAll(LowerEntities(entities), EntityBefore),
                StoreAll(ArtifactRows(artifacts), ArtifactBefore),
                StoreAll([DerivedFrom(event)] + evidence, EvidenceBefore))
  }

  // --- the orders are orders --------------------------------------------

  lemma {:induction false} TextOrder(a: string, b: string, c: string)
    ensures !TextBefore(a, a)
    ensures TextBefore(a, b) && TextBefore(b, c) ==> TextBefore(a, c)
    ensures TextBefore(a, b) ==> TextBefore(a, c) || TextBefore(c, b)
    ensures !TextBefore(a, b) && !TextBefore(b, a) ==> a == b
  {
    if a != "" { TextOrder(a[1..], if b == "" then "" else b[1..], if c == "" then "" else c[1..]); }
    if a != "" && b != "" && !TextBefore(a, b) && !TextBefore(b, a) {
      assert a == [a[0]] + a[1..] && b == [b[0]] + b[1..];
    }
  }

  lemma TextOrders()
    ensures forall a: string :: !TextBefore(a, a)
    ensures forall a, b, c :: TextBefore(a, b) && TextBefore(b, c) ==> TextBefore(a, c)
    ensures forall a, b, c :: TextBefore(a, b) ==> TextBefore(a, c) || TextBefore(c, b)
    ensures forall a, b :: !TextBefore(a, b) && !TextBefore(b, a) ==> a == b
  {
    forall a, b, c
      ensures !TextBefore(a, a)
      ensures TextBefore(a, b) && TextBefore(b, c) ==> TextBefore(a, c)
      ensures TextBefore(a, b) ==> TextBefore(a, c) || TextBefore(c, b)
      ensures !TextBefore(a, b) && !TextBefore(b, a) ==> a == b
    {
      TextOrder(a, b, c);
    }
  }

  lemma TagOrder()
    ensures KeyOrder(TagBefore)
  {
    hide TextBefore, AsciiLower;
    TextOrders();
  }

  lemma EvidenceOrder()
    ensures KeyOrder(EvidenceBefore)
    ensures forall a, b :: SameKey(EvidenceBefore, a, b) ==> a.event == b.event && a.relation == b.relation
  {
    hide TextBefore;
    TextOrders();
  }

  lemma EntityOrder()
    ensures KeyOrder(EntityBefore)
    ensures forall a, b :: SameKey(EntityBefore, a, b) ==> a == b
  {
    hide TextBefore;
    TextOrders();
  }

  lemma ArtifactTailOrder()
    ensures KeyOrder(ArtifactTailBefore)
    ensures forall a, b :: SameKey(ArtifactTailBefore, a, b) ==>
              && Column(a.contentHash) == Column(b.contentHash) && Column(a.gitOid) == Column(b.gitOid)
              && Column(a.language) == Column(b.language)
  {
    hide TextBefore, Column;
    TextOrders();
  }

  lemma ArtifactOrder()
    ensures KeyOrder(ArtifactBefore)
  {
    hide TextBefore, Column, ArtifactTailBefore;
    TextOrders();
    ArtifactTailOrder();
  }

  // --- what a revision's tables hold ------------------------------------

  // Tags differ in more than case, entities are stored in lower case, absent
  // and empty artifact columns are one, and evidence repeating an event and
  // relation is stored once, with its first span.
  lemma StoredAttachments(
    tags: seq<string>, entities: seq<EntityRef>, artifacts: seq<ArtifactRef>, evidence: seq<Evidence>, event: EventId)
    ensures var stored := Stored(tags, entities, artifacts, evidence, event);
            && Ascending(stored.tags, TagBefore) && Ascending(stored.entities, EntityBefore)
            && Ascending(stored.artifacts, ArtifactBefore) && Ascending(stored.evidence, EvidenceBefore)
            && (forall tag :: tag in stored.tags <==> Kept(tags, tag, TagBefore))
            && (forall entity :: entity in stored.entities <==> entity in LowerEntities(entities))
            && (forall artifact :: artifact in stored.artifacts <==>
                  Kept(ArtifactRows(artifacts), artifact, ArtifactBefore))
            && (forall source :: source in stored.evidence
                  <==> Kept([DerivedFrom(event)] + evidence, source, EvidenceBefore))
            && DerivedFrom(event) in stored.evidence
  {
    hide KeyOrder, Ascending, StoreAll, TagBefore, EntityBefore, ArtifactBefore, EvidenceBefore;
    TagOrder();
    EntityOrder();
    ArtifactOrder();
    EvidenceOrder();
    StoredRows(tags, TagBefore);
    StoredRows(LowerEntities(entities), EntityBefore);
    StoredRows(ArtifactRows(artifacts), ArtifactBefore);
    StoredRows([DerivedFrom(event)] + evidence, EvidenceBefore);
    EntitiesAreKeys(LowerEntities(entities));
    assert Kept([DerivedFrom(event)] + evidence, DerivedFrom(event), EvidenceBefore) by {
      assert ([DerivedFrom(event)] + evidence)[0] == DerivedFrom(event);
    }
  }

  lemma EntitiesAreKeys(entities: seq<EntityRef>)
    ensures forall entity :: Kept(entities, entity, EntityBefore) <==> entity in entities
  {
    hide EntityBefore, KeyOrder;
    EntityOrder();
    forall entity | entity in entities ensures Kept(entities, entity, EntityBefore) {
      assert !EntityBefore(entity, entity) by { Irreflexive(EntityBefore, entity); }
      assert HasKey(entities, entity, EntityBefore);
      KeyIsKept(entities, entity, EntityBefore);
      var kept :| Kept(entities, kept, EntityBefore) && SameKey(EntityBefore, kept, entity);
      assert kept == entity;
    }
  }

  lemma Irreflexive<T(!new)>(before: Order<T>, x: T)
    requires KeyOrder(before)
    ensures !before(x, x)
  {
  }

  // A prepared request's tags are stored as they are.
  lemma PreparedTagsAreStored(tags: seq<string>)
    ensures StoreAll(StoreAll(tags, TagBefore), TagBefore) == StoreAll(tags, TagBefore)
  {
    hide KeyOrder, Ascending, StoreAll, TagBefore;
    TagOrder();
    StoredRows(tags, TagBefore);
    StoredIsFixed(StoreAll(tags, TagBefore), TagBefore);
  }
}
