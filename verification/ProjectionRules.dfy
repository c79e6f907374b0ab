// What registering a batch of search projections asks for and leaves behind.
module ProjectionRules {
  import opened Basics
  import opened Domain
  import opened Database
  import opened SearchIndex

  // What the input stores for its memory.
  predicate Holds(projection: Projection, input: ProjectionInput) {
    && projection.revision == input.revision && projection.contentHash == input.contentHash
    && projection.expansion == input.expansion && projection.dense == input.dense
  }

  predicate IsStored(db: Db, profile: string, input: ProjectionInput) {
    && ProjectionKey(profile, input.memory) in db.projections
    && Holds(db.projections[ProjectionKey(profile, input.memory)], input)
  }

  // The input was made for the text the memory has now, and no other projection
  // of that text is stored.
  predicate MadeForCurrent(db: Db, profile: string, durable: DurableScope, input: ProjectionInput) {
    && input.memory in db.heads
    && (var head, key := db.heads[input.memory], ProjectionKey(profile, input.memory);
        && head.durable == durable && head.state != Retracted && head.headRevision == input.revision
        && RevisionId(input.memory, input.revision) in db.revisions
        && (var revision := db.revisions[RevisionId(input.memory, input.revision)];
            input.contentHash.title == revision.title && input.contentHash.body == revision.body)
        && (|| key !in db.projections || db.projections[key].revision != input.revision
            || db.projections[key].contentHash != input.contentHash || IsStored(db, profile, input)))
  }

  // No memory twice.
  predicate Distinct(inputs: seq<ProjectionInput>) {
    forall i, j | 0 <= i < j < |inputs| :: inputs[i].memory != inputs[j].memory
  }

  predicate Concerned(profile: string, inputs: seq<ProjectionInput>, key: ProjectionKey) {
    key.profile == profile && exists i | 0 <= i < |inputs| :: inputs[i].memory == key.memory
  }

  // The batch stands in the projection table, next to everything else as it was.
  ghost predicate Registered(db: Db, after: Db, profile: string, inputs: seq<ProjectionInput>) {
    && after == db.(projections := after.projections)
    && (forall i | 0 <= i < |inputs| :: IsStored(after, profile, inputs[i]))
    && (forall key | !Concerned(profile, inputs, key) ::
          && (key in after.projections <==> key in db.projections)
          && (key in db.projections ==> after.projections[key] == db.projections[key]))
  }

  function StoredAlready(db: Db, profile: string, inputs: seq<ProjectionInput>): nat {
    if inputs == [] then 0
    else
      var n := |inputs| - 1;
      StoredAlready(db, profile, inputs[..n]) + if IsStored(db, profile, inputs[n]) then 1 else 0
  }

  lemma OneIs(db: Db, profile: string, durable: DurableScope, input: ProjectionInput)
    ensures var r := RegisterOne(db, profile, durable, input);
            && (r.Ok? <==> MadeForCurrent(db, profile, durable, input))
            && (r.Err? ==> r.error == Conflict)
            && (r.Ok? ==>
                  && Registered(db, r.value.db, profile, [input])
                  && r.value.identical == (if IsStored(db, profile, input) then 1 else 0)
                  && r.value.registered == 1 - r.value.identical)
  {
    hide Scope.Durable;
    var key := ProjectionKey(profile, input.memory);
    assert [input][0] == input;
    assert forall other :: Concerned(profile, [input], other) <==> other == key;
    if key in db.projections {
      assert db.projections[key] == AsProjection(input) <==> IsStored(db, profile, input);
    }
  }

  // Writing one projection does not decide about those of other memories.
  lemma OthersAlike(db: Db, after: Db, profile: string, durable: DurableScope, inputs: seq<ProjectionInput>,
      other: ProjectionInput)
    requires Registered(db, after, profile, inputs)
    requires forall i | 0 <= i < |inputs| :: inputs[i].memory != other.memory
    ensures MadeForCurrent(after, profile, durable, other) == MadeForCurrent(db, profile, durable, other)
    ensures IsStored(after, profile, other) == IsStored(db, profile, other)
  {
    var key := ProjectionKey(profile, other.memory);
    assert key in after.projections <==> key in db.projections;
  }

  lemma RegisteredMore(db: Db, before: Db, after: Db, profile: string, inputs: seq<ProjectionInput>,
      last: ProjectionInput)
    requires Registered(db, before, profile, inputs) && Registered(before, after, profile, [last])
    requires forall i | 0 <= i < |inputs| :: inputs[i].memory != last.memory
    ensures Registered(db, after, profile, inputs + [last])
  {
    var all := inputs + [last];
    forall i | 0 <= i < |all| ensures IsStored(after, profile, all[i]) {
      if i < |inputs| {
        assert all[i] == inputs[i];
        var key := ProjectionKey(profile, inputs[i].memory);
        assert key in after.projections <==> key in before.projections;
      } else {
        assert [last][0] == last;
      }
    }
    forall key | !Concerned(profile, all, key)
      ensures key in after.projections <==> key in db.projections
      ensures key in db.projections ==> after.projections[key] == db.projections[key]
    {
      assert forall i | 0 <= i < |inputs| :: inputs[i] == all[i];
      assert all[|inputs|] == last;
      assert !Concerned(profile, inputs, key) && !Concerned(profile, [last], key);
    }
  }

  lemma {:induction false} AllAre(db: Db, profile: string, durable: DurableScope, inputs: seq<ProjectionInput>)
    requires Distinct(inputs)
    ensures var r := RegisterAll(db, profile, durable, inputs);
            && (r.Ok? <==> forall i | 0 <= i < |inputs| :: MadeForCurrent(db, profile, durable, inputs[i]))
            && (r.Err? ==> r.error == Conflict)
            && (r.Ok? ==>
                  && Registered(db, r.value.db, profile, inputs)
                  && r.value.identical == StoredAlready(db, profile, inputs)
                  && r.value.registered + r.value.identical == |inputs|)
  {
    hide RegisterOne, MadeForCurrent, IsStored, Registered;
    if inputs == [] {
      NothingRegistered(db, profile);
    } else {
      var n := |inputs| - 1;
      var front, last := inputs[..n], inputs[n];
      AllAre(db, profile, durable, front);
      assert inputs == front + [last];
      if RegisterAll(db, profile, durable, front).Ok? {
        var before := RegisterAll(db, profile, durable, front).value.db;
        OneIs(before, profile, durable, last);
        OthersAlike(db, before, profile, durable, front, last);
        if RegisterOne(before, profile, durable, last).Ok? {
          RegisteredMore(db, before, RegisterOne(before, profile, durable, last).value.db, profile, front, last);
        }
      }
    }
  }

  lemma NothingRegistered(db: Db, profile: string)
    ensures Registered(db, db, profile, [])
  {
  }

  // The profile fits the inputs and is the one they were prepared for.
  predicate Prepared(db: Db, profile: string, observed: Profile, inputs: seq<ProjectionInput>) {
    && Distinct(inputs)
    && (forall i | 0 <= i < |inputs| ::
          inputs[i].revision > 0 && (inputs[i].dense.Some? <==> observed.dimensions.Some?))
    && profile in db.profiles && db.profiles[profile] == observed
  }

  // A batch is registered exactly when it is well formed for the profile and
  // every input was made for the current text of a live memory of the scope;
  // then each input is stored, and nothing else changes.
  lemma BatchIsRegistered(
    db: Db, profile: string, observed: Profile, durable: DurableScope, inputs: seq<ProjectionInput>)
    ensures var r := RegisterSpec(db, profile, observed, durable, inputs);
            && (r.Ok? <==>
                  && Prepared(db, profile, observed, inputs)
                  && forall i | 0 <= i < |inputs| :: MadeForCurrent(db, profile, durable, inputs[i]))
            && (r.Ok? ==>
                  && Registered(db, r.value.db, profile, inputs)
                  && r.value.identical == StoredAlready(db, profile, inputs)
                  && r.value.registered + r.value.identical == |inputs|)
  {
    hide MadeForCurrent, RegisterAll, Registered;
    if Distinct(inputs) { AllAre(db, profile, durable, inputs); }
  }
}
