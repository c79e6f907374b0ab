// What each applicability verdict means, verdict by verdict.
module Verdicts {
  import opened Basics
  import opened Domain
  import opened ApplicabilityRules

  // The current scope lies within what the memory was recorded for.
  predicate Reaches(memory: Scope, current: Scope) {
    && memory.namespace == current.namespace
    && (memory.workspaceId.Some? ==> current.workspaceId == memory.workspaceId)
    && (memory.repository.Some? ==>
          current.repository.Some? && current.repository.value.repoId == memory.repository.value.repoId)
  }

  // Both sides name a repository, so there is something to compare.
  predicate Versioned(memory: Scope, current: Scope) { memory.repository.Some? && current.repository.Some? }

  // The first current entry for what was recorded.
  predicate EntryFor(recorded: ArtifactRef, current: seq<ArtifactRef>, k: nat) {
    && k < |current| && current[k].repoId == recorded.repoId && current[k].path == recorded.path
    && current[k].symbol == recorded.symbol
    && forall j | 0 <= j < k :: current[j].repoId != recorded.repoId || current[j].path != recorded.path
                                || current[j].symbol != recorded.symbol
  }

  // A recorded hash is contradicted by the entry for it.
  ghost predicate Contradicted(memory: seq<ArtifactRef>, current: seq<ArtifactRef>) {
    exists i | 0 <= i < |memory| :: ContradictedOne(memory[i], current)
  }

  ghost predicate ContradictedOne(recorded: ArtifactRef, current: seq<ArtifactRef>) {
    exists k: nat ::
      && EntryFor(recorded, current, k) && recorded.contentHash.Some? && current[k].contentHash.Some?
      && recorded.contentHash != current[k].contentHash
  }

  // Every recorded hash, of at least one, is confirmed by the entry for it.
  ghost predicate Confirmed(memory: seq<ArtifactRef>, current: seq<ArtifactRef>) {
    && (exists i | 0 <= i < |memory| :: memory[i].contentHash.Some?)
    && (forall i | 0 <= i < |memory| && memory[i].contentHash.Some? :: ConfirmedOne(memory[i], current))
  }

  ghost predicate ConfirmedOne(recorded: ArtifactRef, current: seq<ArtifactRef>) {
    exists k: nat :: EntryFor(recorded, current, k) && current[k].contentHash == recorded.contentHash
  }

  // The worktree's uncommitted state is not the recorded one.
  predicate WorktreeMoved(memory: Scope, current: Scope)
    requires Versioned(memory, current)
  {
    memory.repository.value.dirtyHash != current.repository.value.dirtyHash
  }

  // Git's answer, when there are two revisions and a repository to ask.
  function GitAnswer(memory: Scope, current: Scope, git: GitResolver): Option<GitRelation>
    requires Versioned(memory, current)
  {
    match (memory.repository.value.headOid, current.repository.value.headOid, current.repository.value.root)
    case (Some(stored), Some(now), Some(root)) => Some(git(root, stored, now))
    case _ => None
  }

  predicate OtherBranch(memory: Scope, current: Scope)
    requires Versioned(memory, current)
  {
    match (memory.repository.value.branch, current.repository.value.branch)
    case (Some(a), Some(b)) => a != b
    case _ => false
  }

  // Nothing recorded is settled by artifacts or by the worktree: Git decides.
  ghost predicate LeftToGit(
    memory: Scope, current: Scope, recorded: seq<ArtifactRef>, now: seq<ArtifactRef>)
  {
    && Reaches(memory, current) && Versioned(memory, current) && !WorktreeMoved(memory, current)
    && !Contradicted(recorded, now) && !Confirmed(recorded, now)
  }

  lemma {:induction false} FoundIsEntry(wanted: ArtifactRef, current: seq<ArtifactRef>)
    ensures var found := FindRef(wanted, current);
            && (found.Some? <==> exists k: nat :: EntryFor(wanted, current, k))
            && (forall k: nat | EntryFor(wanted, current, k) :: found == Some(current[k]))
  {
    if current == [] {
    } else if SameIdentity(wanted, current[0]) {
      assert EntryFor(wanted, current, 0);
    } else {
      var rest := current[1..];
      FoundIsEntry(wanted, rest);
      forall k: nat ensures EntryFor(wanted, rest, k) <==> EntryFor(wanted, current, k + 1) {
        EntryBehind(wanted, current, k);
      }
      forall k: nat | EntryFor(wanted, current, k) ensures FindRef(wanted, current) == Some(current[k]) {
        assert k > 0;
        assert EntryFor(wanted, rest, k - 1);
      }
    }
  }

  lemma EntryBehind(wanted: ArtifactRef, current: seq<ArtifactRef>, k: nat)
    requires current != [] && !SameIdentity(wanted, current[0])
    ensures EntryFor(wanted, current[1..], k) <==> EntryFor(wanted, current, k + 1)
  {
    var rest := current[1..];
    assert forall j | 0 <= j < |rest| :: rest[j] == current[j + 1];
    if EntryFor(wanted, current, k + 1) {
      forall j | 0 <= j < k
        ensures rest[j].repoId != wanted.repoId || rest[j].path != wanted.path || rest[j].symbol != wanted.symbol
      {
        assert rest[j] == current[j + 1];
      }
    }
    if EntryFor(wanted, rest, k) {
      forall j | 0 <= j < k + 1
        ensures current[j].repoId != wanted.repoId || current[j].path != wanted.path
                || current[j].symbol != wanted.symbol
      {
        if j > 0 { assert current[j] == rest[j - 1]; }
      }
    }
  }

  lemma ComparisonIs(memory: seq<ArtifactRef>, current: seq<ArtifactRef>)
    ensures CompareRefs(memory, current).mismatched == Contradicted(memory, current)
    ensures CompareRefs(memory, current).fullyVerified == (Confirmed(memory, current) && !Contradicted(memory, current))
    ensures CompareRefs(memory, current).complete
  {
    hide FindRef;
    forall a | a in memory
      ensures RefMismatch(a, current) <==> ContradictedOne(a, current)
      ensures a.contentHash.Some? ==> (RefVerified(a, current) <==> ConfirmedOne(a, current))
    {
      FoundIsEntry(a, current);
    }
  }

  // Each verdict says exactly this about scopes, artifacts, worktree and Git.
  lemma VerdictsMean(
    memory: Scope, current: Scope, recorded: seq<ArtifactRef>, now: seq<ArtifactRef>, git: GitResolver)
    ensures var verdict := ClassifyRefs(memory, current, recorded, now, git);
            && (verdict == Inapplicable <==> !Reaches(memory, current))
            && (Reaches(memory, current) && !Versioned(memory, current) ==> verdict == Unversioned)
            && (Reaches(memory, current) && Versioned(memory, current) ==>
                  && (verdict == Stale <==>
                        || Contradicted(recorded, now)
                        || (WorktreeMoved(memory, current) && !Confirmed(recorded, now)))
                  && (verdict == Exact <==>
                        || (Confirmed(recorded, now) && !Contradicted(recorded, now))
                        || (LeftToGit(memory, current, recorded, now)
                            && GitAnswer(memory, current, git) == Some(Same)))
                  && (verdict == Compatible <==>
                        && LeftToGit(memory, current, recorded, now)
                        && GitAnswer(memory, current, git).Some? && GitAnswer(memory, current, git).value.Ancestor?)
                  && (verdict == Divergent <==>
                        && LeftToGit(memory, current, recorded, now)
                        && match GitAnswer(memory, current, git)
                           case Some(answer) => answer.Descendant? || answer.Diverged?
                           case None => OtherBranch(memory, current)))
  {
    hide CompareRefs, Contradicted, Confirmed;
    ComparisonIs(recorded, now);
  }
}
