// Coalescing of the attempts a checkpoint collects automatically.
module AttemptCoalescing {
  import opened Basics
  import opened Domain
  import opened Strings
  import opened AttemptKeys

  // How many successful groups of each kind a checkpoint keeps.
  const KEEP_PER_REASON: nat := 4

  datatype PromotionReason = VerificationReason | FailedExecution | ExplicitSalience
  {
    function Label(): string {
      match this
      case VerificationReason => "verification"
      case FailedExecution => "failed_execution"
      case ExplicitSalience => "explicit_salience"
    }
  }

  datatype AutomaticAttempt = AutomaticAttempt(
    action: string, result: string, succeeded: bool, fingerprint: Option<string>,
    reason: Option<PromotionReason>, identity: string)

  datatype AttemptGroup = AttemptGroup(
    key: string, action: string, finalResult: string, finalSucceeded: bool, fingerprint: Option<string>,
    reason: Option<PromotionReason>, firstFailure: Option<string>, previouslyFailed: bool,
    observations: nat, lastOrder: nat)

  type Priors = map<string, string>

  // --- groups -----------------------------------------------------------

  function MergeReason(current: Option<PromotionReason>, next: Option<PromotionReason>): Option<PromotionReason> {
    if current == Some(VerificationReason) || next == Some(VerificationReason) then Some(VerificationReason)
    else if current == Some(ExplicitSalience) || next == Some(ExplicitSalience) then Some(ExplicitSalience)
    else if current == Some(FailedExecution) || next == Some(FailedExecution) then Some(FailedExecution)
    else None
  }

  // How the result text reports a failure and the last result.
  function Report(failure: Option<string>, last: string, succeeded: bool, runs: nat): string {
    if runs == 1 then last
    else if failure.Some? && succeeded then
      "First failure: " + failure.value + "\nFinal result: " + last + "\nObserved runs: " + Decimal(runs)
    else if failure.Some? && failure.value != last then
      "First failure: " + failure.value + "\nLatest failure: " + last + "\nObserved runs: " + Decimal(runs)
    else last + "\nObserved equivalent runs: " + Decimal(runs)
  }

  function CoalescedResult(group: AttemptGroup): string {
    Report(group.firstFailure, group.finalResult, group.finalSucceeded, group.observations)
  }

  function Present(group: AttemptGroup): CheckpointAttempt {
    CheckpointAttempt(group.action, CoalescedResult(group), group.finalSucceeded, group.fingerprint, Some(group.key),
                      Some((if group.reason.Some? then group.reason.value else FailedExecution).Label()))
  }

  function Priority(group: AttemptGroup): nat {
    if !group.finalSucceeded then 0
    else if group.firstFailure.Some? then 1
    else if group.reason == Some(VerificationReason) then 2
    else 3
  }

  predicate Before(left: AttemptGroup, right: AttemptGroup) {
    Priority(left) < Priority(right)
    || (Priority(left) == Priority(right)
        && (left.lastOrder > right.lastOrder
            || (left.lastOrder == right.lastOrder && TextBefore(left.key, right.key))))
  }

  // --- what a key's group must contain ----------------------------------

  function Count(attempts: seq<AutomaticAttempt>, key: string): nat {
    if attempts == [] then 0
    else
      var n := |attempts| - 1;
      Count(attempts[..n], key) + if CanonicalKey(attempts[n].identity) == key then 1 else 0
  }

  // Index of the key's most recent attempt.
  function LastIndex(attempts: seq<AutomaticAttempt>, key: string): (r: Option<nat>)
    ensures r.Some? ==> r.value < |attempts| && CanonicalKey(attempts[r.value].identity) == key
    ensures forall i | (if r.Some? then r.value + 1 else 0) <= i < |attempts| ::
        CanonicalKey(attempts[i].identity) != key
  {
    if attempts == [] then None
    else
      var n := |attempts| - 1;
      if CanonicalKey(attempts[n].identity) == key then Some(n) else LastIndex(attempts[..n], key)
  }

  // Index of the key's earliest failure.
  function FirstFailureIndex(attempts: seq<AutomaticAttempt>, key: string): (r: Option<nat>)
    ensures r.Some? ==>
              && r.value < |attempts| && CanonicalKey(attempts[r.value].identity) == key
              && !attempts[r.value].succeeded
    ensures forall i | 0 <= i < (if r.Some? then r.value else |attempts|) ::
              !(CanonicalKey(attempts[i].identity) == key && !attempts[i].succeeded)
  {
    if attempts == [] then None
    else
      var n := |attempts| - 1;
      var earlier := FirstFailureIndex(attempts[..n], key);
      if earlier.Some? then earlier
      else if CanonicalKey(attempts[n].identity) == key && !attempts[n].succeeded then Some(n)
      else None
  }

  // The key's last known diagnostic fingerprint.
  function LastFingerprint(attempts: seq<AutomaticAttempt>, key: string): Option<string> {
    if attempts == [] then None
    else
      var n := |attempts| - 1;
      if CanonicalKey(attempts[n].identity) == key && attempts[n].fingerprint.Some? then attempts[n].fingerprint
      else LastFingerprint(attempts[..n], key)
  }

  // The strongest reason any of the key's attempts was promoted for.
  function StrongestReason(attempts: seq<AutomaticAttempt>, key: string): Option<PromotionReason> {
    if attempts == [] then None
    else
      var n := |attempts| - 1;
      var earlier := StrongestReason(attempts[..n], key);
      if CanonicalKey(attempts[n].identity) == key then MergeReason(earlier, attempts[n].reason) else earlier
  }

  function FirstFailure(attempts: seq<AutomaticAttempt>, prior: Priors, key: string): Option<string> {
    if key in prior then Some(prior[key])
    else
      var i := FirstFailureIndex(attempts, key);
      if i.Some? then Some(attempts[i.value].result) else None
  }

  function Summary(attempts: seq<AutomaticAttempt>, prior: Priors, key: string): AttemptGroup
    requires LastIndex(attempts, key).Some?
  {
    var last := LastIndex(attempts, key).value;
    AttemptGroup(
      key, attempts[last].action, attempts[last].result, attempts[last].succeeded,
      LastFingerprint(attempts, key), StrongestReason(attempts, key), FirstFailure(attempts, prior, key),
      key in prior, Count(attempts, key) + (if key in prior then 1 else 0), last)
  }

  function AutomaticKeys(attempts: seq<AutomaticAttempt>): set<string> {
    set i | 0 <= i < |attempts| :: CanonicalKey(attempts[i].identity)
  }

  // --- the declarative result -------------------------------------------

  // One group per key, most recent first.
  function Recent(attempts: seq<AutomaticAttempt>, prior: Priors, n: nat): (groups: seq<AttemptGroup>)
    requires n <= |attempts|
  {
    if n == 0 then []
    else
      var key := CanonicalKey(attempts[n - 1].identity);
      (if LastIndex(attempts, key) == Some(n - 1) then [Summary(attempts, prior, key)] else [])
      + Recent(attempts, prior, n - 1)
  }

  function OfPriority(groups: seq<AttemptGroup>, priority: nat): seq<AttemptGroup> {
    if groups == [] then []
    else (if Priority(groups[0]) == priority then [groups[0]] else []) + OfPriority(groups[1..], priority)
  }

  function OfReason(groups: seq<AttemptGroup>, reason: PromotionReason): seq<AttemptGroup> {
    if groups == [] then []
    else (if groups[0].reason == Some(reason) then [groups[0]] else []) + OfReason(groups[1..], reason)
  }

  function Take(groups: seq<AttemptGroup>, n: nat): seq<AttemptGroup> {
    if |groups| <= n then groups else groups[..n]
  }

  // Failing groups, then recovered ones, then the most recent verifications
  // and the most recent salient results that never failed.
  function KeptGroups(attempts: seq<AutomaticAttempt>, prior: Priors): seq<AttemptGroup> {
    var recent := Recent(attempts, prior, |attempts|);
    OfPriority(recent, 0) + OfPriority(recent, 1)
    + Take(OfPriority(recent, 2), KEEP_PER_REASON)
    + Take(OfReason(OfPriority(recent, 3), ExplicitSalience), KEEP_PER_REASON)
  }

  function PresentAll(groups: seq<AttemptGroup>): seq<CheckpointAttempt> {
    seq(|groups|, i requires 0 <= i < |groups| => Present(groups[i]))
  }

  function Coalesced(attempts: seq<AutomaticAttempt>, prior: Priors): seq<CheckpointAttempt> {
    PresentAll(KeptGroups(attempts, prior))
  }

  // --- grouping loop ----------------------------------------------------

  ghost predicate Grouped(groups: map<string, AttemptGroup>, attempts: seq<AutomaticAttempt>, prior: Priors) {
    && (forall key :: key in groups <==> LastIndex(attempts, key).Some?)
    && (forall key | key in groups :: groups[key] == Summary(attempts, prior, key))
  }

  // The group a new key starts from, before its first attempt is counted.
  function Opening(prior: Priors, attempt: AutomaticAttempt, key: string, order: nat): AttemptGroup {
    var previous := if key in prior then Some(prior[key]) else None;
    AttemptGroup(key, attempt.action, attempt.result, attempt.succeeded, attempt.fingerprint, attempt.reason,
                 if previous.Some? then previous
                 else if !attempt.succeeded then Some(attempt.result) else None,
                 previous.Some?, if previous.Some? then 1 else 0, order)
  }

  // The group after one more attempt of its key.
  function Extended(group: AttemptGroup, attempt: AutomaticAttempt, order: nat): AttemptGroup {
    AttemptGroup(
      group.key, attempt.action, attempt.result, attempt.succeeded,
      if attempt.fingerprint.Some? then attempt.fingerprint else group.fingerprint,
      MergeReason(group.reason, attempt.reason),
      if !attempt.succeeded && group.firstFailure.None? then Some(attempt.result) else group.firstFailure,
      group.previouslyFailed, group.observations + 1, order)
  }

  method GroupAttempts(attempts: seq<AutomaticAttempt>, prior: Priors) returns (groups: map<string, AttemptGroup>)
    ensures Grouped(groups, attempts, prior)
  {
    hide CanonicalKey, MergeReason, Grouped;
    groups := map[];
    assert Grouped(groups, attempts[..0], prior) by { NothingGrouped(prior); }
    for order := 0 to |attempts|
      invariant Grouped(groups, attempts[..order], prior)
    {
      var attempt := attempts[order];
      var key := CanonicalKey(attempt.identity);
      ghost var before := groups;
      ghost var opening := if key in groups then groups[key] else Opening(prior, attempt, key, order);
      var group := if key in groups then groups[key] else Opening(prior, attempt, key, order);
      if !attempt.succeeded && group.firstFailure.None? {
        group := group.(firstFailure := Some(attempt.result));
      }
      group := group.(action := attempt.action, finalResult := attempt.result, finalSucceeded := attempt.succeeded);
      if attempt.fingerprint.Some? { group := group.(fingerprint := attempt.fingerprint); }
      group := group.(reason := MergeReason(group.reason, attempt.reason));
      group := group.(observations := group.observations + 1, lastOrder := order);
      groups := groups[key := group];
      assert group == Extended(opening, attempt, order);
      assert attempts[..order + 1][..order] == attempts[..order];
      GroupStep(before, attempts[..order], attempts[..order + 1], prior);
    }
    assert attempts[..|attempts|] == attempts;
  }

  lemma NothingGrouped(prior: Priors)
    ensures Grouped(map[], [], prior)
  {
  }

  // The group an attempt extends ends up as the summary of its key.
  lemma OwnGroupStep(
    groups: map<string, AttemptGroup>, past: seq<AutomaticAttempt>, now: seq<AutomaticAttempt>, prior: Priors,
    key: string)
    requires Grouped(groups, past, prior) && |now| == |past| + 1 && now[..|past|] == past
    requires key == CanonicalKey(now[|past|].identity)
    ensures var opening := if key in groups then groups[key] else Opening(prior, now[|past|], key, |past|);
            Extended(opening, now[|past|], |past|) == Summary(now, prior, key)
  {
    hide CanonicalKey, MergeReason, LastIndex, Count, LastFingerprint, StrongestReason, FirstFailureIndex;
    SummaryStep(past, now, prior, key);
    NewKeyIsBlank(past, key);
    MergeIdempotent(now[|past|].reason);
  }

  lemma GroupStep(groups: map<string, AttemptGroup>, past: seq<AutomaticAttempt>, now: seq<AutomaticAttempt>,
      prior: Priors)
    requires Grouped(groups, past, prior) && |now| == |past| + 1 && now[..|past|] == past
    ensures var attempt := now[|past|];
            var key := CanonicalKey(attempt.identity);
            var opening := if key in groups then groups[key] else Opening(prior, attempt, key, |past|);
            Grouped(groups[key := Extended(opening, attempt, |past|)], now, prior)
  {
    hide CanonicalKey, MergeReason, LastIndex, Count, LastFingerprint, StrongestReason, FirstFailure, Extended, Opening,
      Summary;
    var key := CanonicalKey(now[|past|].identity);
    SummaryStep(past, now, prior, key);
    OwnGroupStep(groups, past, now, prior, key);
  }

  // One more attempt only touches the group of its own key.
  lemma SummaryStep(past: seq<AutomaticAttempt>, now: seq<AutomaticAttempt>, prior: Priors, key: string)
    requires |now| == |past| + 1 && now[..|past|] == past && CanonicalKey(now[|past|].identity) == key
    ensures LastIndex(now, key) == Some(|past|)
    ensures Count(now, key) == Count(past, key) + 1
    ensures LastFingerprint(now, key)
         == if now[|past|].fingerprint.Some? then now[|past|].fingerprint else LastFingerprint(past, key)
    ensures StrongestReason(now, key) == MergeReason(StrongestReason(past, key), now[|past|].reason)
    ensures FirstFailure(now, prior, key)
         == if FirstFailure(past, prior, key).Some? then FirstFailure(past, prior, key)
            else if !now[|past|].succeeded then Some(now[|past|].result) else None
    ensures forall other | other != key && LastIndex(past, other).Some? ::
              LastIndex(now, other).Some? && Summary(now, prior, other) == Summary(past, prior, other)
    ensures forall other | other != key :: LastIndex(now, other).Some? == LastIndex(past, other).Some?
  {
    hide CanonicalKey, MergeReason;
    var i := FirstFailureIndex(past, key);
    if i.Some? { assert now[i.value] == past[i.value]; }
    forall other | other != key
      ensures LastIndex(now, other) == LastIndex(past, other)
      ensures LastIndex(past, other).Some? ==> Summary(now, prior, other) == Summary(past, prior, other)
    {
      var j := FirstFailureIndex(past, other);
      if j.Some? { assert now[j.value] == past[j.value]; }
      var k := LastIndex(past, other);
      if k.Some? { assert now[k.value] == past[k.value]; }
    }
  }

  lemma {:induction false} NewKeyIsBlank(attempts: seq<AutomaticAttempt>, key: string)
    ensures LastIndex(attempts, key).None? ==>
              && Count(attempts, key) == 0 && LastFingerprint(attempts, key) == None
              && StrongestReason(attempts, key) == None && FirstFailureIndex(attempts, key) == None
  {
    if attempts != [] { NewKeyIsBlank(attempts[..|attempts| - 1], key); }
  }

  lemma MergeIdempotent(reason: Option<PromotionReason>)
    ensures MergeReason(reason, reason) == reason && MergeReason(None, reason) == reason
  {
    match reason
    case None =>
    case Some(VerificationReason) =>
    case Some(FailedExecution) =>
    case Some(ExplicitSalience) =>
  }

  lemma KeysHaveLast(attempts: seq<AutomaticAttempt>)
    ensures forall key :: key in AutomaticKeys(attempts) <==> LastIndex(attempts, key).Some?
  {
  }

  // --- ordering ---------------------------------------------------------

  ghost predicate Sorted(groups: seq<AttemptGroup>) {
    forall i, j | 0 <= i < j < |groups| ::
      Before(groups[i], groups[j]) && groups[i].lastOrder != groups[j].lastOrder
  }

  ghost predicate Descending(groups: seq<AttemptGroup>) {
    forall i, j | 0 <= i < j < |groups| :: groups[i].lastOrder > groups[j].lastOrder
  }

  lemma HeadIsMember(groups: seq<AttemptGroup>)
    ensures groups != [] ==> groups[0] in groups
  {
  }

  lemma PrependDescending(group: AttemptGroup, rest: seq<AttemptGroup>)
    requires Descending(rest) && forall g | g in rest :: g.lastOrder < group.lastOrder
    ensures Descending([group] + rest)
  {
    assert forall i | 0 <= i < |rest| :: rest[i] in rest;
  }

  lemma DescendingTail(groups: seq<AttemptGroup>)
    requires Descending(groups) && groups != []
    ensures Descending(groups[1..]) && forall g | g in groups[1..] :: g.lastOrder < groups[0].lastOrder
  {
  }

  lemma {:induction false} SortedUnique(a: seq<AttemptGroup>, b: seq<AttemptGroup>)
    requires Sorted(a) && Sorted(b)
    requires forall g :: g in a <==> g in b
    ensures a == b
  {
    hide Priority;
    HeadIsMember(a);
    HeadIsMember(b);
    if a != [] {
      assert a[0] in b;
      var j :| 0 <= j < |b| && b[j] == a[0];
      assert b[0] in a;
      var i :| 0 <= i < |a| && a[i] == b[0];
      assert a[0] == b[0];
      forall g ensures g in a[1..] <==> g in b[1..] {
        if g in a[1..] { var k :| 1 <= k < |a| && a[k] == g; assert g in b; }
        if g in b[1..] { var k :| 1 <= k < |b| && b[k] == g; assert g in a; }
      }
      SortedUnique(a[1..], b[1..]);
      assert a == [a[0]] + a[1..] && b == [b[0]] + b[1..];
    }
  }

  function InsertGroup(sorted: seq<AttemptGroup>, group: AttemptGroup): (r: seq<AttemptGroup>)
    ensures forall g :: g in r <==> g == group || g in sorted
  {
    if sorted == [] then [group]
    else if Before(group, sorted[0]) then [group] + sorted
    else
      var rest := InsertGroup(sorted[1..], group);
      assert sorted == [sorted[0]] + sorted[1..];
      [sorted[0]] + rest
  }

  lemma {:induction false} InsertSorted(sorted: seq<AttemptGroup>, group: AttemptGroup)
    requires Sorted(sorted) && forall g | g in sorted :: g.lastOrder != group.lastOrder
    ensures Sorted(InsertGroup(sorted, group))
  {
    hide Priority;
    if sorted != [] {
      if Before(group, sorted[0]) {
        assert forall i | 0 <= i < |sorted| :: sorted[i] in sorted;
      } else {
        InsertSorted(sorted[1..], group);
        var rest := InsertGroup(sorted[1..], group);
        forall g | g in rest ensures Before(sorted[0], g) && g.lastOrder != sorted[0].lastOrder {
          assert sorted[0] in sorted;
          if g != group { assert g in sorted[1..]; }
        }
        assert forall i | 0 <= i < |rest| :: rest[i] in rest;
      }
    }
  }

  method SortGroups(groups: map<string, AttemptGroup>) returns (sorted: seq<AttemptGroup>)
    requires forall a, b | a in groups && b in groups && a != b :: groups[a].lastOrder != groups[b].lastOrder
    ensures Sorted(sorted)
    ensures forall g :: g in sorted <==> g in groups.Values
  {
    hide Before;
    sorted := [];
    var rest := groups.Keys;
    while rest != {}
      invariant rest <= groups.Keys
      invariant Sorted(sorted)
      invariant forall g :: g in sorted <==> exists key :: key in groups && key !in rest && groups[key] == g
    {
      var key :| key in rest;
      InsertSorted(sorted, groups[key]);
      sorted := InsertGroup(sorted, groups[key]);
      rest := rest - {key};
    }
  }

  // --- the filter -------------------------------------------------------

  predicate EverFailed(group: AttemptGroup) {
    group.previouslyFailed || group.firstFailure.Some? || !group.finalSucceeded
  }

  // The stateful filter, starting from given counters.
  function Filter(groups: seq<AttemptGroup>, verifications: nat, salient: nat): seq<AttemptGroup> {
    if groups == [] then []
    else
      var group, rest := groups[0], groups[1..];
      if EverFailed(group) then [group] + Filter(rest, verifications, salient)
      else if group.reason == Some(VerificationReason) then
        (if verifications + 1 <= KEEP_PER_REASON then [group] else []) + Filter(rest, verifications + 1, salient)
      else if group.reason == Some(ExplicitSalience) then
        (if salient + 1 <= KEEP_PER_REASON then [group] else []) + Filter(rest, verifications, salient + 1)
      else Filter(rest, verifications, salient)
  }

  function Room(used: nat): nat { if used >= KEEP_PER_REASON then 0 else KEEP_PER_REASON - used }

  lemma {:induction false} FilterFailed(a: seq<AttemptGroup>, b: seq<AttemptGroup>, verifications: nat, salient: nat)
    requires forall g | g in a :: EverFailed(g)
    ensures Filter(a + b, verifications, salient) == a + Filter(b, verifications, salient)
  {
    hide EverFailed;
    if a == [] {
      assert a + b == b;
    } else {
      assert a[0] in a && (a + b)[1..] == a[1..] + b;
      FilterFailed(a[1..], b, verifications, salient);
    }
  }

  lemma {:induction false} FilterVerified(a: seq<AttemptGroup>, b: seq<AttemptGroup>, verifications: nat, salient: nat)
    requires forall g | g in a :: !EverFailed(g) && g.reason == Some(VerificationReason)
    ensures Filter(a + b, verifications, salient)
         == Take(a, Room(verifications)) + Filter(b, verifications + |a|, salient)
  {
    hide EverFailed;
    if a == [] {
      assert a + b == b;
    } else {
      assert a[0] in a && (a + b)[1..] == a[1..] + b;
      FilterVerified(a[1..], b, verifications + 1, salient);
      if verifications < KEEP_PER_REASON {
        assert Take(a, Room(verifications)) == [a[0]] + Take(a[1..], Room(verifications + 1));
      }
    }
  }

  lemma {:induction false} FilterSalient(a: seq<AttemptGroup>, verifications: nat, salient: nat)
    requires forall g | g in a :: !EverFailed(g) && g.reason != Some(VerificationReason)
    ensures Filter(a, verifications, salient) == Take(OfReason(a, ExplicitSalience), Room(salient))
  {
    hide EverFailed;
    if a != [] {
      assert a[0] in a;
      var kept, rest := OfReason(a, ExplicitSalience), OfReason(a[1..], ExplicitSalience);
      if a[0].reason == Some(ExplicitSalience) {
        FilterSalient(a[1..], verifications, salient + 1);
        assert kept == [a[0]] + rest;
        if salient < KEEP_PER_REASON {
          assert Take(kept, Room(salient)) == [a[0]] + Take(rest, Room(salient + 1));
        }
      } else {
        FilterSalient(a[1..], verifications, salient);
        assert kept == rest;
      }
    }
  }

  // --- the arranged groups ----------------------------------------------

  lemma SummaryPosition(attempts: seq<AutomaticAttempt>, prior: Priors, key: string)
    requires LastIndex(attempts, key).Some?
    ensures Summary(attempts, prior, key).key == key
    ensures Summary(attempts, prior, key).lastOrder == LastIndex(attempts, key).value
  {
  }

  lemma {:induction false} RecentGroups(attempts: seq<AutomaticAttempt>, prior: Priors, n: nat)
    requires n <= |attempts|
    ensures Descending(Recent(attempts, prior, n))
    ensures forall g | g in Recent(attempts, prior, n) :: g.lastOrder < n
    ensures forall g :: g in Recent(attempts, prior, n)
              <==> LastIndex(attempts, g.key).Some? && LastIndex(attempts, g.key).value < n
                   && g == Summary(attempts, prior, g.key)
  {
    hide CanonicalKey, Summary, LastIndex, Descending;
    if n == 0 {
      assert Descending([]) by { NothingDescends(); }
    } else {
      var rest, key := Recent(attempts, prior, n - 1), CanonicalKey(attempts[n - 1].identity);
      RecentGroups(attempts, prior, n - 1);
      if LastIndex(attempts, key) == Some(n - 1) {
        SummaryPosition(attempts, prior, key);
        PrependDescending(Summary(attempts, prior, key), rest);
      } else {
        assert Recent(attempts, prior, n) == rest;
      }
    }
  }

  lemma NothingDescends()
    ensures Descending([])
  {
  }

  lemma {:induction false} OfPriorityElements(groups: seq<AttemptGroup>, priority: nat)
    ensures forall g :: g in OfPriority(groups, priority) <==> g in groups && Priority(g) == priority
    ensures Descending(groups) ==> Descending(OfPriority(groups, priority))
  {
    hide Priority, Descending;
    if groups != [] {
      OfPriorityElements(groups[1..], priority);
      assert groups == [groups[0]] + groups[1..];
      if Descending(groups) {
        DescendingTail(groups);
        PrependDescending(groups[0], OfPriority(groups[1..], priority));
        assert [] + OfPriority(groups[1..], priority) == OfPriority(groups[1..], priority);
      }
    } else {
      assert Descending([]) by { NothingDescends(); }
    }
  }

  function Arranged(attempts: seq<AutomaticAttempt>, prior: Priors): seq<AttemptGroup> {
    var recent := Recent(attempts, prior, |attempts|);
    OfPriority(recent, 0) + (OfPriority(recent, 1) + (OfPriority(recent, 2) + OfPriority(recent, 3)))
  }

  lemma SortedConcat(a: seq<AttemptGroup>, b: seq<AttemptGroup>)
    requires Sorted(a) && Sorted(b)
    requires forall x, y | x in a && y in b :: Before(x, y) && x.lastOrder != y.lastOrder
    ensures Sorted(a + b)
  {
    hide Before;
    assert forall i | 0 <= i < |a| :: a[i] in a;
    assert forall i | 0 <= i < |b| :: b[i] in b;
  }

  lemma PriorityClassSorted(groups: seq<AttemptGroup>, priority: nat)
    requires Descending(groups)
    ensures Sorted(OfPriority(groups, priority))
  {
    hide Priority;
    OfPriorityElements(groups, priority);
    var same := OfPriority(groups, priority);
    assert forall i | 0 <= i < |same| :: same[i] in same;
  }

  lemma ArrangedIsSorted(attempts: seq<AutomaticAttempt>, prior: Priors)
    ensures Sorted(Arranged(attempts, prior))
    ensures forall g :: g in Arranged(attempts, prior) <==> g in Recent(attempts, prior, |attempts|)
  {
    hide Recent, OfPriority, Sorted;
    var recent := Recent(attempts, prior, |attempts|);
    RecentGroups(attempts, prior, |attempts|);
    AtMostOncePerOrder(recent);
    var p0, p1, p2, p3 := OfPriority(recent, 0), OfPriority(recent, 1), OfPriority(recent, 2), OfPriority(recent, 3);
    OfPriorityElements(recent, 0);
    OfPriorityElements(recent, 1);
    OfPriorityElements(recent, 2);
    OfPriorityElements(recent, 3);
    PriorityClassSorted(recent, 0);
    PriorityClassSorted(recent, 1);
    PriorityClassSorted(recent, 2);
    PriorityClassSorted(recent, 3);
    SortedConcat(p2, p3);
    SortedConcat(p1, p2 + p3);
    SortedConcat(p0, p1 + (p2 + p3));
  }

  lemma AtMostOncePerOrder(groups: seq<AttemptGroup>)
    requires Descending(groups)
    ensures forall a, b | a in groups && b in groups && a != b :: a.lastOrder != b.lastOrder
  {
  }

  lemma SummaryFailure(attempts: seq<AutomaticAttempt>, prior: Priors, key: string)
    requires LastIndex(attempts, key).Some?
    ensures var g := Summary(attempts, prior, key);
            EverFailed(g) <==> g.firstFailure.Some?
    ensures EverFailed(Summary(attempts, prior, key))
        <==> key in prior || exists i ::
            0 <= i < |attempts| && CanonicalKey(attempts[i].identity) == key && !attempts[i].succeeded
  {
    hide CanonicalKey, Count, LastFingerprint, StrongestReason;
    var first := FirstFailureIndex(attempts, key);
    if first.Some? {
      assert CanonicalKey(attempts[first.value].identity) == key && !attempts[first.value].succeeded;
    }
  }

  lemma RecentFailures(attempts: seq<AutomaticAttempt>, prior: Priors)
    ensures forall g | g in Recent(attempts, prior, |attempts|) ::
              (EverFailed(g) <==> Priority(g) <= 1) && (Priority(g) == 2 ==> g.reason == Some(VerificationReason))
              && (Priority(g) == 3 ==> g.reason != Some(VerificationReason)) && Priority(g) <= 3
  {
    hide Recent, Summary;
    RecentGroups(attempts, prior, |attempts|);
    forall g | g in Recent(attempts, prior, |attempts|)
      ensures EverFailed(g) <==> Priority(g) <= 1
    {
      SummaryFailure(attempts, prior, g.key);
    }
  }

  lemma FilterArranged(attempts: seq<AutomaticAttempt>, prior: Priors)
    ensures Filter(Arranged(attempts, prior), 0, 0) == KeptGroups(attempts, prior)
  {
    hide Recent, OfPriority, EverFailed, Priority, Filter, Take, OfReason;
    var recent := Recent(attempts, prior, |attempts|);
    RecentFailures(attempts, prior);
    var p0, p1, p2, p3 := OfPriority(recent, 0), OfPriority(recent, 1), OfPriority(recent, 2), OfPriority(recent, 3);
    OfPriorityElements(recent, 0);
    OfPriorityElements(recent, 1);
    OfPriorityElements(recent, 2);
    OfPriorityElements(recent, 3);
    FilterFailed(p0, p1 + (p2 + p3), 0, 0);
    FilterFailed(p1, p2 + p3, 0, 0);
    FilterVerified(p2, p3, 0, 0);
    FilterSalient(p3, |p2|, 0);
    var verified, salient := Take(p2, KEEP_PER_REASON), Take(OfReason(p3, ExplicitSalience), KEEP_PER_REASON);
    assert p0 + (p1 + (verified + salient)) == p0 + p1 + verified + salient;
  }

  method CoalesceCheckpointAttempts(attempts: seq<AutomaticAttempt>, prior: Priors)
    returns (coalesced: seq<CheckpointAttempt>)
    ensures coalesced == Coalesced(attempts, prior)
  {
    hide CanonicalKey, Summary, Arranged, KeptGroups, Present, Priority, EverFailed, Recent, Sorted, Grouped;
    var groups := GroupAttempts(attempts, prior);
    DistinctOrders(groups, attempts, prior);
    var sorted := SortGroups(groups);
    ArrangedIsSorted(attempts, prior);
    GroupedIsRecent(groups, attempts, prior);
    SortedUnique(sorted, Arranged(attempts, prior));
    FilterArranged(attempts, prior);
    var successfulVerifications, successfulSalient := 0, 0;
    var kept: seq<AttemptGroup> := [];
    for i := 0 to |sorted|
      invariant successfulVerifications >= 0 && successfulSalient >= 0
      invariant kept + Filter(sorted[i..], successfulVerifications, successfulSalient) == KeptGroups(attempts, prior)
    {
      var group := sorted[i];
      assert sorted[i..][0] == group && sorted[i..][1..] == sorted[i + 1..];
      var keep := false;
      if EverFailed(group) {
        keep := true;
      } else {
        match group.reason {
          case Some(VerificationReason) =>
            successfulVerifications := successfulVerifications + 1;
            keep := successfulVerifications <= KEEP_PER_REASON;
          case Some(ExplicitSalience) =>
            successfulSalient := successfulSalient + 1;
            keep := successfulSalient <= KEEP_PER_REASON;
          case _ =>
        }
      }
      if keep { kept := kept + [group]; }
    }
    coalesced := PresentAll(kept);
  }

  lemma DistinctOrders(groups: map<string, AttemptGroup>, attempts: seq<AutomaticAttempt>, prior: Priors)
    requires Grouped(groups, attempts, prior)
    ensures forall a, b | a in groups && b in groups && a != b :: groups[a].lastOrder != groups[b].lastOrder
  {
    hide CanonicalKey, FirstFailure, Count, LastFingerprint, StrongestReason;
  }

  lemma GroupedIsRecent(groups: map<string, AttemptGroup>, attempts: seq<AutomaticAttempt>, prior: Priors)
    requires Grouped(groups, attempts, prior)
    ensures forall g :: g in groups.Values <==> g in Recent(attempts, prior, |attempts|)
  {
    hide CanonicalKey, FirstFailure, Count, LastFingerprint, StrongestReason, Recent;
    RecentGroups(attempts, prior, |attempts|);
    forall g | g in Recent(attempts, prior, |attempts|) ensures g in groups.Values {
      assert groups[g.key] == g;
    }
  }

  // --- what coalescing promises -----------------------------------------

  // The groups of all keys, whether or not they are kept.
  function AllGroups(attempts: seq<AutomaticAttempt>, prior: Priors): set<AttemptGroup> {
    set key | key in AutomaticKeys(attempts) && LastIndex(attempts, key).Some? :: Summary(attempts, prior, key)
  }

  // The never-failed groups of the same reason that are more recent.
  function NewerQuiet(group: AttemptGroup, groups: set<AttemptGroup>): set<AttemptGroup> {
    set g | g in groups && !EverFailed(g) && g.reason == group.reason && g.lastOrder > group.lastOrder
  }

  ghost predicate WorthKeeping(group: AttemptGroup, groups: set<AttemptGroup>) {
    || EverFailed(group)
    || ((group.reason == Some(VerificationReason) || group.reason == Some(ExplicitSalience))
        && |NewerQuiet(group, groups)| < KEEP_PER_REASON)
  }

  function Elements(groups: seq<AttemptGroup>): set<AttemptGroup> { set g | g in groups }

  lemma LaterIsNew(groups: seq<AttemptGroup>, n: nat)
    requires Descending(groups) && n < |groups|
    ensures groups[n] !in groups[..n]
  {
  }

  lemma {:induction false} FrontSet(groups: seq<AttemptGroup>, n: nat)
    requires Descending(groups) && n <= |groups|
    ensures |Elements(groups[..n])| == n
  {
    hide Descending;
    if n == 0 {
      assert Elements(groups[..0]) == {};
    } else {
      FrontSet(groups, n - 1);
      assert groups[..n] == groups[..n - 1] + [groups[n - 1]];
      assert Elements(groups[..n]) == Elements(groups[..n - 1]) + {groups[n - 1]};
      assert groups[n - 1] !in groups[..n - 1] by { LaterIsNew(groups, n - 1); }
    }
  }

  lemma TakeNewest(groups: seq<AttemptGroup>, n: nat, group: AttemptGroup)
    requires Descending(groups) && group in groups
    ensures group in Take(groups, n) <==> |set g | g in groups && g.lastOrder > group.lastOrder| < n
  {
    var j :| 0 <= j < |groups| && groups[j] == group;
    FrontSet(groups, j);
    assert (set g | g in groups && g.lastOrder > group.lastOrder) == Elements(groups[..j]) by {
      forall g | g in groups && g.lastOrder > group.lastOrder ensures g in groups[..j] {
        var i :| 0 <= i < |groups| && groups[i] == g;
        assert i < j;
        assert groups[..j][i] == g;
      }
    }
    assert forall i | 0 <= i < |Take(groups, n)| :: Take(groups, n)[i] == groups[i];
    if j < n { assert group in Take(groups, n); }
  }

  lemma {:induction false} OfReasonElements(groups: seq<AttemptGroup>, reason: PromotionReason)
    ensures forall g :: g in OfReason(groups, reason) <==> g in groups && g.reason == Some(reason)
    ensures Descending(groups) ==> Descending(OfReason(groups, reason))
  {
    hide Descending;
    if groups != [] {
      OfReasonElements(groups[1..], reason);
      assert groups == [groups[0]] + groups[1..];
      if Descending(groups) {
        DescendingTail(groups);
        PrependDescending(groups[0], OfReason(groups[1..], reason));
        assert [] + OfReason(groups[1..], reason) == OfReason(groups[1..], reason);
      }
    } else {
      assert Descending([]) by { NothingDescends(); }
    }
  }

  lemma AllGroupsAreRecent(attempts: seq<AutomaticAttempt>, prior: Priors)
    ensures forall g :: g in AllGroups(attempts, prior) <==> g in Recent(attempts, prior, |attempts|)
  {
    hide CanonicalKey, FirstFailure, Count, LastFingerprint, StrongestReason, Recent;
    RecentGroups(attempts, prior, |attempts|);
    KeysHaveLast(attempts);
    forall g | g in Recent(attempts, prior, |attempts|) ensures g in AllGroups(attempts, prior) {
      assert g.key in AutomaticKeys(attempts);
    }
  }

  // Membership in the kept list, decided group by group.
  lemma KeptIsWorthKeeping(attempts: seq<AutomaticAttempt>, prior: Priors, group: AttemptGroup)
    requires group in AllGroups(attempts, prior)
    ensures group in KeptGroups(attempts, prior) <==> WorthKeeping(group, AllGroups(attempts, prior))
  {
    hide Recent, OfPriority, EverFailed, Priority, Take, OfReason, AllGroups;
    var recent, all := Recent(attempts, prior, |attempts|), AllGroups(attempts, prior);
    RecentGroups(attempts, prior, |attempts|);
    RecentFailures(attempts, prior);
    AllGroupsAreRecent(attempts, prior);
    OfPriorityElements(recent, 0);
    OfPriorityElements(recent, 1);
    OfPriorityElements(recent, 2);
    OfPriorityElements(recent, 3);
    var quiet, salient := OfPriority(recent, 2), OfReason(OfPriority(recent, 3), ExplicitSalience);
    OfReasonElements(OfPriority(recent, 3), ExplicitSalience);
    TakeIsPart(quiet, KEEP_PER_REASON);
    TakeIsPart(salient, KEEP_PER_REASON);
    if group in quiet { QuietRank(quiet, group, all); }
    if group in salient { QuietRank(salient, group, all); }
  }

  // Among quiet groups of one reason, the newer ones decide whether one is kept.
  lemma QuietRank(quiet: seq<AttemptGroup>, group: AttemptGroup, all: set<AttemptGroup>)
    requires Descending(quiet) && group in quiet
    requires forall g :: g in quiet <==> g in all && !EverFailed(g) && g.reason == group.reason
    ensures group in Take(quiet, KEEP_PER_REASON) <==> |NewerQuiet(group, all)| < KEEP_PER_REASON
  {
    hide EverFailed, Descending, Take;
    TakeNewest(quiet, KEEP_PER_REASON, group);
    assert NewerQuiet(group, all) == set g | g in quiet && g.lastOrder > group.lastOrder;
  }

  lemma TakeIsPart(groups: seq<AttemptGroup>, n: nat)
    ensures forall g | g in Take(groups, n) :: g in groups
  {
  }

  lemma KeptAreGroups(attempts: seq<AutomaticAttempt>, prior: Priors)
    ensures forall g | g in KeptGroups(attempts, prior) :: g in AllGroups(attempts, prior)
    ensures Sorted(KeptGroups(attempts, prior))
  {
    hide Recent, OfPriority, Take, OfReason, AllGroups, Sorted, Before;
    var recent := Recent(attempts, prior, |attempts|);
    RecentGroups(attempts, prior, |attempts|);
    AllGroupsAreRecent(attempts, prior);
    OfPriorityElements(recent, 0);
    OfPriorityElements(recent, 1);
    OfPriorityElements(recent, 2);
    OfPriorityElements(recent, 3);
    var p0, p1, p2, p3 := OfPriority(recent, 0), OfPriority(recent, 1), OfPriority(recent, 2), OfPriority(recent, 3);
    OfReasonElements(p3, ExplicitSalience);
    var verified, salient := Take(p2, KEEP_PER_REASON), Take(OfReason(p3, ExplicitSalience), KEEP_PER_REASON);
    TakeIsPart(p2, KEEP_PER_REASON);
    TakeIsPart(OfReason(p3, ExplicitSalience), KEEP_PER_REASON);
    AtMostOncePerOrder(recent);
    DescendingClassSorted(p0, 0);
    DescendingClassSorted(p1, 1);
    DescendingTake(p2, KEEP_PER_REASON);
    DescendingTake(OfReason(p3, ExplicitSalience), KEEP_PER_REASON);
    DescendingClassSorted(verified, 2);
    DescendingClassSorted(salient, 3);
    PrioritiesOrder();
    SortedConcat(p0, p1);
    SortedConcat(p0 + p1, verified);
    SortedConcat(p0 + p1 + verified, salient);
  }

  lemma DescendingTake(groups: seq<AttemptGroup>, n: nat)
    requires Descending(groups)
    ensures Descending(Take(groups, n))
  {
  }

  lemma DescendingClassSorted(groups: seq<AttemptGroup>, priority: nat)
    requires Descending(groups) && forall g | g in groups :: Priority(g) == priority
    ensures Sorted(groups)
  {
    hide Priority;
    assert forall i | 0 <= i < |groups| :: groups[i] in groups;
  }

  lemma PrioritiesOrder()
    ensures forall x, y | Priority(x) < Priority(y) :: Before(x, y)
  {
    hide Priority;
  }

  // Every attempted key has one group, presented once at most: output keys are
  // distinct, every key that ever failed survives, a key that never failed
  // survives only among the four most recent of its reason, and the output is
  // ordered by urgency, then recency.
  lemma CoalescingMeetsSpec(attempts: seq<AutomaticAttempt>, prior: Priors)
    ensures var kept, all := KeptGroups(attempts, prior), AllGroups(attempts, prior);
            && Sorted(kept)
            && (forall i, j | 0 <= i < j < |kept| :: kept[i].key != kept[j].key)
            && (forall g :: g in kept <==> g in all && WorthKeeping(g, all))
            && (forall key | key in AutomaticKeys(attempts) && (key in prior
                  || exists i :: 0 <= i < |attempts| && CanonicalKey(attempts[i].identity) == key
                        && !attempts[i].succeeded) ::
                exists i :: 0 <= i < |kept| && kept[i].key == key)
  {
    hide CanonicalKey, KeptGroups, AllGroups, Summary, Before, WorthKeeping;
    var kept, all := KeptGroups(attempts, prior), AllGroups(attempts, prior);
    KeptAreGroups(attempts, prior);
    forall g ensures g in kept <==> g in all && WorthKeeping(g, all) {
      if g in all { KeptIsWorthKeeping(attempts, prior, g); }
    }
    GroupsByKey(attempts, prior);
    forall i, j | 0 <= i < j < |kept| ensures kept[i].key != kept[j].key {
      assert kept[i] in kept && kept[j] in kept;
      assert kept[i].lastOrder != kept[j].lastOrder;
    }
    forall key | key in AutomaticKeys(attempts) && (key in prior
                   || exists i :: 0 <= i < |attempts| && CanonicalKey(attempts[i].identity) == key
                         && !attempts[i].succeeded)
      ensures exists i :: 0 <= i < |kept| && kept[i].key == key
    {
      KeysHaveLast(attempts);
      var g := Summary(attempts, prior, key);
      SummaryFailure(attempts, prior, key);
      FailedIsWorthKeeping(g, all);
      assert g in kept;
    }
  }

  lemma FailedIsWorthKeeping(group: AttemptGroup, groups: set<AttemptGroup>)
    requires EverFailed(group)
    ensures WorthKeeping(group, groups)
  {
  }

  lemma GroupsByKey(attempts: seq<AutomaticAttempt>, prior: Priors)
    ensures forall g | g in AllGroups(attempts, prior) ::
              LastIndex(attempts, g.key).Some? && g == Summary(attempts, prior, g.key)
    ensures forall key | key in AutomaticKeys(attempts) ::
              LastIndex(attempts, key).Some?
              && Summary(attempts, prior, key).key == key && Summary(attempts, prior, key) in AllGroups(attempts, prior)
  {
    hide CanonicalKey, FirstFailure, Count, LastFingerprint, StrongestReason;
    KeysHaveLast(attempts);
  }

  // What a presented group carries: the key's last attempt, and the prior
  // failure or else the key's earliest one.
  lemma SummaryCarries(attempts: seq<AutomaticAttempt>, prior: Priors, key: string)
    requires key in AutomaticKeys(attempts)
    ensures LastIndex(attempts, key).Some?
    ensures var g, last := Summary(attempts, prior, key), LastIndex(attempts, key).value;
            && CanonicalKey(attempts[last].identity) == key
            && (forall i | last < i < |attempts| :: CanonicalKey(attempts[i].identity) != key)
            && g.action == attempts[last].action && g.finalResult == attempts[last].result
            && g.finalSucceeded == attempts[last].succeeded && g.lastOrder == last
            && (key in prior ==> g.firstFailure == Some(prior[key]))
            && (key !in prior && g.firstFailure.Some? ==>
                  exists i :: && 0 <= i < |attempts| && CanonicalKey(attempts[i].identity) == key
                              && !attempts[i].succeeded && g.firstFailure == Some(attempts[i].result)
                              && forall k | 0 <= k < i ::
                                    CanonicalKey(attempts[k].identity) != key || attempts[k].succeeded)
            && g.observations == |Matching(attempts, key)| + (if key in prior then 1 else 0)
  {
    hide CanonicalKey, LastFingerprint, StrongestReason;
    KeysHaveLast(attempts);
    CountIsCardinality(attempts, key);
  }

  function Matching(attempts: seq<AutomaticAttempt>, key: string): set<nat> {
    set i: nat | i < |attempts| && CanonicalKey(attempts[i].identity) == key
  }

  lemma {:induction false} CountIsCardinality(attempts: seq<AutomaticAttempt>, key: string)
    ensures Count(attempts, key) == |Matching(attempts, key)|
  {
    hide CanonicalKey;
    if attempts == [] {
      assert Matching(attempts, key) == {};
    } else {
      var n := |attempts| - 1;
      CountIsCardinality(attempts[..n], key);
      MatchingSnoc(attempts, key);
    }
  }

  lemma MatchingSnoc(attempts: seq<AutomaticAttempt>, key: string)
    requires attempts != []
    ensures var n := |attempts| - 1;
            && n !in Matching(attempts[..n], key)
            && Matching(attempts, key)
               == Matching(attempts[..n], key) + if CanonicalKey(attempts[n].identity) == key then {n} else {}
  {
    hide CanonicalKey;
  }

  // --- what is returned -------------------------------------------------

  // The failure a group reports: the prior one, or the earliest of its own.
  ghost predicate IsFailureOf(attempts: seq<AutomaticAttempt>, prior: Priors, key: string, failure: Option<string>) {
    && (key in prior ==> failure == Some(prior[key]))
    && (key !in prior && failure.Some? ==>
          exists i :: && 0 <= i < |attempts| && CanonicalKey(attempts[i].identity) == key
                      && !attempts[i].succeeded && failure == Some(attempts[i].result)
                      && forall k | 0 <= k < i :: CanonicalKey(attempts[k].identity) != key || attempts[k].succeeded)
    && (failure.None? ==>
          key !in prior
          && forall i | 0 <= i < |attempts| :: CanonicalKey(attempts[i].identity) == key ==> attempts[i].succeeded)
  }

  // The latest fingerprint any attempt of the key came with.
  predicate IsFingerprintOf(attempts: seq<AutomaticAttempt>, key: string, fingerprint: Option<string>) {
    if fingerprint.None? then
      forall i | 0 <= i < |attempts| && CanonicalKey(attempts[i].identity) == key :: attempts[i].fingerprint.None?
    else
      exists i :: && 0 <= i < |attempts| && CanonicalKey(attempts[i].identity) == key
                  && attempts[i].fingerprint == fingerprint
                  && forall k | i < k < |attempts| && CanonicalKey(attempts[k].identity) == key ::
                       attempts[k].fingerprint.None?
  }

  predicate PromotedFor(attempts: seq<AutomaticAttempt>, key: string, reason: PromotionReason) {
    exists i :: 0 <= i < |attempts| && CanonicalKey(attempts[i].identity) == key && attempts[i].reason == Some(reason)
  }

  // A verification outranks an explicitly salient result, which outranks a failure.
  predicate IsReasonOf(attempts: seq<AutomaticAttempt>, key: string, text: Option<string>) {
    text == Some(
      if PromotedFor(attempts, key, VerificationReason) then "verification"
      else if PromotedFor(attempts, key, ExplicitSalience) then "explicit_salience" else "failed_execution")
  }

  lemma {:induction false} LastFingerprintIs(attempts: seq<AutomaticAttempt>, key: string)
    ensures IsFingerprintOf(attempts, key, LastFingerprint(attempts, key))
  {
    hide CanonicalKey;
    if attempts != [] {
      var n := |attempts| - 1;
      LastFingerprintIs(attempts[..n], key);
      assert forall i | 0 <= i < n :: attempts[..n][i] == attempts[i];
    }
  }

  lemma PromotedSnoc(attempts: seq<AutomaticAttempt>, key: string, reason: PromotionReason)
    requires attempts != []
    ensures var n := |attempts| - 1;
            PromotedFor(attempts, key, reason)
            == (PromotedFor(attempts[..n], key, reason)
                || (CanonicalKey(attempts[n].identity) == key && attempts[n].reason == Some(reason)))
  {
    hide CanonicalKey;
    var n := |attempts| - 1;
    assert forall i | 0 <= i < n :: attempts[..n][i] == attempts[i];
  }

  lemma {:induction false} StrongestReasonIs(attempts: seq<AutomaticAttempt>, key: string)
    ensures var reason := StrongestReason(attempts, key);
            && (reason == Some(VerificationReason) <==> PromotedFor(attempts, key, VerificationReason))
            && (reason == Some(ExplicitSalience)
                <==> PromotedFor(attempts, key, ExplicitSalience) && !PromotedFor(attempts, key, VerificationReason))
  {
    hide CanonicalKey, PromotedFor;
    if attempts == [] {
      NothingPromoted(key);
    } else {
      StrongestReasonIs(attempts[..|attempts| - 1], key);
      PromotedSnoc(attempts, key, VerificationReason);
      PromotedSnoc(attempts, key, ExplicitSalience);
    }
  }

  lemma NothingPromoted(key: string)
    ensures forall reason :: !PromotedFor([], key, reason)
  {
  }

  // One returned attempt: the last attempt of its key, and the failure, the
  // number of runs, the fingerprint and the reason reported for it.
  ghost predicate Returned(attempts: seq<AutomaticAttempt>, prior: Priors, key: string, out: CheckpointAttempt) {
    && out.key == Some(key)
    && IsFingerprintOf(attempts, key, out.fingerprint) && IsReasonOf(attempts, key, out.promotionReason)
    && exists last, failure :: && 0 <= last < |attempts| && CanonicalKey(attempts[last].identity) == key
         && (forall i | last < i < |attempts| :: CanonicalKey(attempts[i].identity) != key)
         && out.action == attempts[last].action && out.succeeded == attempts[last].succeeded
         && IsFailureOf(attempts, prior, key, failure)
         && out.result == Report(failure, attempts[last].result, attempts[last].succeeded, Runs(attempts, prior, key))
  }

  function Runs(attempts: seq<AutomaticAttempt>, prior: Priors, key: string): nat {
    |Matching(attempts, key)| + if key in prior then 1 else 0
  }

  lemma SummaryIsReturned(attempts: seq<AutomaticAttempt>, prior: Priors, key: string)
    requires key in AutomaticKeys(attempts)
    ensures LastIndex(attempts, key).Some?
    ensures Returned(attempts, prior, key, Present(Summary(attempts, prior, key)))
  {
    hide CanonicalKey, LastFingerprint, StrongestReason, Decimal, AutomaticKeys, IsFingerprintOf, PromotedFor;
    SummaryCarries(attempts, prior, key);
    LastFingerprintIs(attempts, key);
    StrongestReasonIs(attempts, key);
    var g, last := Summary(attempts, prior, key), LastIndex(attempts, key).value;
    SummaryFailure(attempts, prior, key);
    assert IsFailureOf(attempts, prior, key, g.firstFailure);
  }

  // Every attempt returned stands for a key of its own, and every key that ever
  // failed, now or in an earlier checkpoint, is returned.
  lemma CoalescedMeetsSpec(attempts: seq<AutomaticAttempt>, prior: Priors)
    ensures var out := Coalesced(attempts, prior);
            && (forall i | 0 <= i < |out| ::
                  out[i].key.Some? && out[i].key.value in AutomaticKeys(attempts)
                  && Returned(attempts, prior, out[i].key.value, out[i]))
            && (forall i, j | 0 <= i < j < |out| :: out[i].key != out[j].key)
            && (forall key | key in AutomaticKeys(attempts) && (key in prior
                  || exists i :: 0 <= i < |attempts| && CanonicalKey(attempts[i].identity) == key
                        && !attempts[i].succeeded) ::
                exists i :: 0 <= i < |out| && out[i].key == Some(key))
  {
    hide CanonicalKey, KeptGroups, AllGroups, Summary, Sorted, WorthKeeping, Returned, AutomaticKeys;
    CoalescingMeetsSpec(attempts, prior);
    GroupsByKey(attempts, prior);
    KeysOfGroups(attempts, prior);
    var kept, out := KeptGroups(attempts, prior), Coalesced(attempts, prior);
    forall i | 0 <= i < |out|
      ensures out[i].key == Some(kept[i].key) && kept[i].key in AutomaticKeys(attempts)
      ensures Returned(attempts, prior, kept[i].key, out[i])
    {
      assert kept[i] in kept;
      SummaryIsReturned(attempts, prior, kept[i].key);
    }
    forall key | key in AutomaticKeys(attempts) && (key in prior
                   || exists i :: 0 <= i < |attempts| && CanonicalKey(attempts[i].identity) == key
                         && !attempts[i].succeeded)
      ensures exists i :: 0 <= i < |out| && out[i].key == Some(key)
    {
      var i :| 0 <= i < |kept| && kept[i].key == key;
      assert out[i].key == Some(key);
    }
  }

  lemma KeysOfGroups(attempts: seq<AutomaticAttempt>, prior: Priors)
    ensures forall g | g in AllGroups(attempts, prior) :: g.key in AutomaticKeys(attempts)
  {
    hide CanonicalKey, FirstFailure, Count, LastFingerprint, StrongestReason;
  }

  // --- earlier failures show --------------------------------------------

  lemma {:induction false} DecimalDigits(n: nat)
    ensures Decimal(n) != "" && forall i | 0 <= i < |Decimal(n)| :: '0' <= Decimal(n)[i] <= '9'
  {
    if n >= 10 { DecimalDigits(n / 10); }
  }

  function Digit(n: nat): char
    requires n < 10
  {
    "0123456789"[n]
  }

  lemma DecimalSplits(n: nat)
    ensures Decimal(n) == (if n < 10 then "" else Decimal(n / 10)) + [Digit(n % 10)]
  {
  }

  lemma DigitInjective(a: nat, b: nat)
    requires a < 10 && b < 10 && Digit(a) == Digit(b)
    ensures a == b
  {
  }

  lemma {:induction false} DecimalInjective(a: nat, b: nat)
    requires Decimal(a) == Decimal(b)
    ensures a == b
  {
    hide Decimal, Digit;
    DecimalSplits(a);
    DecimalSplits(b);
    DecimalDigits(a / 10);
    DecimalDigits(b / 10);
    var x, y := Decimal(a), Decimal(b);
    assert x[|x| - 1] == Digit(a % 10) && y[|y| - 1] == Digit(b % 10);
    DigitInjective(a % 10, b % 10);
    if a >= 10 && b >= 10 {
      assert x[..|x| - 1] == Decimal(a / 10) && y[..|y| - 1] == Decimal(b / 10);
      DecimalInjective(a / 10, b / 10);
    }
  }

  // A text ending in a space and a number tells the number.
  lemma TrailingNumber(a: string, m: nat, b: string, n: nat)
    requires a != "" && a[|a| - 1] == ' ' && b != "" && b[|b| - 1] == ' '
    requires a + Decimal(m) == b + Decimal(n)
    ensures m == n && a == b
  {
    DecimalDigits(m);
    DecimalDigits(n);
    var x, y := a + Decimal(m), b + Decimal(n);
    assert forall k | |a| <= k < |x| :: x[k] == Decimal(m)[k - |a|];
    assert forall k | |b| <= k < |y| :: y[k] == Decimal(n)[k - |b|];
    assert x[|a| - 1] == ' ' && y[|b| - 1] == ' ';
    assert |a| == |b|;
    assert a == x[..|a|] && b == y[..|b|];
    assert Decimal(m) == x[|a|..] && Decimal(n) == y[|b|..];
    DecimalInjective(m, n);
  }

  function ReportHead(failure: Option<string>, last: string, succeeded: bool): string {
    if failure.Some? && succeeded then
      "First failure: " + failure.value + "\nFinal result: " + last + "\nObserved runs: "
    else if failure.Some? && failure.value != last then
      "First failure: " + failure.value + "\nLatest failure: " + last + "\nObserved runs: "
    else last + "\nObserved equivalent runs: "
  }

  lemma ReportSplits(failure: Option<string>, last: string, succeeded: bool, runs: nat)
    requires runs != 1
    ensures var head := ReportHead(failure, last, succeeded);
            && Report(failure, last, succeeded, runs) == head + Decimal(runs)
            && |head| > |last| && head[|head| - 1] == ' '
  {
  }

  // A report tells how many runs it counts.
  lemma ReportTellsRuns(f: Option<string>, g: Option<string>, last: string, succeeded: bool, m: nat, n: nat)
    requires Report(f, last, succeeded, m) == Report(g, last, succeeded, n)
    ensures m == n
  {
    hide Report, ReportHead, Decimal;
    if m != 1 { ReportSplits(f, last, succeeded, m); }
    if n != 1 { ReportSplits(g, last, succeeded, n); }
    if m == 1 && n != 1 {
      SingleRun(f, last, succeeded);
    } else if m != 1 && n == 1 {
      SingleRun(g, last, succeeded);
    } else if m != 1 {
      TrailingNumber(ReportHead(f, last, succeeded), m, ReportHead(g, last, succeeded), n);
    }
  }

  lemma SingleRun(failure: Option<string>, last: string, succeeded: bool)
    ensures Report(failure, last, succeeded, 1) == last
  {
  }

  lemma MiddleTells(a: string, x: string, y: string, b: string)
    requires a + x + b == a + y + b
    ensures x == y
  {
    var s := a + x + b;
    assert |x| == |y|;
    assert x == s[|a|..|a| + |x|];
    assert y == (a + y + b)[|a|..|a| + |y|];
  }

  lemma HeadTellsFailure(f: string, g: string, last: string, succeeded: bool)
    requires ReportHead(Some(f), last, succeeded) == ReportHead(Some(g), last, succeeded)
    ensures f == g
  {
    var tail := if succeeded then "\nFinal result: " + last + "\nObserved runs: "
                else "\nLatest failure: " + last + "\nObserved runs: ";
    if succeeded || (f != last && g != last) {
      assert ReportHead(Some(f), last, succeeded) == "First failure: " + f + tail;
      assert ReportHead(Some(g), last, succeeded) == "First failure: " + g + tail;
      MiddleTells("First failure: ", f, g, tail);
    } else {
      FailingHeadLength(f, last);
      FailingHeadLength(g, last);
    }
  }

  lemma FailingHeadLength(f: string, last: string)
    ensures (|ReportHead(Some(f), last, false)| == |last| + 27) == (f == last)
  {
  }

  // With more than one run it tells the failure.
  lemma ReportTellsFailure(f: string, g: string, last: string, succeeded: bool, runs: nat)
    requires runs != 1
    requires Report(Some(f), last, succeeded, runs) == Report(Some(g), last, succeeded, runs)
    ensures f == g
  {
    hide Decimal, ReportHead, Report;
    ReportSplits(Some(f), last, succeeded, runs);
    ReportSplits(Some(g), last, succeeded, runs);
    TrailingNumber(ReportHead(Some(f), last, succeeded), runs, ReportHead(Some(g), last, succeeded), runs);
    HeadTellsFailure(f, g, last, succeeded);
  }

  lemma LastIsUnique(attempts: seq<AutomaticAttempt>, key: string, i: nat, j: nat)
    requires i < |attempts| && CanonicalKey(attempts[i].identity) == key
    requires j < |attempts| && CanonicalKey(attempts[j].identity) == key
    requires forall k | i < k < |attempts| :: CanonicalKey(attempts[k].identity) != key
    requires forall k | j < k < |attempts| :: CanonicalKey(attempts[k].identity) != key
    ensures i == j
  {
  }

  lemma PositiveRuns(attempts: seq<AutomaticAttempt>, key: string, last: nat)
    requires last < |attempts| && CanonicalKey(attempts[last].identity) == key
    ensures |Matching(attempts, key)| > 0
  {
    assert last in Matching(attempts, key);
  }

  // One returned attempt determines the earlier failure of its key.
  lemma ReturnedTellsPrior(
    attempts: seq<AutomaticAttempt>, p: Priors, q: Priors, key: string, out: CheckpointAttempt)
    requires Returned(attempts, p, key, out) && Returned(attempts, q, key, out)
    ensures (key in p) == (key in q) && (key in p ==> p[key] == q[key])
  {
    hide CanonicalKey, Report;
    var i, f :| && 0 <= i < |attempts| && CanonicalKey(attempts[i].identity) == key
         && (forall k | i < k < |attempts| :: CanonicalKey(attempts[k].identity) != key)
         && out.action == attempts[i].action && out.succeeded == attempts[i].succeeded
         && IsFailureOf(attempts, p, key, f)
         && out.result == Report(f, attempts[i].result, attempts[i].succeeded, Runs(attempts, p, key));
    var j, g :| && 0 <= j < |attempts| && CanonicalKey(attempts[j].identity) == key
         && (forall k | j < k < |attempts| :: CanonicalKey(attempts[k].identity) != key)
         && out.action == attempts[j].action && out.succeeded == attempts[j].succeeded
         && IsFailureOf(attempts, q, key, g)
         && out.result == Report(g, attempts[j].result, attempts[j].succeeded, Runs(attempts, q, key));
    LastIsUnique(attempts, key, i, j);
    PositiveRuns(attempts, key, i);
    ReportTellsRuns(f, g, attempts[i].result, attempts[i].succeeded, Runs(attempts, p, key), Runs(attempts, q, key));
    if key in p {
      ReportTellsFailure(p[key], q[key], attempts[i].result, attempts[i].succeeded, Runs(attempts, p, key));
    }
  }

  // The returned list determines the earlier failure of every key it was built
  // from: different earlier failures never coalesce to the same list.
  lemma CoalescedTellsPriors(attempts: seq<AutomaticAttempt>, p: Priors, q: Priors)
    requires Coalesced(attempts, p) == Coalesced(attempts, q)
    ensures forall key | key in AutomaticKeys(attempts) :: (key in p) == (key in q) && (key in p ==> p[key] == q[key])
  {
    hide Coalesced, Returned, AutomaticKeys, CanonicalKey;
    CoalescedMeetsSpec(attempts, p);
    CoalescedMeetsSpec(attempts, q);
    var out := Coalesced(attempts, p);
    forall key | key in AutomaticKeys(attempts) && (key in p || key in q)
      ensures (key in p) == (key in q) && (key in p ==> p[key] == q[key])
    {
      var i :| 0 <= i < |out| && out[i].key == Some(key);
      ReturnedTellsPrior(attempts, p, q, key, out[i]);
    }
  }

  // --- how many are returned --------------------------------------------

  lemma {:induction false} FewKeys(attempts: seq<AutomaticAttempt>)
    ensures |AutomaticKeys(attempts)| <= |attempts|
  {
    hide CanonicalKey;
    if attempts == [] {
      assert AutomaticKeys(attempts) == {};
    } else {
      var n := |attempts| - 1;
      FewKeys(attempts[..n]);
      assert AutomaticKeys(attempts) == AutomaticKeys(attempts[..n]) + {CanonicalKey(attempts[n].identity)} by {
        assert forall i | 0 <= i < n :: attempts[..n][i] == attempts[i];
      }
    }
  }

  lemma {:induction false} DistinctAreFew(items: seq<Option<string>>, keys: set<string>)
    requires forall i | 0 <= i < |items| :: items[i].Some? && items[i].value in keys
    requires forall i, j | 0 <= i < j < |items| :: items[i] != items[j]
    ensures |items| <= |keys|
  {
    if items != [] {
      var n := |items| - 1;
      DistinctAreFew(items[..n], keys - {items[n].value});
    }
  }

  // Coalescing never returns more attempts than it was given.
  lemma CoalescedIsShort(attempts: seq<AutomaticAttempt>, prior: Priors)
    ensures |Coalesced(attempts, prior)| <= |attempts|
  {
    hide Coalesced, AutomaticKeys, Returned;
    CoalescedMeetsSpec(attempts, prior);
    FewKeys(attempts);
    var out := Coalesced(attempts, prior);
    DistinctAreFew(seq(|out|, i requires 0 <= i < |out| => out[i].key), AutomaticKeys(attempts));
  }

  // Without attempts nothing is returned.
  lemma NothingCoalesced(prior: Priors)
    ensures Coalesced([], prior) == []
  {
    assert Recent([], prior, 0) == [];
  }
}
