// What a checkpoint reports of the attempts of a session, in terms of the words
// of their identities.
module AttemptReports {
  import opened Basics
  import opened Domain
  import opened Strings
  import opened AttemptKeys
  import opened AttemptCoalescing

  predicate SameWords(a: AutomaticAttempt, b: AutomaticAttempt) { Words(a.identity) == Words(b.identity) }

  // The last attempt with these words is what is returned.
  predicate ReportsLast(attempts: seq<AutomaticAttempt>, last: nat, out: CheckpointAttempt) {
    && last < |attempts|
    && (forall i | last < i < |attempts| :: !SameWords(attempts[i], attempts[last]))
    && out.action == attempts[last].action && out.succeeded == attempts[last].succeeded
    && Contains(out.result, attempts[last].result)
    && ReportsDetails(attempts, last, out)
  }

  predicate SomeRun(attempts: seq<AutomaticAttempt>, last: nat, reason: PromotionReason)
    requires last < |attempts|
  {
    exists i | 0 <= i < |attempts| :: SameWords(attempts[i], attempts[last]) && attempts[i].reason == Some(reason)
  }

  // The strongest reason of all runs, and the fingerprint of the latest run that has one.
  predicate ReportsDetails(attempts: seq<AutomaticAttempt>, last: nat, out: CheckpointAttempt)
    requires last < |attempts|
  {
    && out.promotionReason == Some(
         if SomeRun(attempts, last, VerificationReason) then "verification"
         else if SomeRun(attempts, last, ExplicitSalience) then "explicit_salience" else "failed_execution")
    && (attempts[last].fingerprint.Some? ==> out.fingerprint == attempts[last].fingerprint)
    && (out.fingerprint.Some? ==>
          exists i | 0 <= i < |attempts| ::
            SameWords(attempts[i], attempts[last]) && attempts[i].fingerprint == out.fingerprint)
  }

  predicate OnlyRun(attempts: seq<AutomaticAttempt>, last: nat)
    requires last < |attempts|
  {
    forall i | 0 <= i < |attempts| && i != last :: !SameWords(attempts[i], attempts[last])
  }

  // The earliest failure with the words of `last`.
  predicate FailedFirst(attempts: seq<AutomaticAttempt>, last: nat, first: nat)
    requires last < |attempts|
  {
    && first < |attempts| && SameWords(attempts[first], attempts[last]) && !attempts[first].succeeded
    && forall i | 0 <= i < first && SameWords(attempts[i], attempts[last]) :: attempts[i].succeeded
  }

  // What the text says of earlier failures: none for a single run; otherwise the
  // prior failure of the words, or else their first one, before the last result.
  ghost predicate ReportsFailure(attempts: seq<AutomaticAttempt>, prior: Priors, last: nat, out: CheckpointAttempt)
    requires last < |attempts|
  {
    var key := CanonicalKey(attempts[last].identity);
    && (key !in prior && OnlyRun(attempts, last) ==> out.result == attempts[last].result)
    && (key in prior ==> TellsFailure(prior[key], attempts[last], out))
    && (forall first: nat | key !in prior && FailedFirst(attempts, last, first) && !OnlyRun(attempts, last) ::
          TellsFailure(attempts[first].result, attempts[last], out))
  }

  predicate TellsFailure(failure: string, last: AutomaticAttempt, out: CheckpointAttempt) {
    if last.succeeded then
      Contains(out.result, "First failure: " + failure + "\nFinal result: " + last.result)
    else if failure != last.result then
      Contains(out.result, "First failure: " + failure + "\nLatest failure: " + last.result)
    else Contains(out.result, failure)
  }

  lemma SameKeySameWords(a: AutomaticAttempt, b: AutomaticAttempt)
    ensures CanonicalKey(a.identity) == CanonicalKey(b.identity) <==> SameWords(a, b)
  {
    KeysTellWords(a.identity, b.identity);
  }

  lemma ReportContains(failure: Option<string>, last: string, succeeded: bool, runs: nat)
    ensures var text := Report(failure, last, succeeded, runs);
            && Contains(text, last)
            && (runs == 1 ==> text == last)
            && (runs != 1 && failure.Some? ==>
                  if succeeded then Contains(text, "First failure: " + failure.value + "\nFinal result: " + last)
                  else if failure.value != last then
                    Contains(text, "First failure: " + failure.value + "\nLatest failure: " + last)
                  else Contains(text, failure.value))
  {
    hide Contains;
    var text := Report(failure, last, succeeded, runs);
    if runs == 1 {
      ContainsMiddle("", last, "");
      assert "" + last + "" == last;
    } else if failure.Some? && (succeeded || failure.value != last) {
      var middle := if succeeded then "\nFinal result: " else "\nLatest failure: ";
      var head, tail := "First failure: " + failure.value + middle, "\nObserved runs: " + Decimal(runs);
      assert text == head + last + tail == "" + (head + last) + tail;
      ContainsMiddle(head, last, tail);
      ContainsMiddle("", head + last, tail);
    } else {
      var tail := "\nObserved equivalent runs: " + Decimal(runs);
      assert text == "" + last + tail;
      ContainsMiddle("", last, tail);
    }
  }

  lemma RunCount(attempts: seq<AutomaticAttempt>, last: nat)
    requires last < |attempts|
    ensures (|Matching(attempts, CanonicalKey(attempts[last].identity))| == 1) == OnlyRun(attempts, last)
  {
    hide CanonicalKey, SameWords;
    var key := CanonicalKey(attempts[last].identity);
    var matching := Matching(attempts, key);
    forall i | 0 <= i < |attempts| ensures i in matching <==> SameWords(attempts[i], attempts[last]) {
      SameKeySameWords(attempts[i], attempts[last]);
    }
    SameKeySameWords(attempts[last], attempts[last]);
    if OnlyRun(attempts, last) {
      assert matching == {last};
    } else {
      var i :| 0 <= i < |attempts| && i != last && SameWords(attempts[i], attempts[last]);
      assert {i, last} <= matching && |{i, last}| == 2;
      Subset({i, last}, matching);
    }
  }

  lemma Subset(a: set<nat>, b: set<nat>)
    requires a <= b
    ensures |a| <= |b|
  {
    assert b == a + (b - a);
  }

  lemma ReturnedReports(attempts: seq<AutomaticAttempt>, prior: Priors, key: string, last: nat, out: CheckpointAttempt)
    requires Returned(attempts, prior, key, out)
    requires last < |attempts| && CanonicalKey(attempts[last].identity) == key
    requires forall i | last < i < |attempts| :: CanonicalKey(attempts[i].identity) != key
    ensures ReportsLast(attempts, last, out) && ReportsFailure(attempts, prior, last, out)
  {
    hide CanonicalKey, SameWords, Contains, Report, IsFingerprintOf, IsReasonOf, ReportsDetails;
    var l, failure :| && 0 <= l < |attempts| && CanonicalKey(attempts[l].identity) == key
         && (forall i | l < i < |attempts| :: CanonicalKey(attempts[i].identity) != key)
         && out.action == attempts[l].action && out.succeeded == attempts[l].succeeded
         && IsFailureOf(attempts, prior, key, failure)
         && out.result == Report(failure, attempts[l].result, attempts[l].succeeded,
                                     AttemptCoalescing.Runs(attempts, prior, key));
    LastIsUnique(attempts, key, l, last);
    forall i | 0 <= i < |attempts|
      ensures CanonicalKey(attempts[i].identity) == key <==> SameWords(attempts[i], attempts[last])
    {
      SameKeySameWords(attempts[i], attempts[last]);
    }
    DetailsReported(attempts, key, last, out);
    PositiveRuns(attempts, key, last);
    RunCount(attempts, last);
    ReportContains(
      failure, attempts[last].result, attempts[last].succeeded, AttemptCoalescing.Runs(attempts, prior, key));
    forall first: nat | key !in prior && FailedFirst(attempts, last, first) && !OnlyRun(attempts, last)
      ensures TellsFailure(attempts[first].result, attempts[last], out)
    {
      FirstIsReported(attempts, prior, key, last, first, failure);
    }
  }

  lemma DetailsReported(attempts: seq<AutomaticAttempt>, key: string, last: nat, out: CheckpointAttempt)
    requires last < |attempts| && CanonicalKey(attempts[last].identity) == key
    requires forall i | last < i < |attempts| :: CanonicalKey(attempts[i].identity) != key
    requires forall i | 0 <= i < |attempts| ::
               CanonicalKey(attempts[i].identity) == key <==> SameWords(attempts[i], attempts[last])
    requires IsFingerprintOf(attempts, key, out.fingerprint) && IsReasonOf(attempts, key, out.promotionReason)
    ensures ReportsDetails(attempts, last, out)
  {
    hide CanonicalKey, SameWords;
    forall reason ensures PromotedFor(attempts, key, reason) == SomeRun(attempts, last, reason) {
      SameReasons(attempts, key, last, reason);
    }
  }

  lemma SameReasons(attempts: seq<AutomaticAttempt>, key: string, last: nat, reason: PromotionReason)
    requires last < |attempts|
    requires forall i | 0 <= i < |attempts| ::
               CanonicalKey(attempts[i].identity) == key <==> SameWords(attempts[i], attempts[last])
    ensures PromotedFor(attempts, key, reason) == SomeRun(attempts, last, reason)
  {
    hide CanonicalKey, SameWords;
  }

  lemma FirstIsReported(
    attempts: seq<AutomaticAttempt>, prior: Priors, key: string, last: nat, first: nat, failure: Option<string>)
    requires key !in prior && IsFailureOf(attempts, prior, key, failure) && last < |attempts|
    requires FailedFirst(attempts, last, first)
    requires forall i | 0 <= i < |attempts| ::
               CanonicalKey(attempts[i].identity) == key <==> SameWords(attempts[i], attempts[last])
    ensures failure == Some(attempts[first].result)
  {
    hide CanonicalKey, SameWords;
    assert CanonicalKey(attempts[first].identity) == key;
    if failure.Some? {
      var i :| && 0 <= i < |attempts| && CanonicalKey(attempts[i].identity) == key
               && !attempts[i].succeeded && failure == Some(attempts[i].result)
               && forall k | 0 <= k < i :: CanonicalKey(attempts[k].identity) != key || attempts[k].succeeded;
      assert SameWords(attempts[i], attempts[last]);
    }
  }

  // --- all returned attempts --------------------------------------------

  // Some attempt with these words failed, now or in an earlier checkpoint.
  predicate FailedSometime(attempts: seq<AutomaticAttempt>, prior: Priors, last: nat)
    requires last < |attempts|
  {
    || CanonicalKey(attempts[last].identity) in prior
    || exists i | 0 <= i < |attempts| :: SameWords(attempts[i], attempts[last]) && !attempts[i].succeeded
  }

  // Failing attempts first, then recovered ones, verifications and salient results.
  function Urgency(attempts: seq<AutomaticAttempt>, prior: Priors, last: nat): nat
    requires last < |attempts|
  {
    if !attempts[last].succeeded then 0
    else if FailedSometime(attempts, prior, last) then 1
    else if SomeRun(attempts, last, VerificationReason) then 2
    else 3
  }

  // The last attempt of words that never failed and were promoted for this reason.
  predicate Quiet(attempts: seq<AutomaticAttempt>, prior: Priors, last: nat, reason: PromotionReason) {
    && last < |attempts|
    && (forall i | last < i < |attempts| :: !SameWords(attempts[i], attempts[last]))
    && !FailedSometime(attempts, prior, last) && SomeRun(attempts, last, reason)
    && (reason == ExplicitSalience ==> !SomeRun(attempts, last, VerificationReason))
  }

  function LaterQuiet(attempts: seq<AutomaticAttempt>, prior: Priors, last: nat, reason: PromotionReason): set<nat> {
    set m | last < m < |attempts| && Quiet(attempts, prior, m, reason)
  }

  // Which attempt each returned one reports.
  ghost predicate Reports(
    attempts: seq<AutomaticAttempt>, prior: Priors, out: seq<CheckpointAttempt>, lasts: seq<nat>)
  {
    && |lasts| == |out|
    && (forall o | 0 <= o < |out| ::
          ReportsLast(attempts, lasts[o], out[o]) && ReportsFailure(attempts, prior, lasts[o], out[o]))
    && (forall o, p | 0 <= o < p < |out| ::
          && !SameWords(attempts[lasts[o]], attempts[lasts[p]])
          && (Urgency(attempts, prior, lasts[o]) < Urgency(attempts, prior, lasts[p])
              || (Urgency(attempts, prior, lasts[o]) == Urgency(attempts, prior, lasts[p]) && lasts[o] > lasts[p])))
  }

  // The last attempt of some words is returned when they ever failed, or else
  // when it is one of the four most recent verifications or salient results.
  ghost predicate ReturnsWorthy(attempts: seq<AutomaticAttempt>, prior: Priors, lasts: seq<nat>) {
    forall last: nat | last < |attempts|
                       && (forall i | last < i < |attempts| :: !SameWords(attempts[i], attempts[last])) ::
      last in lasts
      <==> || FailedSometime(attempts, prior, last)
           || (Quiet(attempts, prior, last, VerificationReason)
               && |LaterQuiet(attempts, prior, last, VerificationReason)| < 4)
           || (Quiet(attempts, prior, last, ExplicitSalience)
               && |LaterQuiet(attempts, prior, last, ExplicitSalience)| < 4)
  }

  // What the group of a last attempt is, in terms of words.
  lemma GroupOfLast(attempts: seq<AutomaticAttempt>, prior: Priors, last: nat)
    requires last < |attempts| && forall i | last < i < |attempts| :: !SameWords(attempts[i], attempts[last])
    ensures var key := CanonicalKey(attempts[last].identity);
            && LastIndex(attempts, key) == Some(last) && key in AutomaticKeys(attempts)
            && (var g := Summary(attempts, prior, key);
                && g.lastOrder == last && g.key == key && g.finalSucceeded == attempts[last].succeeded
                && (EverFailed(g) <==> FailedSometime(attempts, prior, last))
                && (g.firstFailure.Some? <==> FailedSometime(attempts, prior, last))
                && (g.reason == Some(VerificationReason) <==> SomeRun(attempts, last, VerificationReason))
                && (g.reason == Some(ExplicitSalience)
                    <==> SomeRun(attempts, last, ExplicitSalience) && !SomeRun(attempts, last, VerificationReason)))
  {
    hide CanonicalKey, SameWords, FirstFailure, Count, LastFingerprint, StrongestReason, EverFailed, PromotedFor;
    var key := CanonicalKey(attempts[last].identity);
    forall i | 0 <= i < |attempts|
      ensures CanonicalKey(attempts[i].identity) == key <==> SameWords(attempts[i], attempts[last])
    {
      SameKeySameWords(attempts[i], attempts[last]);
    }
    SummaryFailure(attempts, prior, key);
    StrongestReasonIs(attempts, key);
    SameReasons(attempts, key, last, VerificationReason);
    SameReasons(attempts, key, last, ExplicitSalience);
  }

  lemma PriorityIsUrgency(attempts: seq<AutomaticAttempt>, prior: Priors, last: nat)
    requires last < |attempts| && forall i | last < i < |attempts| :: !SameWords(attempts[i], attempts[last])
    ensures LastIndex(attempts, CanonicalKey(attempts[last].identity)).Some?
    ensures Priority(Summary(attempts, prior, CanonicalKey(attempts[last].identity))) == Urgency(attempts, prior, last)
  {
    hide CanonicalKey, SameWords, Summary, LastIndex, EverFailed, FailedSometime, SomeRun;
    GroupOfLast(attempts, prior, last);
  }

  // --- the caps ---------------------------------------------------------

  lemma {:induction false} OrdersCount(groups: set<AttemptGroup>, orders: set<nat>)
    requires forall g | g in groups :: g.lastOrder in orders
    requires forall m | m in orders :: exists g :: g in groups && g.lastOrder == m
    requires forall g, h | g in groups && h in groups && g.lastOrder == h.lastOrder :: g == h
    ensures |groups| == |orders|
    decreases groups
  {
    if groups == {} {
      assert orders == {};
    } else {
      var g :| g in groups;
      forall m | m in orders - {g.lastOrder} ensures exists h :: h in groups - {g} && h.lastOrder == m {
        var h :| h in groups && h.lastOrder == m;
        assert h in groups - {g};
      }
      OrdersCount(groups - {g}, orders - {g.lastOrder});
    }
  }

  lemma NewerAreLater(attempts: seq<AutomaticAttempt>, prior: Priors, last: nat, reason: PromotionReason)
    requires Quiet(attempts, prior, last, reason) && reason != FailedExecution
    ensures LastIndex(attempts, CanonicalKey(attempts[last].identity)).Some?
    ensures var g := Summary(attempts, prior, CanonicalKey(attempts[last].identity));
            |NewerQuiet(g, AllGroups(attempts, prior))| == |LaterQuiet(attempts, prior, last, reason)|
  {
    hide CanonicalKey, SameWords, Summary, LastIndex, EverFailed, FailedSometime, SomeRun, AutomaticKeys;
    GroupOfLast(attempts, prior, last);
    var g := Summary(attempts, prior, CanonicalKey(attempts[last].identity));
    var newer, later := NewerQuiet(g, AllGroups(attempts, prior)), LaterQuiet(attempts, prior, last, reason);
    forall h | h in AllGroups(attempts, prior)
      ensures h.lastOrder < |attempts| && h == GroupAt(attempts, prior, h.lastOrder)
      ensures h in newer <==> h.lastOrder in later
    {
      GroupsHaveLasts(attempts, prior, h);
      GroupOfLast(attempts, prior, h.lastOrder);
    }
    forall m | m in later ensures exists h :: h in newer && h.lastOrder == m {
      GroupOfLast(attempts, prior, m);
      var h := Summary(attempts, prior, CanonicalKey(attempts[m].identity));
      assert h in AllGroups(attempts, prior);
      assert h in newer;
    }
    OrdersCount(newer, later);
  }

  ghost function GroupAt(attempts: seq<AutomaticAttempt>, prior: Priors, last: nat): AttemptGroup
    requires last < |attempts|
  {
    var key := CanonicalKey(attempts[last].identity);
    assert LastIndex(attempts, key).Some? by { if LastIndex(attempts, key).None? { assert 0 <= last < |attempts|; } }
    Summary(attempts, prior, key)
  }

  lemma GroupsHaveLasts(attempts: seq<AutomaticAttempt>, prior: Priors, g: AttemptGroup)
    requires g in AllGroups(attempts, prior)
    ensures g.lastOrder < |attempts| && CanonicalKey(attempts[g.lastOrder].identity) == g.key
    ensures forall i | g.lastOrder < i < |attempts| :: !SameWords(attempts[i], attempts[g.lastOrder])
    ensures g == GroupAt(attempts, prior, g.lastOrder)
  {
    hide CanonicalKey, SameWords, FirstFailure, Count, LastFingerprint, StrongestReason;
    var key :| key in AutomaticKeys(attempts) && LastIndex(attempts, key).Some? && g == Summary(attempts, prior, key);
    forall i | g.lastOrder < i < |attempts| ensures !SameWords(attempts[i], attempts[g.lastOrder]) {
      SameKeySameWords(attempts[i], attempts[g.lastOrder]);
    }
  }

  lemma WorthyIsKept(attempts: seq<AutomaticAttempt>, prior: Priors, last: nat)
    requires last < |attempts| && forall i | last < i < |attempts| :: !SameWords(attempts[i], attempts[last])
    ensures WorthKeeping(GroupAt(attempts, prior, last), AllGroups(attempts, prior))
       <==> || FailedSometime(attempts, prior, last)
            || (Quiet(attempts, prior, last, VerificationReason)
                && |LaterQuiet(attempts, prior, last, VerificationReason)| < 4)
            || (Quiet(attempts, prior, last, ExplicitSalience)
                && |LaterQuiet(attempts, prior, last, ExplicitSalience)| < 4)
  {
    hide CanonicalKey, SameWords, Summary, LastIndex, EverFailed, FailedSometime, SomeRun, AllGroups, NewerQuiet,
      LaterQuiet;
    GroupOfLast(attempts, prior, last);
    if Quiet(attempts, prior, last, VerificationReason) { NewerAreLater(attempts, prior, last, VerificationReason); }
    if Quiet(attempts, prior, last, ExplicitSalience) { NewerAreLater(attempts, prior, last, ExplicitSalience); }
  }

  // --- the theorem ------------------------------------------------------

  lemma KeptReports(attempts: seq<AutomaticAttempt>, prior: Priors, g: AttemptGroup)
    requires g in AllGroups(attempts, prior)
    ensures g.lastOrder < |attempts|
    ensures ReportsLast(attempts, g.lastOrder, Present(g)) && ReportsFailure(attempts, prior, g.lastOrder, Present(g))
    ensures Priority(g) == Urgency(attempts, prior, g.lastOrder)
    ensures g == GroupAt(attempts, prior, g.lastOrder)
    ensures forall i | g.lastOrder < i < |attempts| :: !SameWords(attempts[i], attempts[g.lastOrder])
  {
    hide CanonicalKey, SameWords, Summary, Present, ReportsLast, ReportsFailure, Urgency, Priority, AllGroups, Returned;
    GroupsHaveLasts(attempts, prior, g);
    PriorityIsUrgency(attempts, prior, g.lastOrder);
    GroupOfLast(attempts, prior, g.lastOrder);
    SummaryIsReturned(attempts, prior, g.key);
    forall i | g.lastOrder < i < |attempts| ensures CanonicalKey(attempts[i].identity) != g.key {
      SameKeySameWords(attempts[i], attempts[g.lastOrder]);
    }
    ReturnedReports(attempts, prior, g.key, g.lastOrder, Present(g));
  }

  // Every set of attempts with the same words that ever failed is returned, once,
  // as its last attempt, with its first failure; different words never merge.
  lemma CoalescedReports(attempts: seq<AutomaticAttempt>, prior: Priors) returns (lasts: seq<nat>)
    ensures Reports(attempts, prior, Coalesced(attempts, prior), lasts)
    ensures ReturnsWorthy(attempts, prior, lasts)
  {
    hide CanonicalKey, SameWords, Returned, ReportsLast, ReportsFailure, KeptGroups, LastIndex, Urgency, Present,
      Summary, AllGroups, WorthKeeping, Priority, FailedSometime, Quiet, LaterQuiet, GroupAt, AutomaticKeys, TextBefore;
    var kept := KeptGroups(attempts, prior);
    CoalescingMeetsSpec(attempts, prior);
    lasts := seq(|kept|, o requires 0 <= o < |kept| => kept[o].lastOrder);
    forall o | 0 <= o < |kept|
      ensures lasts[o] < |attempts| && Priority(kept[o]) == Urgency(attempts, prior, lasts[o])
      ensures ReportsLast(attempts, lasts[o], Present(kept[o]))
      ensures ReportsFailure(attempts, prior, lasts[o], Present(kept[o]))
      ensures kept[o] == GroupAt(attempts, prior, lasts[o])
      ensures forall i | lasts[o] < i < |attempts| :: !SameWords(attempts[i], attempts[lasts[o]])
    {
      assert kept[o] in kept;
      KeptReports(attempts, prior, kept[o]);
    }
    forall o, p | 0 <= o < p < |kept|
      ensures !SameWords(attempts[lasts[o]], attempts[lasts[p]]) && lasts[o] != lasts[p]
    {
      KeysOfKept(attempts, prior, lasts[o], lasts[p]);
    }
    LastsAreWorthy(attempts, prior, lasts);
  }

  lemma KeysOfKept(attempts: seq<AutomaticAttempt>, prior: Priors, a: nat, b: nat)
    requires a < |attempts| && b < |attempts|
    requires GroupAt(attempts, prior, a).key != GroupAt(attempts, prior, b).key
    ensures !SameWords(attempts[a], attempts[b]) && a != b
  {
    SameKeySameWords(attempts[a], attempts[b]);
  }

  lemma LastsAreWorthy(attempts: seq<AutomaticAttempt>, prior: Priors, lasts: seq<nat>)
    requires var kept := KeptGroups(attempts, prior);
             && |lasts| == |kept| && (forall o | 0 <= o < |kept| :: lasts[o] == kept[o].lastOrder)
             && (forall g :: g in kept
                   <==> g in AllGroups(attempts, prior) && WorthKeeping(g, AllGroups(attempts, prior)))
    ensures ReturnsWorthy(attempts, prior, lasts)
  {
    hide CanonicalKey, SameWords, KeptGroups, Summary, WorthKeeping, FailedSometime, Quiet, LaterQuiet,
      AutomaticKeys, LastIndex;
    var kept := KeptGroups(attempts, prior);
    forall last: nat
      | last < |attempts| && (forall i | last < i < |attempts| :: !SameWords(attempts[i], attempts[last]))
      ensures last in lasts <==> WorthKeeping(GroupAt(attempts, prior, last), AllGroups(attempts, prior))
    {
      GroupOfLast(attempts, prior, last);
      var g := GroupAt(attempts, prior, last);
      assert g in AllGroups(attempts, prior);
      if g in kept {
        var o :| 0 <= o < |kept| && kept[o] == g;
        assert lasts[o] == last;
      }
      if last in lasts {
        var o :| 0 <= o < |lasts| && lasts[o] == last;
        assert kept[o] in kept;
        GroupsHaveLasts(attempts, prior, kept[o]);
      }
    }
    forall last: nat
      | last < |attempts| && (forall i | last < i < |attempts| :: !SameWords(attempts[i], attempts[last]))
    {
      WorthyIsKept(attempts, prior, last);
    }
  }

  // A failure whose words no other attempt has, now or in an earlier checkpoint,
  // is returned as it was.
  lemma LoneFailureIsReturned(attempts: seq<AutomaticAttempt>, prior: Priors, i: nat)
    requires i < |attempts| && !attempts[i].succeeded && OnlyRun(attempts, i)
    requires CanonicalKey(attempts[i].identity) !in prior
    ensures exists o :: && 0 <= o < |Coalesced(attempts, prior)|
                        && Coalesced(attempts, prior)[o].action == attempts[i].action
                        && Coalesced(attempts, prior)[o].result == attempts[i].result
                        && !Coalesced(attempts, prior)[o].succeeded
  {
    hide CanonicalKey, Coalesced, SameWords, Quiet, LaterQuiet, Urgency;
    var lasts := CoalescedReports(attempts, prior);
    SameKeySameWords(attempts[i], attempts[i]);
    assert FailedSometime(attempts, prior, i);
    var o :| 0 <= o < |lasts| && lasts[o] == i;
  }
}
