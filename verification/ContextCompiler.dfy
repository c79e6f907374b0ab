// `compile_context`: spends a token budget on ranked hits, then regroups the
// accepted ones into sections.
module ContextCompiler {
  import opened Basics
  import opened Domain
  import opened Strings
  import opened Text

  // Budget set aside for the envelope that adapters put around the context.
  const ENVELOPE_RESERVE: nat := 37
  const SECTION_COUNT: nat := 6

  datatype RecallHit = RecallHit(memory: Memory, applicability: Applicability, score: int, reasons: seq<string>)

  datatype ContextItem = ContextItem(
    memoryId: MemoryId, revision: nat, title: string, body: string, score: int,
    applicability: Applicability, reasons: seq<string>, estimatedTokens: nat, citations: seq<EventId>)

  datatype ContextSection = ContextSection(name: string, items: seq<ContextItem>)

  datatype ContextPack = ContextPack(
    tokenBudget: nat, estimatedTokens: nat, sections: seq<ContextSection>,
    warnings: seq<string>, rendered: string, hits: seq<RecallHit>)

  // The loop's variables.
  datatype Draft = Draft(
    grouped: map<nat, seq<ContextItem>>, warnings: seq<string>, accepted: seq<RecallHit>, renderedTokens: nat)

  const EMPTY_DRAFT := Draft(map[], [], [], 0)

  function SectionFor(kind: MemoryKind): (priority: nat)
    ensures priority < SECTION_COUNT
  {
    match kind
    case Constraint | Preference => 0
    case Decision => 1
    case Outcome => 2
    case Procedure => 3
    case Task => 4
    case Fact | Episode | Observation => 5
  }

  function SectionName(priority: nat): string {
    if priority == 0 then "constraints_and_preferences"
    else if priority == 1 then "decisions"
    else if priority == 2 then "attempts_and_outcomes"
    else if priority == 3 then "procedures"
    else if priority == 4 then "open_tasks"
    else "relevant_history"
  }

  function RenderContextItem(
    title: string, body: string, memoryId: MemoryId, revision: nat, applicability: Applicability): string
  {
    "- " + RenderTitle(title) + ": " + RenderBody(body)
    + (" [memory:" + Decimal(memoryId) + " rev:" + Decimal(revision) + "; " + applicability.Label() + "]\n")
  }

  function RenderWarning(warning: string): string { "- " + EscapeRenderedData(warning) + "\n" }

  function SectionHeader(priority: nat): string { "\n[" + SectionName(priority) + "]\n" }

  const WARNINGS_HEADER: string := "\n[warnings]\n"

  function Fragment(hit: RecallHit, body: string): string {
    RenderContextItem(hit.memory.title, body, hit.memory.memoryId, hit.memory.revision, hit.applicability)
  }

  function VersionWarnings(hit: RecallHit): seq<string> {
    if hit.applicability == Stale || hit.applicability == Divergent then
      ["Memory " + Decimal(hit.memory.memoryId) + " is " + hit.applicability.Label()
       + "; verify it against the current repository before acting."]
    else []
  }

  function ContestWarnings(hit: RecallHit): seq<string> {
    if hit.memory.state == Contested then
      ["Memory " + Decimal(hit.memory.memoryId) + " is contested by other evidence."]
    else []
  }

  function HitWarnings(hit: RecallHit): seq<string> { VersionWarnings(hit) + ContestWarnings(hit) }

  function WarningTokens(warnings: seq<string>): nat {
    if warnings == [] then 0
    else WarningTokens(warnings[..|warnings| - 1]) + EstimateTokens(RenderWarning(warnings[|warnings| - 1]))
  }

  // What accepting the hit costs besides its own fragment.
  function FixedTokens(draft: Draft, hit: RecallHit): nat {
    var warnings := HitWarnings(hit);
    (if SectionFor(hit.memory.kind) in draft.grouped then 0
     else EstimateTokens(SectionHeader(SectionFor(hit.memory.kind))))
    + (if warnings != [] && draft.warnings == [] then EstimateTokens(WARNINGS_HEADER) else 0)
    + WarningTokens(warnings)
  }

  function ItemBudget(draft: Draft, hit: RecallHit, renderBudget: nat): Option<nat> {
    if draft.renderedTokens > renderBudget then None
    else if FixedTokens(draft, hit) > renderBudget - draft.renderedTokens then None
    else Some(renderBudget - draft.renderedTokens - FixedTokens(draft, hit))
  }

  // A cut of the body to `tokens` tokens that is not empty and fits.
  predicate Fits(hit: RecallHit, tokens: nat, itemBudget: nat) {
    var body := TruncateToTokens(hit.memory.body, tokens);
    body != "" && EstimateTokens(Fragment(hit, body)) <= itemBudget
  }

  // Reference search: try every token count from the top.
  function LongestCut(hit: RecallHit, top: nat, itemBudget: nat): Option<nat> {
    if top == 0 then None
    else if Fits(hit, top, itemBudget) then Some(top)
    else LongestCut(hit, top - 1, itemBudget)
  }

  function WithBody(hit: RecallHit, body: string): RecallHit {
    hit.(memory := hit.memory.(body := body))
  }

  function Citations(evidence: seq<Evidence>): seq<EventId> {
    seq(|evidence|, i requires 0 <= i < |evidence| => evidence[i].event)
  }

  // The structured view of an accepted hit.
  function ItemFor(hit: RecallHit): ContextItem {
    ContextItem(hit.memory.memoryId, hit.memory.revision, hit.memory.title, hit.memory.body, hit.score,
                hit.applicability, hit.reasons, EstimateTokens(Fragment(hit, hit.memory.body)),
                Citations(hit.memory.evidence))
  }

  function AddItem(grouped: map<nat, seq<ContextItem>>, priority: nat, item: ContextItem): map<nat, seq<ContextItem>> {
    grouped[priority := (if priority in grouped then grouped[priority] else []) + [item]]
  }

  function Accept(draft: Draft, hit: RecallHit, body: string): Draft {
    var cut := WithBody(hit, body);
    Draft(AddItem(draft.grouped, SectionFor(hit.memory.kind), ItemFor(cut)),
          draft.warnings + HitWarnings(hit),
          draft.accepted + [cut],
          draft.renderedTokens + FixedTokens(draft, hit) + EstimateTokens(Fragment(hit, body)))
  }

  function Step(draft: Draft, hit: RecallHit, renderBudget: nat): Draft {
    match ItemBudget(draft, hit, renderBudget)
    case None => draft
    case Some(itemBudget) =>
      match LongestCut(hit, if itemBudget == 0 then 1 else itemBudget, itemBudget)
      case None => draft
      case Some(tokens) => Accept(draft, hit, TruncateToTokens(hit.memory.body, tokens))
  }

  function Spend(hits: seq<RecallHit>, renderBudget: nat): Draft {
    if hits == [] then EMPTY_DRAFT
    else Step(Spend(hits[..|hits| - 1], renderBudget), hits[|hits| - 1], renderBudget)
  }

  function Sections(grouped: map<nat, seq<ContextItem>>, upTo: nat): seq<ContextSection> {
    if upTo == 0 then []
    else Sections(grouped, upTo - 1)
         + if upTo - 1 in grouped then [ContextSection(SectionName(upTo - 1), grouped[upTo - 1])] else []
  }

  function RenderItems(items: seq<ContextItem>): string {
    if items == [] then ""
    else
      var item := items[|items| - 1];
      RenderItems(items[..|items| - 1])
      + RenderContextItem(item.title, item.body, item.memoryId, item.revision, item.applicability)
  }

  function RenderSections(sections: seq<ContextSection>): string {
    if sections == [] then ""
    else
      var section := sections[|sections| - 1];
      RenderSections(sections[..|sections| - 1]) + ("\n[" + section.name + "]\n") + RenderItems(section.items)
  }

  function RenderWarnings(warnings: seq<string>): string {
    if warnings == [] then ""
    else RenderWarnings(warnings[..|warnings| - 1]) + RenderWarning(warnings[|warnings| - 1])
  }

  function RenderContext(sections: seq<ContextSection>, warnings: seq<string>): string {
    RenderSections(sections) + if warnings == [] then "" else WARNINGS_HEADER + RenderWarnings(warnings)
  }

  function Reserve(tokenBudget: nat): nat {
    if tokenBudget < ENVELOPE_RESERVE then tokenBudget else ENVELOPE_RESERVE
  }

  function Finish(draft: Draft, tokenBudget: nat): ContextPack {
    var sections := Sections(draft.grouped, SECTION_COUNT);
    if sections == [] && draft.warnings == [] then
      ContextPack(tokenBudget, 0, sections, draft.warnings, "", draft.accepted)
    else
      var rendered := RenderContext(sections, draft.warnings);
      ContextPack(tokenBudget, EstimateTokens(rendered) + Reserve(tokenBudget),
                  sections, draft.warnings, rendered, draft.accepted)
  }

  function Compile(tokenBudget: nat, hits: seq<RecallHit>): ContextPack {
    Finish(Spend(hits, tokenBudget - Reserve(tokenBudget)), tokenBudget)
  }

  // --- longest cut ------------------------------------------------------

  lemma FragmentLength(hit: RecallHit, a: string, b: string)
    requires |RenderBody(a)| <= |RenderBody(b)|
    ensures EstimateTokens(Fragment(hit, a)) <= EstimateTokens(Fragment(hit, b))
  {
  }

  lemma EllipsisAdds(text: string)
    ensures |RenderBody(text + [ELLIPSIS])| == |GlyphRun(text)| + 1
  {
    hide RenderBody, GlyphRun;
    RenderBodySnoc(text, ELLIPSIS);
    RenderBodyIsGlyphRun(text);
  }

  lemma RenderedCutGrows(text: string, s: nat, t: nat)
    requires 1 <= s <= t
    ensures |RenderBody(TruncateToTokens(text, s))| <= |RenderBody(TruncateToTokens(text, t))|
  {
    hide RenderBody, GlyphRun, TruncateToTokens, Kept;
    TruncateIsKeptPrefix(text, s);
    TruncateIsKeptPrefix(text, t);
    if |text| > 3 * s {
      EllipsisAdds(text[..Kept(text, s)]);
      if |text| <= 3 * t {
        GlyphRunGrows(text, Kept(text, s));
        RenderBodyIsGlyphRun(text);
      } else {
        EllipsisAdds(text[..Kept(text, t)]);
        KeptMonotone(text, s, t);
        GlyphRunPrefix(text[..Kept(text, t)], Kept(text, s));
        assert text[..Kept(text, t)][..Kept(text, s)] == text[..Kept(text, s)];
      }
    }
  }

  // If a cut fits, every shorter cut fits.
  lemma FitsMonotone(hit: RecallHit, s: nat, t: nat, itemBudget: nat)
    requires 1 <= s <= t && Fits(hit, t, itemBudget)
    ensures Fits(hit, s, itemBudget)
  {
    RenderedCutGrows(hit.memory.body, s, t);
    FragmentLength(hit, TruncateToTokens(hit.memory.body, s), TruncateToTokens(hit.memory.body, t));
    TruncateIsKeptPrefix(hit.memory.body, s);
    TruncateIsKeptPrefix(hit.memory.body, t);
  }

  // The reference search returns the largest fitting count, and fails only
  // when none fits.
  lemma {:induction false} LongestCutIsLongest(hit: RecallHit, top: nat, itemBudget: nat)
    ensures match LongestCut(hit, top, itemBudget)
            case None => forall t | 1 <= t <= top :: !Fits(hit, t, itemBudget)
            case Some(best) =>
              && 1 <= best <= top && Fits(hit, best, itemBudget)
              && forall t | best < t <= top :: !Fits(hit, t, itemBudget)
  {
    hide Fits;
    if top > 0 && !Fits(hit, top, itemBudget) { LongestCutIsLongest(hit, top - 1, itemBudget); }
  }

  lemma LongestCutUnique(hit: RecallHit, top: nat, itemBudget: nat, best: nat)
    requires 1 <= best <= top && Fits(hit, best, itemBudget)
    requires forall t | best < t <= top :: !Fits(hit, t, itemBudget)
    ensures LongestCut(hit, top, itemBudget) == Some(best)
  {
    hide Fits;
    LongestCutIsLongest(hit, top, itemBudget);
  }

  // The halving search of the engine finds what the reference search finds.
  method SelectCut(hit: RecallHit, itemBudget: nat) returns (selected: Option<string>)
    ensures var top := if itemBudget == 0 then 1 else itemBudget;
            match LongestCut(hit, top, itemBudget)
            case None => selected == None
            case Some(best) => selected == Some(TruncateToTokens(hit.memory.body, best))
    ensures selected.None? <==> !Fits(hit, 1, itemBudget)
    ensures forall t | t >= 1 && Fits(hit, t, itemBudget) ::
              selected.Some? && |TruncateToTokens(hit.memory.body, t)| <= |selected.value|
  {
    hide TruncateToTokens, Fragment;
    var low, high := 1, if itemBudget == 0 then 1 else itemBudget;
    ghost var top := high;
    selected := None;
    while low <= high
      invariant 1 <= low <= high + 1 <= top + 1
      invariant selected.None? <==> low == 1
      invariant selected.Some? ==> Fits(hit, low - 1, itemBudget)
      invariant selected.Some? ==> selected.value == TruncateToTokens(hit.memory.body, low - 1)
      invariant high < top ==> !Fits(hit, high + 1, itemBudget)
    {
      var middle := low + (high - low) / 2;
      var body := TruncateToTokens(hit.memory.body, middle);
      if body != "" && EstimateTokens(Fragment(hit, body)) <= itemBudget {
        selected := Some(body);
        low := middle + 1;
      } else {
        high := middle - 1;
      }
    }
    NothingFitsAbove(hit, high, top, itemBudget);
    LongestCutIsLongest(hit, top, itemBudget);
    if low > 1 {
      LongestCutUnique(hit, top, itemBudget, low - 1);
      FitsMonotone(hit, 1, low - 1, itemBudget);
    }
    CutIsMaximal(hit, low - 1, top, itemBudget);
  }

  lemma NothingFitsAbove(hit: RecallHit, high: nat, top: nat, itemBudget: nat)
    requires high < top ==> !Fits(hit, high + 1, itemBudget)
    ensures forall t | high < t <= top :: !Fits(hit, t, itemBudget)
  {
    forall t | high < t <= top && Fits(hit, t, itemBudget) ensures false {
      FitsMonotone(hit, high + 1, t, itemBudget);
    }
  }

  lemma ZeroBudget(hit: RecallHit, t: nat)
    ensures !Fits(hit, t, 0)
  {
  }

  // A fragment adds at least two characters to its body.
  lemma FragmentRoom(hit: RecallHit, body: string)
    ensures |Fragment(hit, body)| >= |body| + 4
  {
    RenderBodyIsGlyphRun(body);
    GlyphRunLength(body);
  }

  // Token counts above the item budget give no longer fitting body, so the
  // search may stop there.
  lemma BeyondItemBudget(hit: RecallHit, t: nat, itemBudget: nat)
    requires 1 <= itemBudget <= t && Fits(hit, t, itemBudget)
    ensures TruncateToTokens(hit.memory.body, t) == TruncateToTokens(hit.memory.body, itemBudget)
    ensures Fits(hit, itemBudget, itemBudget)
  {
    hide TruncateToTokens, Fragment;
    var text := hit.memory.body;
    var body := TruncateToTokens(text, t);
    FragmentRoom(hit, body);
    TruncateIsKeptPrefix(text, t);
    TruncateIsKeptPrefix(text, itemBudget);
    if |text| > 3 * t {
      var m, n := SaturatingPred(3 * itemBudget), SaturatingPred(3 * t);
      LastStopGrows(text, m, n);
      var stop := LastStop(text[..n]).value;
      assert text[..m][..stop] == text[..stop] == text[..n][..stop];
      assert text[..n][..m] == text[..m];
      ByteLenPrefix(text[..n], m);
    }
  }

  // Whatever fits, at any token count, is no longer than the largest cut found.
  lemma CutIsMaximal(hit: RecallHit, best: nat, top: nat, itemBudget: nat)
    requires top == (if itemBudget == 0 then 1 else itemBudget) && best <= top
    requires best >= 1 ==> Fits(hit, best, itemBudget)
    requires forall t | best < t <= top :: !Fits(hit, t, itemBudget)
    ensures forall t | t >= 1 && Fits(hit, t, itemBudget) ::
              best >= 1 && |TruncateToTokens(hit.memory.body, t)| <= |TruncateToTokens(hit.memory.body, best)|
  {
    hide TruncateToTokens, Fits;
    forall t | t >= 1 && Fits(hit, t, itemBudget)
      ensures best >= 1 && |TruncateToTokens(hit.memory.body, t)| <= |TruncateToTokens(hit.memory.body, best)|
    {
      if t > top {
        ZeroBudget(hit, t);
        BeyondItemBudget(hit, t, itemBudget);
        assert best == top;
      } else {
        CutLengthGrows(hit.memory.body, t, best);
      }
    }
  }

  lemma CutLengthGrows(text: string, s: nat, t: nat)
    requires 1 <= s <= t
    ensures |TruncateToTokens(text, s)| <= |TruncateToTokens(text, t)|
  {
    TruncateIsKeptPrefix(text, s);
    TruncateIsKeptPrefix(text, t);
    if |text| > 3 * t { KeptMonotone(text, s, t); }
  }

  // --- the token budget -------------------------------------------------

  function ItemTokens(items: seq<ContextItem>): nat {
    if items == [] then 0 else ItemTokens(items[..|items| - 1]) + items[|items| - 1].estimatedTokens
  }

  function SectionTokens(grouped: map<nat, seq<ContextItem>>, upTo: nat): nat {
    if upTo == 0 then 0
    else SectionTokens(grouped, upTo - 1)
         + if upTo - 1 in grouped
           then EstimateTokens(SectionHeader(upTo - 1)) + ItemTokens(grouped[upTo - 1]) else 0
  }

  function AllWarningTokens(warnings: seq<string>): nat {
    if warnings == [] then 0 else EstimateTokens(WARNINGS_HEADER) + WarningTokens(warnings)
  }

  lemma {:induction false} WarningTokensAppend(a: seq<string>, b: seq<string>)
    ensures WarningTokens(a + b) == WarningTokens(a) + WarningTokens(b)
  {
    hide RenderWarning;
    if b == [] {
      assert a + b == a;
    } else {
      var front := b[..|b| - 1];
      assert (a + b)[..|a + b| - 1] == a + front;
      WarningTokensAppend(a, front);
    }
  }

  lemma {:induction false} SectionTokensAddItem(
    grouped: map<nat, seq<ContextItem>>, priority: nat, item: ContextItem, upTo: nat)
    ensures SectionTokens(AddItem(grouped, priority, item), upTo)
         == SectionTokens(grouped, upTo)
            + if priority >= upTo then 0
              else item.estimatedTokens + if priority in grouped then 0 else EstimateTokens(SectionHeader(priority))
  {
    hide SectionHeader, EstimateTokens;
    if upTo > 0 {
      SectionTokensAddItem(grouped, priority, item, upTo - 1);
      var after := AddItem(grouped, priority, item);
      var before := if priority in grouped then grouped[priority] else [];
      assert after[priority][..|before|] == before;
      assert ItemTokens(after[priority]) == ItemTokens(before) + item.estimatedTokens;
      assert upTo - 1 != priority && upTo - 1 in grouped ==> after[upTo - 1] == grouped[upTo - 1];
    }
  }

  // The structured view is a function of the accepted hits alone.
  function Group(accepted: seq<RecallHit>): map<nat, seq<ContextItem>> {
    if accepted == [] then map[]
    else
      var hit := accepted[|accepted| - 1];
      AddItem(Group(accepted[..|accepted| - 1]), SectionFor(hit.memory.kind), ItemFor(hit))
  }

  function WarningsOf(accepted: seq<RecallHit>): seq<string> {
    if accepted == [] then []
    else WarningsOf(accepted[..|accepted| - 1]) + HitWarnings(accepted[|accepted| - 1])
  }

  ghost predicate Balanced(draft: Draft, renderBudget: nat) {
    && draft.grouped == Group(draft.accepted)
    && draft.warnings == WarningsOf(draft.accepted)
    && draft.renderedTokens == SectionTokens(draft.grouped, SECTION_COUNT) + AllWarningTokens(draft.warnings)
    && draft.renderedTokens <= renderBudget
  }

  lemma AcceptBalances(draft: Draft, hit: RecallHit, body: string, renderBudget: nat)
    requires Balanced(draft, renderBudget)
    requires draft.renderedTokens + FixedTokens(draft, hit) + EstimateTokens(Fragment(hit, body)) <= renderBudget
    ensures Balanced(Accept(draft, hit, body), renderBudget)
  {
    hide Fragment, EstimateTokens, HitWarnings, SectionHeader, SectionTokens, AllWarningTokens, FixedTokens;
    assert Accept(draft, hit, body).accepted[..|draft.accepted|] == draft.accepted;
    SameHitDifferentBody(hit, body);
    AcceptCosts(draft, hit, body);
  }

  // An accepted hit costs its fixed tokens and its fragment.
  lemma AcceptCosts(draft: Draft, hit: RecallHit, body: string)
    ensures var after := Accept(draft, hit, body);
            SectionTokens(after.grouped, SECTION_COUNT) + AllWarningTokens(after.warnings)
            == SectionTokens(draft.grouped, SECTION_COUNT) + AllWarningTokens(draft.warnings)
               + FixedTokens(draft, hit) + EstimateTokens(Fragment(hit, body))
  {
    hide Fragment, EstimateTokens, HitWarnings, SectionHeader;
    var after := Accept(draft, hit, body);
    SameHitDifferentBody(hit, body);
    SectionTokensAddItem(draft.grouped, SectionFor(hit.memory.kind), ItemFor(WithBody(hit, body)), SECTION_COUNT);
    WarningTokensAppend(draft.warnings, HitWarnings(hit));
    if HitWarnings(hit) == [] { assert after.warnings == draft.warnings; }
    if draft.warnings == [] { assert after.warnings == HitWarnings(hit); }
  }

  lemma SameHitDifferentBody(hit: RecallHit, body: string)
    ensures HitWarnings(WithBody(hit, body)) == HitWarnings(hit)
    ensures Fragment(WithBody(hit, body), body) == Fragment(hit, body)
    ensures ItemFor(WithBody(hit, body)).estimatedTokens == EstimateTokens(Fragment(hit, body))
  {
  }

  function Strip(hits: seq<RecallHit>): seq<RecallHit> {
    seq(|hits|, i requires 0 <= i < |hits| => WithBody(hits[i], ""))
  }

  // What a step does with a hit.
  lemma StepOutcome(draft: Draft, hit: RecallHit, renderBudget: nat)
    ensures var after := Step(draft, hit, renderBudget);
            after == draft
            || exists t :: && t >= 1
                           && after == Accept(draft, hit, TruncateToTokens(hit.memory.body, t))
                           && after.renderedTokens <= renderBudget
  {
    hide TruncateToTokens, Fragment, FixedTokens, Accept;
    var budget := ItemBudget(draft, hit, renderBudget);
    if budget.Some? {
      var top := if budget.value == 0 then 1 else budget.value;
      LongestCutIsLongest(hit, top, budget.value);
      var best := LongestCut(hit, top, budget.value);
      if best.Some? { AcceptSpends(draft, hit, best.value, budget.value, renderBudget); }
    }
  }

  lemma AcceptSpends(draft: Draft, hit: RecallHit, t: nat, itemBudget: nat, renderBudget: nat)
    requires ItemBudget(draft, hit, renderBudget) == Some(itemBudget) && Fits(hit, t, itemBudget)
    ensures Accept(draft, hit, TruncateToTokens(hit.memory.body, t)).renderedTokens <= renderBudget
  {
    hide TruncateToTokens, Fragment, FixedTokens;
  }

  // Spending keeps the books: the accepted hits come from the input in order,
  // both views agree, and the tokens counted never exceed the budget.
  lemma {:induction false} SpendBalances(hits: seq<RecallHit>, renderBudget: nat)
    ensures Balanced(Spend(hits, renderBudget), renderBudget)
    ensures IsSubsequence(Strip(Spend(hits, renderBudget).accepted), Strip(hits))
  {
    hide TruncateToTokens, Fragment, FixedTokens, HitWarnings, SectionHeader, ItemFor, Step;
    if hits != [] {
      var n := |hits| - 1;
      var before := Spend(hits[..n], renderBudget);
      SpendBalances(hits[..n], renderBudget);
      StepOutcome(before, hits[n], renderBudget);
      assert Strip(hits)[..n] == Strip(hits[..n]);
      if Step(before, hits[n], renderBudget) != before {
        var t :| && t >= 1
                 && Step(before, hits[n], renderBudget)
                       == Accept(before, hits[n], TruncateToTokens(hits[n].memory.body, t))
                 && Step(before, hits[n], renderBudget).renderedTokens <= renderBudget;
        var body := TruncateToTokens(hits[n].memory.body, t);
        AcceptBalances(before, hits[n], body, renderBudget);
        var after := Strip(Accept(before, hits[n], body).accepted);
        assert after[..|after| - 1] == Strip(before.accepted);
        assert after[|after| - 1] == Strip(hits)[n];
      }
    }
  }

  ghost predicate Estimated(items: seq<ContextItem>) {
    forall i | 0 <= i < |items| ::
      items[i].estimatedTokens == EstimateTokens(RenderContextItem(
        items[i].title, items[i].body, items[i].memoryId, items[i].revision, items[i].applicability))
  }

  lemma {:induction false} RenderItemsCost(items: seq<ContextItem>)
    requires Estimated(items)
    ensures |RenderItems(items)| <= 3 * ItemTokens(items)
  {
    hide RenderContextItem;
    if items != [] { RenderItemsCost(items[..|items| - 1]); }
  }

  lemma {:induction false} RenderSectionsCost(grouped: map<nat, seq<ContextItem>>, upTo: nat)
    requires forall p | p in grouped :: Estimated(grouped[p])
    ensures |RenderSections(Sections(grouped, upTo))| <= 3 * SectionTokens(grouped, upTo)
  {
    hide RenderItems, SectionName;
    if upTo > 0 {
      RenderSectionsCost(grouped, upTo - 1);
      if upTo - 1 in grouped {
        RenderItemsCost(grouped[upTo - 1]);
        var front := Sections(grouped, upTo - 1);
        var section := ContextSection(SectionName(upTo - 1), grouped[upTo - 1]);
        assert (front + [section])[..|front|] == front;
        assert RenderSections(front + [section])
            == RenderSections(front) + SectionHeader(upTo - 1) + RenderItems(section.items);
      } else {
        assert Sections(grouped, upTo) == Sections(grouped, upTo - 1);
      }
    }
  }

  lemma {:induction false} RenderWarningsCost(warnings: seq<string>)
    ensures |RenderWarnings(warnings)| <= 3 * WarningTokens(warnings)
  {
    hide RenderWarning;
    if warnings != [] { RenderWarningsCost(warnings[..|warnings| - 1]); }
  }

  lemma {:induction false} GroupIsEstimated(accepted: seq<RecallHit>)
    ensures forall p | p in Group(accepted) ::
        p < SECTION_COUNT && Group(accepted)[p] != [] && Estimated(Group(accepted)[p])
  {
    hide RenderContextItem;
    if accepted != [] {
      GroupIsEstimated(accepted[..|accepted| - 1]);
    }
  }

  // The rendered pack, with its envelope, never exceeds the budget.
  lemma TokenBudget(tokenBudget: nat, hits: seq<RecallHit>)
    ensures var pack := Compile(tokenBudget, hits);
            && pack.estimatedTokens <= tokenBudget
            && IsSubsequence(Strip(pack.hits), Strip(hits))
            && pack.sections == Sections(Group(pack.hits), SECTION_COUNT)
            && pack.warnings == WarningsOf(pack.hits)
            && (pack.hits != [] ==> pack.rendered == RenderContext(pack.sections, pack.warnings))
            && (pack.hits == [] ==> pack.rendered == "" && pack.estimatedTokens == 0)
  {
    hide Spend, Group, RenderSections, RenderWarnings, WarningTokens, SectionTokens;
    var renderBudget := tokenBudget - Reserve(tokenBudget);
    var draft := Spend(hits, renderBudget);
    SpendBalances(hits, renderBudget);
    GroupIsEstimated(draft.accepted);
    RenderSectionsCost(draft.grouped, SECTION_COUNT);
    RenderWarningsCost(draft.warnings);
    NoHitsNoSections(draft.accepted);
    assert |RenderContext(Sections(draft.grouped, SECTION_COUNT), draft.warnings)| <= 3 * draft.renderedTokens;
  }

  lemma NoHitsNoSections(accepted: seq<RecallHit>)
    ensures accepted == [] ==> WarningsOf(accepted) == [] && Sections(Group(accepted), SECTION_COUNT) == []
    ensures accepted != [] ==> Sections(Group(accepted), SECTION_COUNT) != []
    ensures accepted != [] ==> SectionTokens(Group(accepted), SECTION_COUNT) >= 1
  {
    hide ItemFor;
    if accepted == [] {
      NoSections(SECTION_COUNT);
    } else {
      var hit := accepted[|accepted| - 1];
      SomeSection(Group(accepted), SectionFor(hit.memory.kind), SECTION_COUNT);
    }
  }

  lemma {:induction false} NoSections(upTo: nat)
    ensures Sections(map[], upTo) == []
  {
    if upTo > 0 { NoSections(upTo - 1); }
  }

  lemma {:induction false} SomeSection(grouped: map<nat, seq<ContextItem>>, priority: nat, upTo: nat)
    requires priority in grouped && priority < upTo
    ensures Sections(grouped, upTo) != [] && SectionTokens(grouped, upTo) >= 1
  {
    if priority < upTo - 1 { SomeSection(grouped, priority, upTo - 1); }
  }

  // --- bounded hydration ------------------------------------------------

  // Recall loads only this many characters of each selected body.
  function HydrationLimit(tokenBudget: nat): nat { 3 * tokenBudget + 1 }

  function Shorten(hit: RecallHit, limit: nat): RecallHit {
    WithBody(hit, BoundedText(hit.memory.body, limit))
  }

  function ShortenAll(hits: seq<RecallHit>, limit: nat): seq<RecallHit> {
    seq(|hits|, i requires 0 <= i < |hits| => Shorten(hits[i], limit))
  }

  lemma ShortFits(hit: RecallHit, limit: nat, t: nat, itemBudget: nat)
    requires limit > 3 * t
    ensures TruncateToTokens(Shorten(hit, limit).memory.body, t) == TruncateToTokens(hit.memory.body, t)
    ensures Fits(Shorten(hit, limit), t, itemBudget) == Fits(hit, t, itemBudget)
  {
    hide TruncateToTokens, EstimateTokens;
    TruncateIgnoresTail(hit.memory.body, limit, t);
  }

  lemma {:induction false} ShortLongestCut(hit: RecallHit, limit: nat, top: nat, itemBudget: nat)
    requires limit > 3 * top
    ensures LongestCut(Shorten(hit, limit), top, itemBudget) == LongestCut(hit, top, itemBudget)
  {
    hide Fits, Shorten;
    if top > 0 {
      ShortFits(hit, limit, top, itemBudget);
      ShortLongestCut(hit, limit, top - 1, itemBudget);
    }
  }

  // The stored body influences a step only through its cuts.
  lemma StoredBodyOnlyCuts(draft: Draft, hit: RecallHit, stored: string, body: string, renderBudget: nat)
    ensures ItemBudget(draft, WithBody(hit, stored), renderBudget) == ItemBudget(draft, hit, renderBudget)
    ensures Accept(draft, WithBody(hit, stored), body) == Accept(draft, hit, body)
  {
    hide EstimateTokens, RenderContextItem, SectionHeader, WarningTokens;
  }

  lemma ShortStep(draft: Draft, hit: RecallHit, limit: nat, renderBudget: nat)
    requires limit > 3 * renderBudget
    ensures Step(draft, Shorten(hit, limit), renderBudget) == Step(draft, hit, renderBudget)
  {
    hide TruncateToTokens, Fits, FixedTokens, Accept;
    var short := Shorten(hit, limit);
    StoredBodyOnlyCuts(draft, hit, short.memory.body, "", renderBudget);
    var budget := ItemBudget(draft, hit, renderBudget);
    if budget.Some? {
      var b := budget.value;
      var top := if b == 0 then 1 else b;
      if b == 0 {
        NoCutOfNothing(hit);
        NoCutOfNothing(short);
      } else {
        ShortLongestCut(hit, limit, top, b);
      }
      LongestCutIsLongest(hit, top, b);
      var best := LongestCut(hit, top, b);
      if best.Some? {
        ShortFits(hit, limit, best.value, b);
        StoredBodyOnlyCuts(draft, hit, short.memory.body, TruncateToTokens(hit.memory.body, best.value), renderBudget);
      }
    }
  }

  lemma NoCutOfNothing(hit: RecallHit)
    ensures LongestCut(hit, 1, 0) == None
  {
    hide Fits;
    ZeroBudget(hit, 1);
  }

  lemma {:induction false} ShortSpend(hits: seq<RecallHit>, limit: nat, renderBudget: nat)
    requires limit > 3 * renderBudget
    ensures Spend(ShortenAll(hits, limit), renderBudget) == Spend(hits, renderBudget)
  {
    hide Step;
    if hits != [] {
      var n := |hits| - 1;
      ShortSpend(hits[..n], limit, renderBudget);
      assert ShortenAll(hits, limit)[..n] == ShortenAll(hits[..n], limit);
      ShortStep(Spend(hits[..n], renderBudget), hits[n], limit, renderBudget);
    }
  }

  // Hydrating bounded bodies instead of full ones changes nothing in the context pack.
  lemma BoundedHydrationRefines(tokenBudget: nat, hits: seq<RecallHit>)
    ensures Compile(tokenBudget, ShortenAll(hits, HydrationLimit(tokenBudget))) == Compile(tokenBudget, hits)
  {
    hide Finish;
    ShortSpend(hits, HydrationLimit(tokenBudget), tokenBudget - Reserve(tokenBudget));
  }

  // --- the loop ---------------------------------------------------------

  // A hit is dropped exactly when its fixed costs do not fit or not even the
  // shortest cut of its body does.
  lemma SkippedOnlyWhenNothingFits(draft: Draft, hit: RecallHit, renderBudget: nat)
    ensures var budget := ItemBudget(draft, hit, renderBudget);
            Step(draft, hit, renderBudget) == draft
            <==> budget.None? || !Fits(hit, 1, budget.value)
  {
    hide TruncateToTokens, Fragment, Fits, FixedTokens;
    var budget := ItemBudget(draft, hit, renderBudget);
    if budget.Some? {
      var top := if budget.value == 0 then 1 else budget.value;
      LongestCutIsLongest(hit, top, budget.value);
      var best := LongestCut(hit, top, budget.value);
      if best.Some? {
        FitsMonotone(hit, 1, best.value, budget.value);
        assert |Step(draft, hit, renderBudget).accepted| == |draft.accepted| + 1;
      }
    }
  }

  method CompileContext(tokenBudget: nat, hits: seq<RecallHit>) returns (pack: ContextPack)
    ensures pack == Compile(tokenBudget, hits)
    ensures pack.estimatedTokens <= tokenBudget
  {
    hide TruncateToTokens, Fragment, Fits, HitWarnings, SectionHeader, EstimateTokens, ItemFor, LongestCut,
      WarningTokens, AddItem, SectionFor, Finish;
    var renderBudget := tokenBudget - Reserve(tokenBudget);
    var grouped: map<nat, seq<ContextItem>> := map[];
    var warnings: seq<string> := [];
    var accepted: seq<RecallHit> := [];
    var renderedTokens: nat := 0;
    var i := 0;
    while i < |hits|
      invariant i <= |hits|
      invariant Draft(grouped, warnings, accepted, renderedTokens) == Spend(hits[..i], renderBudget)
    {
      var hit := hits[i];
      assert hits[..i + 1][..i] == hits[..i];
      i := i + 1;
      var priority := SectionFor(hit.memory.kind);
      var sectionTokens := if priority in grouped then 0 else EstimateTokens(SectionHeader(priority));
      var hitWarnings := HitWarnings(hit);
      var warningHeaderTokens :=
        if hitWarnings != [] && warnings == [] then EstimateTokens(WARNINGS_HEADER) else 0;
      var fixedTokens := sectionTokens + warningHeaderTokens + WarningTokens(hitWarnings);
      if renderedTokens > renderBudget || fixedTokens > renderBudget - renderedTokens { continue; }
      var itemBudget := renderBudget - renderedTokens - fixedTokens;
      var selected := SelectCut(hit, itemBudget);
      if selected.None? { continue; }
      var body := selected.value;
      var cut := WithBody(hit, body);
      SameHitDifferentBody(hit, body);
      renderedTokens := renderedTokens + fixedTokens + EstimateTokens(Fragment(hit, body));
      warnings := warnings + hitWarnings;
      grouped := AddItem(grouped, priority, ItemFor(cut));
      accepted := accepted + [cut];
    }
    assert hits[..i] == hits;
    pack := Finish(Draft(grouped, warnings, accepted, renderedTokens), tokenBudget);
    TokenBudget(tokenBudget, hits);
  }
}
