// What a compiled context pack shows of the hits it accepted: every one of them,
// under its section, with its warnings, and as text that reads back.
module PackContents {
  import opened Basics
  import opened Domain
  import opened Strings
  import opened Text
  import opened Markup
  import opened ContextCompiler

  // --- which hits are accepted ------------------------------------------

  // The text itself, or a beginning of it that ends in an ellipsis.
  predicate CutOf(body: string, text: string) {
    || body == text
    || (body != "" && |body| <= |text| && body[|body| - 1] == '\U{2026}' && body[..|body| - 1] <= text)
  }

  lemma TruncationIsCut(text: string, tokens: nat)
    requires tokens >= 1
    ensures CutOf(TruncateToTokens(text, tokens), text)
    ensures |TruncateToTokens(text, tokens)| <= 3 * tokens
  {
    TruncateIsKeptPrefix(text, tokens);
  }

  // The k-th accepted hit is the given hit at `at[k]`, its body cut.
  ghost predicate AcceptedFrom(accepted: seq<RecallHit>, hits: seq<RecallHit>, at: seq<nat>) {
    && |at| == |accepted|
    && (forall k, l | 0 <= k < l < |at| :: at[k] < at[l])
    && (forall k | 0 <= k < |at| ::
          && at[k] < |hits| && CutOf(accepted[k].memory.body, hits[at[k]].memory.body)
          && accepted[k] == hits[at[k]].(memory := hits[at[k]].memory.(body := accepted[k].memory.body)))
  }

  lemma {:induction false} SpendAccepts(hits: seq<RecallHit>, renderBudget: nat) returns (at: seq<nat>)
    ensures AcceptedFrom(Spend(hits, renderBudget).accepted, hits, at)
  {
    hide TruncateToTokens, Fragment, FixedTokens, HitWarnings, SectionHeader, ItemFor, Step, CutOf;
    if hits == [] {
      at := [];
    } else {
      var n := |hits| - 1;
      var before := Spend(hits[..n], renderBudget);
      at := SpendAccepts(hits[..n], renderBudget);
      StepOutcome(before, hits[n], renderBudget);
      if Step(before, hits[n], renderBudget) != before {
        var t :| && t >= 1
                 && Step(before, hits[n], renderBudget)
                    == Accept(before, hits[n], TruncateToTokens(hits[n].memory.body, t))
                 && Step(before, hits[n], renderBudget).renderedTokens <= renderBudget;
        TruncationIsCut(hits[n].memory.body, t);
        at := at + [n];
      }
    }
  }

  // --- sections ---------------------------------------------------------

  const SECTION_NAMES: seq<string> := [
    "constraints_and_preferences", "decisions", "attempts_and_outcomes", "procedures", "open_tasks",
    "relevant_history"]

  function SectionOf(kind: MemoryKind): string {
    match kind
    case Preference => "constraints_and_preferences"
    case Constraint => "constraints_and_preferences"
    case Decision => "decisions"
    case Outcome => "attempts_and_outcomes"
    case Procedure => "procedures"
    case Task => "open_tasks"
    case Observation => "relevant_history"
    case Episode => "relevant_history"
    case Fact => "relevant_history"
  }

  // The hits of one section, in order of acceptance.
  function HitsUnder(hits: seq<RecallHit>, name: string): seq<RecallHit> {
    if hits == [] then []
    else
      var last := hits[|hits| - 1];
      HitsUnder(hits[..|hits| - 1], name) + if SectionOf(last.memory.kind) == name then [last] else []
  }

  predicate Presents(item: ContextItem, hit: RecallHit) {
    && item.memoryId == hit.memory.memoryId && item.revision == hit.memory.revision
    && item.title == hit.memory.title && item.body == hit.memory.body
    && item.estimatedTokens == EstimateTokens(
         RenderContextItem(item.title, item.body, item.memoryId, item.revision, item.applicability))
    && item.score == hit.score && item.applicability == hit.applicability && item.reasons == hit.reasons
    && |item.citations| == |hit.memory.evidence|
    && forall i | 0 <= i < |item.citations| :: item.citations[i] == hit.memory.evidence[i].event
  }

  predicate PresentsAll(items: seq<ContextItem>, hits: seq<RecallHit>) {
    |items| == |hits| && forall i | 0 <= i < |items| :: Presents(items[i], hits[i])
  }

  lemma KindsFall(kind: MemoryKind)
    ensures SECTION_NAMES[SectionFor(kind)] == SectionOf(kind)
  {
  }

  lemma NamesDiffer(p: nat, q: nat)
    requires p < SECTION_COUNT && q < SECTION_COUNT
    ensures SECTION_NAMES[p] == SECTION_NAMES[q] <==> p == q
    ensures SectionName(p) == SECTION_NAMES[p]
  {
  }

  lemma ItemPresents(hit: RecallHit)
    ensures Presents(ItemFor(hit), hit)
  {
    hide EstimateTokens, RenderTitle, RenderBody, Decimal;
  }

  lemma {:induction false} GroupIsHits(accepted: seq<RecallHit>, p: nat)
    requires p < SECTION_COUNT
    ensures var under := HitsUnder(accepted, SECTION_NAMES[p]);
            && (p in Group(accepted) <==> under != [])
            && (p in Group(accepted) ==> PresentsAll(Group(accepted)[p], under))
  {
    hide SectionOf, SectionFor, SECTION_NAMES, Presents, ItemFor;
    if accepted != [] {
      ItemPresents(accepted[|accepted| - 1]);
      var n := |accepted| - 1;
      GroupIsHits(accepted[..n], p);
      KindsFall(accepted[n].memory.kind);
      NamesDiffer(p, SectionFor(accepted[n].memory.kind));
    }
  }

  // The sections shown are those that hold hits, in this order, each once.
  ghost predicate Shown(sections: seq<ContextSection>, hits: seq<RecallHit>, upTo: nat, order: seq<nat>)
    requires upTo <= |SECTION_NAMES|
  {
    && |order| == |sections|
    && (forall k, l | 0 <= k < l < |order| :: order[k] < order[l])
    && (forall k | 0 <= k < |order| ::
          && order[k] < upTo && sections[k].name == SECTION_NAMES[order[k]] && sections[k].items != []
          && PresentsAll(sections[k].items, HitsUnder(hits, sections[k].name)))
    && (forall p | 0 <= p < upTo && HitsUnder(hits, SECTION_NAMES[p]) != [] :: p in order)
  }

  lemma {:induction false} SectionsShown(accepted: seq<RecallHit>, upTo: nat) returns (order: seq<nat>)
    requires upTo <= SECTION_COUNT
    ensures Shown(Sections(Group(accepted), upTo), accepted, upTo, order)
  {
    hide SECTION_NAMES, SectionName, HitsUnder, PresentsAll, Group;
    assert |SECTION_NAMES| == 6 by { SixNames(); }
    if upTo == 0 {
      order := [];
    } else {
      order := SectionsShown(accepted, upTo - 1);
      GroupIsHits(accepted, upTo - 1);
      NamesDiffer(upTo - 1, upTo - 1);
      if upTo - 1 in Group(accepted) {
        PresentedIsSome(Group(accepted)[upTo - 1], HitsUnder(accepted, SECTION_NAMES[upTo - 1]));
        order := order + [upTo - 1];
        assert order[|order| - 1] == upTo - 1;
      }
    }
  }

  lemma SixNames()
    ensures |SECTION_NAMES| == 6
  {
  }

  lemma PresentedIsSome(items: seq<ContextItem>, hits: seq<RecallHit>)
    requires PresentsAll(items, hits) && hits != []
    ensures items != []
  {
  }

  // Accepted hits are given hits in their order, whole but for a cut body; each
  // is shown once, under the section of its kind, in order of acceptance.
  lemma PackShowsHits(tokenBudget: nat, hits: seq<RecallHit>) returns (at: seq<nat>, order: seq<nat>)
    ensures AcceptedFrom(Compile(tokenBudget, hits).hits, hits, at)
    ensures |SECTION_NAMES| == 6
    ensures Shown(Compile(tokenBudget, hits).sections, Compile(tokenBudget, hits).hits, 6, order)
  {
    hide Spend, Group, Sections, Shown, AcceptedFrom, RenderContext, WarningsOf, SECTION_NAMES;
    SixNames();
    TokenBudget(tokenBudget, hits);
    at := SpendAccepts(hits, tokenBudget - Reserve(tokenBudget));
    order := SectionsShown(Compile(tokenBudget, hits).hits, 6);
  }

  // What a pack reports is one token for every three characters of its text, next
  // to at most 37 for the envelope, and both are within the budget.
  lemma PackFits(tokenBudget: nat, hits: seq<RecallHit>)
    ensures var pack, envelope := Compile(tokenBudget, hits), if tokenBudget < 37 then tokenBudget else 37;
            && pack.tokenBudget == tokenBudget && pack.estimatedTokens <= tokenBudget
            && (pack.hits == [] ==> pack.estimatedTokens == 0 && pack.rendered == "")
            && (pack.hits != [] ==>
                  && 3 * (pack.estimatedTokens - envelope) >= |pack.rendered| > 0
                  && 3 * (pack.estimatedTokens - envelope) < |pack.rendered| + 3)
  {
    hide Spend, Group, Sections, RenderContext, WarningsOf;
    TokenBudget(tokenBudget, hits);
    SomethingRendered(tokenBudget, hits);
  }

  lemma SomethingRendered(tokenBudget: nat, hits: seq<RecallHit>)
    ensures var pack := Compile(tokenBudget, hits);
            pack.hits != [] ==>
              pack.rendered != "" && pack.estimatedTokens == EstimateTokens(pack.rendered) + Reserve(tokenBudget)
  {
    hide Spend, Group, Sections, WarningsOf, RenderItems, RenderWarnings, EstimateTokens;
    TokenBudget(tokenBudget, hits);
    NoHitsNoSections(Compile(tokenBudget, hits).hits);
  }

  // --- warnings ---------------------------------------------------------

  predicate WarnsThat(warning: string, id: MemoryId, what: string) {
    Contains(warning, "Memory " + Decimal(id) + " is " + what)
  }

  predicate Doubtful(hit: RecallHit) {
    hit.applicability == Stale || hit.applicability == Divergent || hit.memory.state == Contested
  }

  ghost predicate Warned(warnings: seq<string>, hit: RecallHit) {
    && (hit.applicability == Stale ==> exists w :: w in warnings && WarnsThat(w, hit.memory.memoryId, "stale"))
    && (hit.applicability == Divergent ==> exists w :: w in warnings && WarnsThat(w, hit.memory.memoryId, "divergent"))
    && (hit.memory.state == Contested ==> exists w :: w in warnings && WarnsThat(w, hit.memory.memoryId, "contested"))
  }

  lemma VersionWarning(hit: RecallHit)
    requires hit.applicability == Stale || hit.applicability == Divergent
    ensures |VersionWarnings(hit)| == 1
    ensures WarnsThat(VersionWarnings(hit)[0], hit.memory.memoryId,
                      if hit.applicability == Stale then "stale" else "divergent")
    ensures WarnsThat(VersionWarnings(hit)[0], hit.memory.memoryId, "")
  {
    hide Contains, Decimal, WarnsThat;
    var rest := "; verify it against the current repository before acting.";
    MentionsWarning(hit.memory.memoryId, if hit.applicability == Stale then "stale" else "divergent", rest);
  }

  lemma ContestWarning(hit: RecallHit)
    requires hit.memory.state == Contested
    ensures |ContestWarnings(hit)| == 1
    ensures WarnsThat(ContestWarnings(hit)[0], hit.memory.memoryId, "contested")
    ensures WarnsThat(ContestWarnings(hit)[0], hit.memory.memoryId, "")
  {
    hide Contains, Decimal, WarnsThat;
    var named := "Memory " + Decimal(hit.memory.memoryId) + " is ";
    MentionsWarning(hit.memory.memoryId, "contested", " by other evidence.");
    assert " is contested by other evidence." == " is " + "contested" + " by other evidence.";
    assert ContestWarnings(hit)[0] == named + "contested" + " by other evidence.";
  }

  lemma HitIsWarned(hit: RecallHit)
    ensures Warned(HitWarnings(hit), hit)
    ensures forall w | w in HitWarnings(hit) :: Doubtful(hit) && WarnsThat(w, hit.memory.memoryId, "")
  {
    hide VersionWarnings, ContestWarnings, WarnsThat;
    var versions, contests := VersionWarnings(hit), ContestWarnings(hit);
    if hit.applicability == Stale || hit.applicability == Divergent {
      VersionWarning(hit);
      assert versions[0] in HitWarnings(hit);
    } else {
      assert versions == [] by { NoVersionWarning(hit); }
    }
    if hit.memory.state == Contested {
      ContestWarning(hit);
      assert contests[0] in HitWarnings(hit);
    } else {
      assert contests == [] by { NoContestWarning(hit); }
    }
  }

  lemma NoVersionWarning(hit: RecallHit)
    requires hit.applicability != Stale && hit.applicability != Divergent
    ensures VersionWarnings(hit) == []
  {
  }

  lemma NoContestWarning(hit: RecallHit)
    requires hit.memory.state != Contested
    ensures ContestWarnings(hit) == []
  {
  }

  lemma MentionsWarning(id: MemoryId, what: string, tail: string)
    ensures WarnsThat("Memory " + Decimal(id) + " is " + what + tail, id, what)
    ensures WarnsThat("Memory " + Decimal(id) + " is " + what + tail, id, "")
  {
    hide Contains, Decimal;
    var named := "Memory " + Decimal(id) + " is ";
    ContainsMiddle("", named + what, tail);
    ContainsMiddle("", named + "", what + tail);
    assert "" + (named + what) + tail == named + what + tail == "" + (named + "") + (what + tail);
  }

  lemma {:induction false} AllWarned(accepted: seq<RecallHit>)
    ensures forall k | 0 <= k < |accepted| :: Warned(WarningsOf(accepted), accepted[k])
    ensures forall w | w in WarningsOf(accepted) ::
              exists k :: 0 <= k < |accepted| && Doubtful(accepted[k]) && WarnsThat(w, accepted[k].memory.memoryId, "")
  {
    hide HitWarnings, WarnsThat, Doubtful;
    if accepted != [] {
      var n := |accepted| - 1;
      var front := accepted[..n];
      AllWarned(front);
      HitIsWarned(accepted[n]);
      forall k | 0 <= k < |accepted| ensures Warned(WarningsOf(accepted), accepted[k]) {
        if k < n { assert Warned(WarningsOf(front), front[k]); }
      }
      forall w | w in WarningsOf(accepted)
        ensures exists k :: && 0 <= k < |accepted| && Doubtful(accepted[k])
                            && WarnsThat(w, accepted[k].memory.memoryId, "")
      {
        if w in WarningsOf(front) {
          var k :| 0 <= k < |front| && Doubtful(front[k]) && WarnsThat(w, front[k].memory.memoryId, "");
          assert accepted[k] == front[k];
        } else {
          assert w in HitWarnings(accepted[n]);
        }
      }
    }
  }

  // Every stale, divergent or contested hit of a pack is warned about by name,
  // and nothing else is.
  lemma PackWarns(tokenBudget: nat, hits: seq<RecallHit>)
    ensures var pack := Compile(tokenBudget, hits);
            && (forall k | 0 <= k < |pack.hits| :: Warned(pack.warnings, pack.hits[k]))
            && (forall w | w in pack.warnings ::
                  exists k :: 0 <= k < |pack.hits| && Doubtful(pack.hits[k])
                              && WarnsThat(w, pack.hits[k].memory.memoryId, ""))
  {
    hide Compile, WarningsOf, WarnsThat, Doubtful, Warned;
    TokenBudget(tokenBudget, hits);
    AllWarned(Compile(tokenBudget, hits).hits);
  }

  // --- the rendered text ------------------------------------------------

  function PlainItem(item: ContextItem): string {
    "- " + OneLine(item.title) + ": " + Indented(item.body) + " [memory:" + Decimal(item.memoryId) + " rev:"
    + Decimal(item.revision) + "; " + item.applicability.Label() + "]\n"
  }

  function PlainItems(items: seq<ContextItem>): string {
    if items == [] then "" else PlainItems(items[..|items| - 1]) + PlainItem(items[|items| - 1])
  }

  function PlainSections(sections: seq<ContextSection>): string {
    if sections == [] then ""
    else
      var section := sections[|sections| - 1];
      PlainSections(sections[..|sections| - 1]) + "\n[" + section.name + "]\n" + PlainItems(section.items)
  }

  function PlainWarnings(warnings: seq<string>): string {
    if warnings == [] then "" else PlainWarnings(warnings[..|warnings| - 1]) + "- " + warnings[|warnings| - 1] + "\n"
  }

  // Text without markup that reads back as another text.
  predicate ReadsAs(shown: string, plain: string) { NoMarkup(shown) && Unescape(shown) == plain }

  lemma ReadsAppend(a: string, x: string, b: string, y: string)
    requires ReadsAs(a, x) && ReadsAs(b, y)
    ensures ReadsAs(a + b, x + y)
  {
    hide NoMarkup, Unescape;
    NoMarkupAppend(a, b);
    UnescapeAppend(a, b);
  }

  lemma PlainReads(text: string)
    requires '&' !in text && '<' !in text && '>' !in text
    ensures ReadsAs(text, text)
  {
    PlainHasNoMarkup(text);
    PlainReadsBack(text);
  }

  lemma {:induction false} DecimalPlain(n: nat)
    ensures forall i | 0 <= i < |Decimal(n)| :: '0' <= Decimal(n)[i] <= '9'
  {
    if n >= 10 { DecimalPlain(n / 10); }
  }

  lemma LabelPlain(applicability: Applicability)
    ensures '&' !in applicability.Label() && '<' !in applicability.Label() && '>' !in applicability.Label()
  {
  }

  lemma ItemReads(item: ContextItem)
    ensures ReadsAs(RenderContextItem(item.title, item.body, item.memoryId, item.revision, item.applicability),
                    PlainItem(item))
  {
    hide NoMarkup, Unescape, ReadsAs, RenderTitle, RenderBody, OneLine, Indented, Decimal;
    var tail := " [memory:" + Decimal(item.memoryId) + " rev:" + Decimal(item.revision) + "; "
                + item.applicability.Label() + "]\n";
    TailReads(item.memoryId, item.revision, item.applicability);
    TitleReads(item.title);
    BodyReads(item.body);
    PlainReads("- ");
    PlainReads(": ");
    ReadsAppend("- ", "- ", RenderTitle(item.title), OneLine(item.title));
    ReadsAppend("- " + RenderTitle(item.title), "- " + OneLine(item.title), ": ", ": ");
    var head, plain := "- " + RenderTitle(item.title) + ": ", "- " + OneLine(item.title) + ": ";
    ReadsAppend(head, plain, RenderBody(item.body), Indented(item.body));
    ReadsAppend(head + RenderBody(item.body), plain + Indented(item.body), tail, tail);
    assert PlainItem(item) == plain + Indented(item.body) + tail;
    assert RenderContextItem(item.title, item.body, item.memoryId, item.revision, item.applicability)
        == head + RenderBody(item.body) + tail;
  }

  lemma TitleReads(title: string)
    ensures ReadsAs(RenderTitle(title), OneLine(title))
  {
    TitleReadsBack(title);
  }

  lemma BodyReads(body: string)
    ensures ReadsAs(RenderBody(body), Indented(body))
  {
    BodyReadsBack(body);
  }

  lemma TailReads(id: MemoryId, revision: nat, applicability: Applicability)
    ensures var tail := " [memory:" + Decimal(id) + " rev:" + Decimal(revision) + "; " + applicability.Label() + "]\n";
            ReadsAs(tail, tail)
  {
    hide NoMarkup, Unescape, ReadsAs, Decimal;
    DecimalPlain(id);
    DecimalPlain(revision);
    LabelPlain(applicability);
    PlainReads(" [memory:" + Decimal(id) + " rev:" + Decimal(revision) + "; " + applicability.Label() + "]\n");
  }

  lemma {:induction false} ItemsRead(items: seq<ContextItem>)
    ensures ReadsAs(RenderItems(items), PlainItems(items))
  {
    hide NoMarkup, Unescape, ReadsAs, RenderContextItem, PlainItem;
    if items == [] {
      PlainReads("");
    } else {
      var n := |items| - 1;
      ItemsRead(items[..n]);
      ItemReads(items[n]);
      ReadsAppend(RenderItems(items[..n]), PlainItems(items[..n]),
                  RenderContextItem(items[n].title, items[n].body, items[n].memoryId, items[n].revision,
                                    items[n].applicability),
                  PlainItem(items[n]));
    }
  }

  predicate PlainNames(sections: seq<ContextSection>) {
    forall k | 0 <= k < |sections| :: '&' !in sections[k].name && '<' !in sections[k].name && '>' !in sections[k].name
  }

  lemma {:induction false} SectionsRead(sections: seq<ContextSection>)
    requires PlainNames(sections)
    ensures ReadsAs(RenderSections(sections), PlainSections(sections))
  {
    hide NoMarkup, Unescape, ReadsAs, RenderItems, PlainItems;
    if sections == [] {
      PlainReads("");
    } else {
      var n := |sections| - 1;
      var section := sections[n];
      SectionsRead(sections[..n]);
      ItemsRead(section.items);
      var header := "\n[" + section.name + "]\n";
      PlainReads(header);
      ReadsAppend(RenderSections(sections[..n]), PlainSections(sections[..n]), header, header);
      ReadsAppend(RenderSections(sections[..n]) + header, PlainSections(sections[..n]) + header,
                  RenderItems(section.items), PlainItems(section.items));
      assert PlainSections(sections[..n]) + header == PlainSections(sections[..n]) + "\n[" + section.name + "]\n";
    }
  }

  lemma {:induction false} WarningsRead(warnings: seq<string>)
    ensures ReadsAs(RenderWarnings(warnings), PlainWarnings(warnings))
  {
    hide NoMarkup, Unescape, ReadsAs, EscapeRenderedData;
    if warnings == [] {
      PlainReads("");
    } else {
      var n := |warnings| - 1;
      WarningsRead(warnings[..n]);
      WarningReads(warnings[n]);
      var shown := "- " + EscapeRenderedData(warnings[n]) + "\n";
      ReadsAppend(RenderWarnings(warnings[..n]), PlainWarnings(warnings[..n]), shown, "- " + warnings[n] + "\n");
      assert PlainWarnings(warnings) == PlainWarnings(warnings[..n]) + ("- " + warnings[n] + "\n");
    }
  }

  lemma WarningReads(warning: string)
    ensures ReadsAs("- " + EscapeRenderedData(warning) + "\n", "- " + warning + "\n")
  {
    hide NoMarkup, Unescape, EscapeRenderedData;
    EscapedReadsBack(warning);
    PlainReads("- ");
    PlainReads("\n");
    ReadsAppend("- ", "- ", EscapeRenderedData(warning), warning);
    ReadsAppend("- " + EscapeRenderedData(warning), "- " + warning, "\n", "\n");
  }

  predicate IsPlain(text: string) { forall i | 0 <= i < |text| :: text[i] == '_' || 'a' <= text[i] <= 'z' }

  lemma PlainHasNone(text: string)
    requires IsPlain(text)
    ensures '&' !in text && '<' !in text && '>' !in text
  {
  }

  lemma FirstNamesPlain()
    ensures IsPlain("constraints_and_preferences") && IsPlain("decisions") && IsPlain("procedures")
  {
  }

  lemma LastNamesPlain()
    ensures IsPlain("attempts_and_outcomes") && IsPlain("open_tasks") && IsPlain("relevant_history")
  {
  }

  lemma NamesArePlain()
    ensures forall p | 0 <= p < |SECTION_NAMES| ::
              '&' !in SECTION_NAMES[p] && '<' !in SECTION_NAMES[p] && '>' !in SECTION_NAMES[p]
  {
    hide IsPlain;
    FirstNamesPlain();
    LastNamesPlain();
    forall p | 0 <= p < |SECTION_NAMES|
      ensures '&' !in SECTION_NAMES[p] && '<' !in SECTION_NAMES[p] && '>' !in SECTION_NAMES[p]
    {
      PlainHasNone(SECTION_NAMES[p]);
    }
  }

  lemma ContextReads(sections: seq<ContextSection>, warnings: seq<string>)
    requires PlainNames(sections)
    ensures ReadsAs(RenderContext(sections, warnings),
                    PlainSections(sections) + if warnings == [] then "" else "\n[warnings]\n" + PlainWarnings(warnings))
  {
    hide ReadsAs, RenderSections, RenderWarnings, PlainSections, PlainWarnings, PlainNames;
    SectionsRead(sections);
    if warnings == [] {
      assert RenderContext(sections, warnings) == RenderSections(sections);
      assert PlainSections(sections) + "" == PlainSections(sections);
    } else {
      WarningsRead(warnings);
      PlainReads("\n[warnings]\n");
      ReadsAppend("\n[warnings]\n", "\n[warnings]\n", RenderWarnings(warnings), PlainWarnings(warnings));
      ReadsAppend(RenderSections(sections), PlainSections(sections),
                  "\n[warnings]\n" + RenderWarnings(warnings), "\n[warnings]\n" + PlainWarnings(warnings));
    }
  }

  lemma SectionNamesPlain(sections: seq<ContextSection>, hits: seq<RecallHit>, order: seq<nat>)
    requires |SECTION_NAMES| == 6 && Shown(sections, hits, 6, order)
    ensures PlainNames(sections)
  {
    hide SECTION_NAMES, PresentsAll, HitsUnder;
    NamesArePlain();
  }

  // A pack holds no markup of stored text, and reads back as its sections, items
  // and warnings.
  lemma PackReadsBack(tokenBudget: nat, hits: seq<RecallHit>)
    ensures var pack := Compile(tokenBudget, hits);
            && NoMarkup(pack.rendered)
            && Unescape(pack.rendered)
               == PlainSections(pack.sections)
                  + if pack.warnings == [] then "" else "\n[warnings]\n" + PlainWarnings(pack.warnings)
  {
    hide NoMarkup, Unescape, Compile, RenderContext, PlainSections, PlainWarnings, SECTION_NAMES, Sections, Group,
      WarningsOf, Shown, AcceptedFrom, PlainNames;
    var pack := Compile(tokenBudget, hits);
    TokenBudget(tokenBudget, hits);
    if pack.hits == [] {
      NothingShown(pack.hits);
      PlainReads("");
    } else {
      var at, order := PackShowsHits(tokenBudget, hits);
      SectionNamesPlain(pack.sections, pack.hits, order);
      ContextReads(pack.sections, pack.warnings);
    }
  }

  lemma NothingShown(accepted: seq<RecallHit>)
    requires accepted == []
    ensures Sections(Group(accepted), SECTION_COUNT) == [] && WarningsOf(accepted) == []
    ensures PlainSections([]) == ""
  {
    NoHitsNoSections(accepted);
  }
}
