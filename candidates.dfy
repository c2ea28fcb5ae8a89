/**
 * Candidate selection of the extractor (`_extract_hierarchical_headings`
 * up to the hierarchy pass): multi-line headings are stitched together,
 * obvious non-headings are dropped (`_should_skip_span` and the table of
 * contents filters), spans are grouped by left margin and each span the
 * content rules of `_is_likely_heading` accept becomes a candidate.
 */
module Candidates {
  import opened Options
  import opened Text
  import opened Sorting
  import opened Grouping
  import opened Records
  import opened FormFields
  import opened Patterns
  import opened Lists

  // ----- _should_skip_span and the candidate filter -----

  const TargetHeadings: seq<string> := ["revision history", "table of contents", "acknowledgements", "references", "pathway options"]
  const ProtectedHeadings: seq<string> := ["guidance and advice", "milestones", "phase iii"]
  const RunningHeaders: seq<string> := [
    "overview", "software testing", "qualifications board",
    "foundation level extension", "copyright", "\U{00A9}", "international",
    "version 1.0", "agile tester"]

  /** `_should_skip_span` */
  predicate ShouldSkipSpan(text: string) {
    var tl := Lower(text);
    if ContainsAny(tl, TargetHeadings) then false
    else if ContainsAny(tl, ProtectedHeadings) then false
    else if ContainsAny(tl, RunningHeaders) && |Words(text)| <= 6 then true
    else
      CountChar(text, '.') > 20 || TocDotLeader(text) || TocPageSuffix(text)
      || |text| > 100 || IsFormField(text)
  }

  const ProblematicTimelines: seq<string> := [
    "Timeline: March 2003 \U{2013} September 2003",
    "Timeline: April 2004 \U{2013} December 2006",
    "Timeline: January 2007 -",
    "Phase I: Operating and Growing the ODL"]

  /** The filter loop of `_extract_hierarchical_headings`, on the stripped text. */
  predicate IsPotentialHeading(text: string) {
    text != "" && !ShouldSkipSpan(text) && CountChar(text, '.') <= 20
    && !TocDotLeader(text) && !TocPageSuffix(text)
    && !InList(Strip(text), ProblematicTimelines) && |text| <= 150
  }

  /** Headings a document names as structure are never skipped as running headers or form labels. */
  lemma TargetHeadingsNotSkipped(text: string, k: nat)
    requires k < |TargetHeadings| && Contains(Lower(text), TargetHeadings[k])
    ensures !ShouldSkipSpan(text)
  {
  }

  /** Table-of-contents rows ("Revision History . 3", "Introduction. 8") never become candidates. */
  lemma TocRowsDropped(text: string)
    requires TocDotLeader(text) || TocPageSuffix(text) || CountChar(text, '.') > 20
    ensures !IsPotentialHeading(text)
  {
  }

  // ----- Multi-line stitching -----

  /** The absent-key sort key `(page, y0, x0)`. */
  function PagePositionKey(s: Span): seq<real> { [s.page as real, AbsentY0(s), AbsentX0(s)] }

  /** Within `d` points vertically (`abs(y0 - y0') < d` on absent keys, always true). */
  predicate Near(a: Span, b: Span, d: real) {
    AbsentY0(b) - AbsentY0(a) < d && AbsentY0(a) - AbsentY0(b) < d
  }

  /** An RFP line "... critical component ... implementing ..." continued by "... Prosperity Strategy". */
  predicate ContinuesProsperity(a: Span, next: Span, docType: string) {
    var tl := Lower(Strip(a.text));
    docType == "rfp" && Contains(tl, "critical component") && Contains(tl, "implementing")
    && Contains(Lower(Strip(next.text)), "prosperity strategy") && next.page == a.page && Near(a, next, 30.0)
  }

  /** A "3. Overview ..." line (original text `text`) continued by a line reading "Syllabus". */
  predicate ContinuesSyllabus(text: string, a: Span, next: Span) {
    SectionThreePrefix(text) && Contains(Lower(text), "overview")
    && Lower(Strip(next.text)) == "syllabus" && next.page == a.page && Near(a, next, 25.0)
  }

  function Max(x: real, y: real): real { if x >= y then x else y }

  /**
   * The RFP join at the head of `s`: the span absorbs the "Prosperity
   * Strategy" line after it. The result is the span and the index of the
   * first span not consumed.
   */
  function ProsperityJoin(s: seq<Span>, docType: string): (r: (Span, nat))
    requires |s| > 0
    ensures 1 <= r.1 <= 2 && r.1 <= |s|
  {
    var a := s[0];
    if |s| > 1 && ContinuesProsperity(a, s[1], docType) then
      (a.(text := Strip(a.text) + " " + Strip(s[1].text) + " ", fontSize := Max(a.fontSize, s[1].fontSize)), 2)
    else (a, 1)
  }

  /**
   * The syllabus join, tested on the text `text` the span had before the RFP
   * join: the span `a` absorbs a "Syllabus" line at index `n` of `s`.
   */
  function SyllabusJoin(text: string, a: Span, s: seq<Span>, n: nat): (r: (Span, nat))
    requires n <= |s|
    ensures n <= r.1 <= n + 1 && r.1 <= |s|
  {
    if n < |s| && ContinuesSyllabus(text, a, s[n]) then (a.(text := text + Strip(s[n].text)), n + 1)
    else (a, n)
  }

  /**
   * One step of the stitching loop at the head of `s`: the updated span and
   * the number of spans it consumed (itself and the lines it absorbed).
   */
  function StitchStep(s: seq<Span>, docType: string): (r: (Span, nat))
    requires |s| > 0
    ensures 1 <= r.1 <= |s|
  {
    var p := ProsperityJoin(s, docType);
    SyllabusJoin(Strip(s[0].text), p.0, s, p.1)
  }

  /** The spans after stitching, from `s` on. */
  function StitchFrom(s: seq<Span>, docType: string): (r: seq<Span>)
    ensures |r| <= |s|
    decreases |s|
  {
    if |s| == 0 then []
    else
      var step := StitchStep(s, docType);
      [step.0] + StitchFrom(s[step.1..], docType)
  }

  /**
   * The `while` loop that merges a heading with its continuation lines,
   * popping them from the list. The list is `done + rest`; the loop index of
   * the source is `|done|`.
   */
  method StitchMultiLine(sorted: seq<Span>, docType: string) returns (spans: seq<Span>)
    ensures spans == StitchFrom(sorted, docType)
  {
    var done: seq<Span> := [];
    var rest := sorted;
    while |rest| > 0
      invariant done + StitchFrom(rest, docType) == StitchFrom(sorted, docType)
      decreases |rest|
    {
      var step := StitchStep(rest, docType);
      StitchAdvance(done, rest, docType);
      done := done + [step.0];
      rest := rest[step.1..];
    }
    spans := done;
  }

  /** One turn of the stitching loop keeps `done + StitchFrom(rest)` unchanged. */
  lemma StitchAdvance(done: seq<Span>, rest: seq<Span>, docType: string)
    requires |rest| > 0
    ensures (done + [StitchStep(rest, docType).0]) + StitchFrom(rest[StitchStep(rest, docType).1..], docType)
      == done + StitchFrom(rest, docType)
  {
    var step := StitchStep(rest, docType);
    assert StitchFrom(rest, docType) == [step.0] + StitchFrom(rest[step.1..], docType);
  }

  /** A stitched span keeps the page of the span it started from. */
  lemma {:induction false} StitchPages(s: seq<Span>, docType: string)
    ensures SpanPages(StitchFrom(s, docType)) <= SpanPages(s)
    decreases |s|
  {
    if |s| > 0 {
      var step := StitchStep(s, docType);
      var rest := StitchFrom(s[step.1..], docType);
      StitchPages(s[step.1..], docType);
      SpanPagesSubset(s[step.1..], s);
      assert step.0.page == s[0].page;
      assert s[0] in s;
      assert StitchFrom(s, docType) == [step.0] + rest;
    }
  }

  /** Whether a span's stripped text may be a heading. */
  predicate PotentialSpan(s: Span) { IsPotentialHeading(Strip(s.text)) }

  /** The candidate filter loop: the spans whose stripped text may be a heading, in order. */
  function FilterPotential(s: seq<Span>): (r: seq<Span>)
    ensures |r| <= |s|
  {
    FilterMap(s, PotentialSpan, Identity)
  }

  /** The filter loop of `_extract_hierarchical_headings`: the spans whose stripped text may be a heading. */
  method FilterPotentialHeadings(sorted: seq<Span>) returns (potential: seq<Span>)
    ensures potential == FilterPotential(sorted)
  {
    potential := [];
    for i := 0 to |sorted|
      invariant potential == FilterMap(sorted[..i], PotentialSpan, Identity)
    {
      var text := Strip(sorted[i].text);
      var keep := IsPotentialHeading(text);
      FilterMapStep(sorted, i, PotentialSpan, Identity, potential, keep);
      if !keep {
        continue;
      }
      potential := potential + [sorted[i]];
    }
    TakeAll(sorted);
  }

  /** The filter keeps exactly the potential headings, in order: every kept span is one. */
  lemma FilterPotentialKeeps(s: seq<Span>)
    ensures forall k :: 0 <= k < |FilterPotential(s)| ==> IsPotentialHeading(Strip(FilterPotential(s)[k].text))
  {
    var r := FilterPotential(s);
    FilterMapMembers(s, PotentialSpan, Identity);
    forall k | 0 <= k < |r|
      ensures PotentialSpan(r[k])
    {
      assert r[k] in r;
    }
  }

  // ----- _group_by_left_margin -----

  /** The sort key `x0` under a given reading of a span's left edge. */
  function MarginKey(x0: Span -> real): Span -> seq<real> { s => [x0(s)] }

  /** Same margin group: `x0` within 15 points of the group's first `x0`. */
  function SameMargin(x0: Span -> real): (Span, Span) -> bool {
    (first: Span, s: Span) => -15.0 <= x0(s) - x0(first) <= 15.0
  }

  /** Spans with the same left edge share a margin group. */
  lemma SameMarginEqual(x0: Span -> real, first: Span, s: Span)
    requires x0(first) == x0(s)
    ensures SameMargin(x0)(first, s)
  {
  }

  /** The margin groups when a span's left edge reads as `x0`. */
  function MarginGroupsBy(spans: seq<Span>, x0: Span -> real): seq<seq<Span>> {
    Chunks(SortBy(spans, MarginKey(x0)), SameMargin(x0))
  }

  /** `_group_by_left_margin` on spans that carry no `x0` (every edge reads as 0). */
  function MarginGroups(spans: seq<Span>): seq<seq<Span>> {
    MarginGroupsBy(spans, AbsentX0)
  }

  /** `_group_by_left_margin`, for any reading `x0` of the left edge. */
  method GroupByLeftMargin(spans: seq<Span>, x0: Span -> real) returns (groups: seq<seq<Span>>)
    ensures groups == MarginGroupsBy(spans, x0)
  {
    if |spans| == 0 {
      return [];
    }
    var sorted := SortBy(spans, MarginKey(x0));
    groups := [];
    var current: seq<Span> := [];
    var currentX: Option<real> := None;
    for i := 0 to |sorted|
      invariant (|current| == 0) == (i == 0)
      invariant i == 0 ==> groups == [] && currentX == None
      invariant i > 0 ==> currentX == Some(x0(current[0]))
      invariant i > 0 ==> groups + ChunksFrom(current, sorted[i..], SameMargin(x0)) == MarginGroupsBy(spans, x0)
    {
      var span := sorted[i];
      var spanX := x0(span);
      assert sorted[i..][0] == span && sorted[i..][1..] == sorted[i + 1..];
      if currentX == None || (-15.0 <= spanX - currentX.value <= 15.0) {
        if currentX == None {
          currentX := Some(spanX);
          assert current + [span] == [span];
          assert groups + ChunksFrom([span], sorted[1..], SameMargin(x0)) == MarginGroupsBy(spans, x0);
        } else {
          ChunksFromExtend(current, sorted[i..], SameMargin(x0));
          assert (current + [span])[0] == current[0];
        }
        current := current + [span];
      } else {
        ChunksFromClose(current, sorted[i..], SameMargin(x0));
        assert (groups + [current]) + ChunksFrom([span], sorted[i + 1..], SameMargin(x0))
          == groups + ChunksFrom(current, sorted[i..], SameMargin(x0));
        groups := groups + [current];
        current := [span];
        currentX := Some(spanX);
      }
    }
    assert sorted[|sorted|..] == [];
    groups := groups + [current];
  }

  /** Since spans carry no `x0`, all candidates share one margin group, kept in input order. */
  lemma OneMarginGroup(spans: seq<Span>)
    requires |spans| > 0
    ensures MarginGroups(spans) == [spans]
  {
    var key := MarginKey(AbsentX0);
    var sorted := SortBy(spans, key);
    forall i, j | 0 <= i < j < |spans|
      ensures LexLe(key(spans[i]), key(spans[j]))
    {
      LexLeSingle(0.0, 0.0);
    }
    SortByIdentity(spans, key);
    forall j | 0 < j < |spans|
      ensures SameMargin(AbsentX0)(spans[0], spans[j])
    {
      SameMarginEqual(AbsentX0, spans[0], spans[j]);
    }
    ChunksAllJoin(spans, SameMargin(AbsentX0));
  }

  // ----- _is_likely_heading -----

  /**
   * The verdict on one span: not a heading, or a heading with the level the
   * content rules suggest (`span['suggested_level']`), if any.
   */
  datatype Verdict = NotHeading | Heading(suggested: Option<string>)

  /** `span.get("size", span.get("font_size", 12))`: spans carry no `size`, so the font size. */
  function SizeOf(s: Span): real { s.fontSize }

  const CriticalHeadings: seq<string> := ["guidance and advice:", "milestones", "phase iii: operating and growing"]
  const SkipPhrases: seq<string> := ["result:", "funding source", "investment of", "proposals will be evaluated", "planning process must also"]
  const RfpH1Keywords: seq<string> := ["ontario", "digital library", "critical component", "road map", "prosperity", "implementing"]
  const RfpH2Keywords: seq<string> := [
    "summary", "background", "methodology", "deliverables",
    "timeline", "budget", "evaluation", "conclusion",
    "business plan", "approach", "awarding", "contract",
    "appendix a:", "appendix b:", "appendix c:", "steering committee",
    "terms of reference", "electronic resources", "envisioned phases",
    "funding"]
  const RfpH3Keywords: seq<string> := [
    "timeline", "access", "governance", "funding", "decision-making",
    "accountability", "structure", "equitable", "shared", "local",
    "guidance", "advice", "training", "purchasing", "licensing",
    "technological", "support", "milestones", "business planning",
    "implementing", "transitioning", "operating", "growing", "preamble",
    "membership", "appointment", "criteria", "process", "term", "chair",
    "meetings", "lines", "communication", "financial", "administrative",
    "policies", "phase", "what could", "really mean"]
  const CriticalH3: seq<string> := ["guidance and advice", "milestones"]
  const H4Subjects: seq<string> := ["citizen", "student", "library", "government"]
  const MainSectionWords: seq<string> := ["introduction", "overview", "references"]
  const SubsectionKeywords: seq<string> := [
    "intended audience", "career paths", "learning objectives",
    "entry requirements", "structure and course", "keeping it current",
    "business outcomes", "content", "trademarks", "documents and web sites"]
  const StructuralKeywords: seq<string> := ["revision history", "table of contents", "acknowledgements", "references", "pathway options"]
  const ColumnHeaderWords: seq<string> := ["pathway", "regular", "distinction"]
  const ParagraphPhrases: seq<string> := [
    "this overview document", "outcomes are stated", "the following registered",
    "working group", "professionals who", "the tester should", "syllabus  days",
    "baseline:", "extension:", "foundation level.", "the odl will", "request for proposal"]

  /** The RFP third-level rules (`size >= 11`). */
  predicate RfpH3Rule(span: Span, text: string, tl: string) {
    ContainsAny(tl, CriticalH3)
    || (EndsWith(text, ":") && (ContainsAny(tl, RfpH3Keywords) || |Words(text)| <= 4))
    || (NumberedPrefix(text) && span.page >= 10 && ContainsAny(tl, RfpH3Keywords))
    || PhasePrefix(tl)
    || tl == "milestones"
    || (StartsWith(tl, "what could") && Contains(tl, "really mean"))
  }

  /** Some word of `text`, lower-cased, is a column-header word. */
  predicate HasColumnHeaderWord(text: string) {
    var words := Words(text);
    exists k :: 0 <= k < |words| && InList(Lower(words[k]), ColumnHeaderWords)
  }

  /** The first rules: forced headings and forced rejections by phrase; `None` falls through. */
  function ForcedRules(text: string, tl: string): Option<Verdict>
  {
    if ContainsAny(tl, CriticalHeadings) then
      Some(Heading(
        if Contains(tl, "guidance") then Some(H3)
        else if Contains(tl, "milestones") then Some(H3)
        else if Contains(tl, "phase iii") && Contains(tl, "operating") then Some(H3)
        else None))
    else if Contains(tl, "hope to see you there") || Contains(tl, "hope to see") then Some(Heading(Some(H1)))
    else if DatePrefix(text) || InList(text, ["March 21, 2003", "April 21, 2003."]) then Some(NotHeading)
    else if ContainsAny(tl, SkipPhrases) && !(EndsWith(text, ":") && |Words(text)| <= 2) then Some(NotHeading)
    else None
  }

  /** The rules by font size and keyword of the RFP layout: the level they give, if any. */
  function SizeRules(span: Span, text: string, tl: string): (r: Option<string>)
    ensures r.Some? ==> IsLevel(r.value)
  {
    var size := SizeOf(span);
    if size >= 15.5 && ContainsAny(tl, RfpH1Keywords) then Some(H1)
    else if 12.0 <= size < 16.0 && (AppendixPrefix(tl) || (ContainsAny(tl, RfpH2Keywords) && |Words(text)| <= 8))
    then Some(H2)
    else if size >= 11.0 && RfpH3Rule(span, text, tl) then Some(H3)
    else if size >= 11.0 && StartsWith(tl, "for each") && ContainsAny(tl, H4Subjects) then Some(H4)
    else None
  }

  /** The rules for numbered and named sections: the level they give, if any. */
  function NumberingRules(text: string, tl: string): (r: Option<string>)
    ensures r.Some? ==> r.value == H1 || r.value == H2
  {
    if NumberedPrefix(text) && ContainsAny(tl, MainSectionWords) then Some(H1)
    else if SubsectionPrefix(text) && !VersionDatePrefix(tl) && ContainsAny(tl, SubsectionKeywords) then Some(H2)
    else if ContainsAny(tl, StructuralKeywords) && |Words(text)| <= 4 then Some(H1)
    else None
  }

  /** Lines rejected as table headers, paragraphs, lists or revision rows. */
  predicate Rejected(text: string, tl: string) {
    (|Words(text)| >= 2 && HasColumnHeaderWord(text) && !Contains(tl, "options"))
    || |text| > 100
    || CountChar(text, ',') > 2
    || VersionDatePrefix(tl)
    || ContainsAny(tl, ParagraphPhrases)
  }

  /** The formatting fallback: large or bold, at most eight words, at most three full stops. */
  predicate FormattedLikeHeading(span: Span, text: string) {
    (SizeOf(span) >= 14.0 || IsBold(span)) && |Words(text)| <= 8 && CountChar(text, '.') <= 3
  }

  /** `_is_likely_heading(span, text)` with `text` the stripped span text: the rules in the source's order. */
  function LikelyHeading(span: Span, text: string): Verdict
  {
    var tl := Lower(text);
    var forced := ForcedRules(text, tl);
    if forced.Some? then forced.value
    else
      var sized := SizeRules(span, text, tl);
      if sized.Some? then Heading(sized)
      else
        var numbered := NumberingRules(text, tl);
        if numbered.Some? then Heading(numbered)
        else if Rejected(text, tl) then NotHeading
        else if FormattedLikeHeading(span, text) then Heading(None)
        else NotHeading
  }

  /** The three forced headings always come out of the first rules at level H3. */
  lemma ForcedRulesCritical(text: string, tl: string)
    requires ContainsAny(tl, CriticalHeadings)
    ensures ForcedRules(text, tl) == Some(Heading(Some(H3)))
  {
    CriticalMarker(tl);
  }

  /** A line holding one of the forced headings mentions one of the words the first rule tests. */
  lemma CriticalMarker(tl: string)
    requires ContainsAny(tl, CriticalHeadings)
    ensures Contains(tl, "guidance") || Contains(tl, "milestones") || (Contains(tl, "phase iii") && Contains(tl, "operating"))
  {
    var k :| 0 <= k < |CriticalHeadings| && Contains(tl, CriticalHeadings[k]);
    CriticalHeadingWords();
    if k == 0 {
      ContainsTrans(tl, CriticalHeadings[0], "guidance");
      assert Contains(tl, "guidance");
    } else if k == 1 {
      assert Contains(tl, "milestones");
    } else {
      ContainsTrans(tl, CriticalHeadings[2], "phase iii");
      ContainsTrans(tl, CriticalHeadings[2], "operating");
      assert Contains(tl, "phase iii") && Contains(tl, "operating");
    }
  }

  /** The words of the first rule inside the forced headings. */
  lemma CriticalHeadingWords()
    ensures Contains(CriticalHeadings[0], "guidance") && CriticalHeadings[1] == "milestones"
    ensures Contains(CriticalHeadings[2], "phase iii") && Contains(CriticalHeadings[2], "operating")
  {
    GuidanceWord(CriticalHeadings[0]);
    PhaseWord(CriticalHeadings[2]);
    OperatingWord(CriticalHeadings[2]);
  }

  lemma GuidanceWord(p: string)
    requires p == "guidance and advice:"
    ensures Contains(p, "guidance")
  {
    StartsWithContains(p, "guidance");
  }

  lemma PhaseWord(p: string)
    requires p == "phase iii: operating and growing"
    ensures Contains(p, "phase iii")
  {
    StartsWithContains(p, "phase iii");
  }

  lemma OperatingWord(p: string)
    requires p == "phase iii: operating and growing"
    ensures Contains(p, "operating")
  {
    assert p[11..20] == "operating";
    ContainsAt(p, "operating", 11);
  }

  /** The three forced headings always come out at level H3. */
  lemma CriticalHeadingsAreH3(span: Span, text: string)
    requires ContainsAny(Lower(text), CriticalHeadings)
    ensures LikelyHeading(span, text) == Heading(Some(H3))
  {
    ForcedRulesCritical(text, Lower(text));
  }

  /** Every suggested level is one of H1 to H4. */
  lemma SuggestedLevels(span: Span, text: string)
    ensures var v := LikelyHeading(span, text); v.Heading? && v.suggested.Some? ==> IsLevel(v.suggested.value)
  {
  }

  /**
   * A heading with no suggested level comes only from the formatting
   * fallback: large or bold, short, few full stops, at most 100 characters.
   */
  lemma UnlevelledHeadingsAreFormatted(span: Span, text: string)
    requires LikelyHeading(span, text) == Heading(None)
    ensures SizeOf(span) >= 14.0 || IsBold(span)
    ensures |Words(text)| <= 8 && CountChar(text, '.') <= 3 && |text| <= 100
  {
    var tl := Lower(text);
    if ContainsAny(tl, CriticalHeadings) {
      ForcedRulesCritical(text, tl);
    }
    assert ForcedRules(text, tl).None?;
    assert SizeRules(span, text, tl).None?;
    assert NumberingRules(text, tl).None?;
    assert !Rejected(text, tl);
  }

  /** Level H4 is given only to "For each ..." lines set at 11 points or more. */
  lemma H4OnlyForEach(span: Span, text: string)
    requires LikelyHeading(span, text) == Heading(Some(H4))
    ensures StartsWith(Lower(text), "for each") && SizeOf(span) >= 11.0
  {
    var tl := Lower(text);
    LevelsDistinct();
    if ContainsAny(tl, CriticalHeadings) {
      ForcedRulesCritical(text, tl);
    }
    assert ForcedRules(text, tl).None?;
    assert SizeRules(span, text, tl) == Some(H4);
    SizeRulesH4(span, text, tl);
  }

  lemma SizeRulesH4(span: Span, text: string, tl: string)
    requires SizeRules(span, text, tl) == Some(H4)
    ensures StartsWith(tl, "for each") && SizeOf(span) >= 11.0
  {
    LevelsDistinct();
  }

  // ----- _assign_hierarchy_by_position -----

  /** The level a candidate gets: the suggested one, `H1` when none was set. */
  function LevelOf(v: Verdict): string
    requires v.Heading?
  {
    if v.suggested.Some? then v.suggested.value else H1
  }

  /** The candidate a span yields: its original text and page, and the level of the verdict on its stripped text. */
  function ToCandidate(s: Span): (r: Option<Candidate>)
    ensures r.Some? ==> IsLevel(r.value.level) && r.value.text == s.text && r.value.page == s.page
    ensures r.Some? <==> LikelyHeading(s, Strip(s.text)).Heading?
  {
    var v := LikelyHeading(s, Strip(s.text));
    SuggestedLevels(s, Strip(s.text));
    if v.Heading? then Some(Candidate(LevelOf(v), s.text, s.page, AbsentX0(s), AbsentY0(s))) else None
  }

  function OptionToSeq<T>(o: Option<T>): seq<T> { if o.Some? then [o.value] else [] }

  function PageY0Key(s: Span): seq<real> { [s.page as real, AbsentY0(s)] }

  /** The candidates `classify` yields for one (sorted) group, read from its last span backwards. */
  function GroupCandidates(g: seq<Span>, classify: Span -> Option<Candidate>): (r: seq<Candidate>)
    ensures |r| <= |g|
  {
    if |g| == 0 then [] else GroupCandidates(g[..|g| - 1], classify) + OptionToSeq(classify(g[|g| - 1]))
  }

  /** The candidates of all groups, each group sorted by `(page, y0)`. */
  function AssignAll(groups: seq<seq<Span>>, classify: Span -> Option<Candidate>): seq<Candidate>
  {
    if |groups| == 0 then []
    else AssignAll(groups[..|groups| - 1], classify) + GroupCandidates(SortBy(groups[|groups| - 1], PageY0Key), classify)
  }

  lemma GroupCandidatesSnoc(g: seq<Span>, j: nat, classify: Span -> Option<Candidate>)
    requires j < |g|
    ensures GroupCandidates(g[..j + 1], classify) == GroupCandidates(g[..j], classify) + OptionToSeq(classify(g[j]))
  {
    assert g[..j + 1][..j] == g[..j];
  }

  lemma AssignAllSnoc(groups: seq<seq<Span>>, i: nat, classify: Span -> Option<Candidate>)
    requires i < |groups|
    ensures AssignAll(groups[..i + 1], classify)
      == AssignAll(groups[..i], classify) + GroupCandidates(SortBy(groups[i], PageY0Key), classify)
  {
    assert groups[..i + 1][..i] == groups[..i];
  }

  /**
   * `_assign_hierarchy_by_position`. The per-span rule of the source,
   * `_is_likely_heading` with its default level, is the parameter
   * `classify`; the extractor passes `ToCandidate`.
   */
  method AssignHierarchyByPosition(groups: seq<seq<Span>>, classify: Span -> Option<Candidate>)
    returns (candidates: seq<Candidate>)
    ensures candidates == AssignAll(groups, classify)
  {
    candidates := [];
    for gi := 0 to |groups|
      invariant candidates == AssignAll(groups[..gi], classify)
    {
      var sorted := SortBy(groups[gi], PageY0Key);
      var found := ClassifyGroup(sorted, classify);
      AssignAllSnoc(groups, gi, classify);
      candidates := candidates + found;
    }
    TakeAll(groups);
  }

  /** The inner loop of `_assign_hierarchy_by_position` over one sorted group. */
  method ClassifyGroup(sorted: seq<Span>, classify: Span -> Option<Candidate>) returns (found: seq<Candidate>)
    ensures found == GroupCandidates(sorted, classify)
  {
    found := [];
    for j := 0 to |sorted|
      invariant found == GroupCandidates(sorted[..j], classify)
    {
      var candidate := classify(sorted[j]);
      GroupCandidatesSnoc(sorted, j, classify);
      if candidate.Some? {
        found := found + [candidate.value];
      }
    }
    TakeAll(sorted);
  }

  /** A per-span rule that only ever yields candidates at one of the four levels, carrying the span's text and page. */
  ghost predicate KeepsSpanFields(classify: Span -> Option<Candidate>) {
    forall s :: classify(s).Some? ==>
      IsLevel(classify(s).value.level) && classify(s).value.text == s.text && classify(s).value.page == s.page
  }

  lemma ToCandidateKeepsSpanFields()
    ensures KeepsSpanFields(ToCandidate)
  {
  }

  /** Every candidate carries one of the four levels, and the text and page of a span of its group. */
  lemma {:induction false} CandidatesFromGroup(g: seq<Span>, classify: Span -> Option<Candidate>)
    requires KeepsSpanFields(classify)
    ensures forall k :: 0 <= k < |GroupCandidates(g, classify)| ==>
      var c := GroupCandidates(g, classify)[k];
      IsLevel(c.level) && exists j :: 0 <= j < |g| && c.text == g[j].text && c.page == g[j].page
    decreases |g|
  {
    if |g| > 0 {
      var init := g[..|g| - 1];
      var last := g[|g| - 1];
      CandidatesFromGroup(init, classify);
      var before := GroupCandidates(init, classify);
      var all := GroupCandidates(g, classify);
      assert all == before + OptionToSeq(classify(last));
      forall k | 0 <= k < |all|
        ensures IsLevel(all[k].level) && exists j :: 0 <= j < |g| && all[k].text == g[j].text && all[k].page == g[j].page
      {
        if k < |before| {
          var j :| 0 <= j < |init| && before[k].text == init[j].text && before[k].page == init[j].page;
          assert init[j] == g[j];
        } else {
          assert all[k] == classify(last).value;
        }
      }
    }
  }

  /** Without `x0`, the candidates of a non-empty list are on the pages of its spans. */
  lemma CandidatesPages(potential: seq<Span>)
    requires |potential| > 0
    ensures forall c :: c in AssignAll(MarginGroups(potential), ToCandidate) ==> c.page in SpanPages(potential)
  {
    var g := SortBy(potential, PageY0Key);
    SingleGroupCandidates(potential);
    SortedPages(potential, PageY0Key);
    GroupCandidatePages(g, SpanPages(potential));
  }

  /** With one margin group, the candidates are those of the page-sorted spans. */
  lemma SingleGroupCandidates(potential: seq<Span>)
    requires |potential| > 0
    ensures AssignAll(MarginGroups(potential), ToCandidate) == GroupCandidates(SortBy(potential, PageY0Key), ToCandidate)
  {
    OneMarginGroup(potential);
    AssignSingle(potential, ToCandidate);
  }

  /** The candidates of a single group are those of that group sorted by `(page, y0)`. */
  lemma AssignSingle(g: seq<Span>, classify: Span -> Option<Candidate>)
    ensures AssignAll([g], classify) == GroupCandidates(SortBy(g, PageY0Key), classify)
  {
    assert [g][..0] == [];
  }

  /** The candidates of a group carry pages of the group's spans. */
  lemma GroupCandidatePages(g: seq<Span>, pages: set<int>)
    requires forall s :: s in g ==> s.page in pages
    ensures forall c :: c in GroupCandidates(g, ToCandidate) ==> c.page in pages
  {
    ToCandidateKeepsSpanFields();
    CandidatesFromGroup(g, ToCandidate);
    forall c | c in GroupCandidates(g, ToCandidate)
      ensures c.page in pages
    {
      var k :| 0 <= k < |GroupCandidates(g, ToCandidate)| && GroupCandidates(g, ToCandidate)[k] == c;
      var j :| 0 <= j < |g| && c.text == g[j].text && c.page == g[j].page;
      assert g[j] in g;
    }
  }

  /** Sorting keeps the pages. */
  lemma SortedPages(spans: seq<Span>, key: Span -> seq<real>)
    ensures SpanPages(SortBy(spans, key)) == SpanPages(spans)
  {
    var sorted := SortBy(spans, key);
    forall x | x in sorted
      ensures x in spans
    {
      assert x in multiset(spans);
    }
    forall x | x in spans
      ensures x in sorted
    {
      assert x in multiset(sorted);
    }
    SpanPagesSubset(sorted, spans);
    SpanPagesSubset(spans, sorted);
  }
}
