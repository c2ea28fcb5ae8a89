/**
 * The heading pipeline: `_extract_hierarchical_headings` (sort, stitch,
 * filter, margin groups, candidates, strict hierarchy) and
 * `_classify_headings` (line grouping, document type, the form and
 * invitation gates, the title filter and the finalizing pass).
 */
module Pipeline {
  import opened Options
  import opened Text
  import opened Sorting
  import opened Records
  import opened Lists
  import opened LineGrouping
  import opened DocType
  import opened Candidates
  import opened Hierarchy
  import opened Finalize
  import opened InvitationHeadings
  import opened HeadingText
  import opened PageAdjust

  // ----- _extract_hierarchical_headings -----

  function HierarchicalHeadings(spans: seq<Span>, docType: string): seq<Entry> {
    if |spans| == 0 then []
    else
      var potential := FilterPotential(StitchFrom(SortBy(spans, PagePositionKey), docType));
      if |potential| == 0 then []
      else Enforce(AssignAll(MarginGroups(potential), ToCandidate))
  }

  /** `_extract_hierarchical_headings` */
  method ExtractHierarchicalHeadings(spans: seq<Span>, docType: string) returns (headings: seq<Entry>)
    ensures headings == HierarchicalHeadings(spans, docType)
  {
    if |spans| == 0 {
      return [];
    }
    var sorted := SortBy(spans, PagePositionKey);
    var stitched := StitchMultiLine(sorted, docType);
    var potential := FilterPotentialHeadings(stitched);
    if |potential| == 0 {
      return [];
    }
    var groups := GroupByLeftMargin(potential, AbsentX0);
    var candidates := AssignHierarchyByPosition(groups, ToCandidate);
    headings := EnforceStrictHierarchy(candidates);
  }

  // ----- The title filter of _classify_headings -----

  const TitleWords: seq<string> := [
    "Ontario", "Libraries", "Present", "Proposal", "Developing", "Business Plan", "Digital Library"]

  /** A page-0 line (stripped text `text`) that is a component of a long RFP title rather than a section heading. */
  predicate IsTitlePart(text: string) {
    ContainsAny(text, TitleWords)
    && !(EndsWith(text, ":") || StartsWith(text, "1.") || StartsWith(text, "2.")
         || Contains(text, "Summary") || Contains(text, "Background") || Contains(text, "Timeline"))
  }

  predicate IsPageZeroTitlePart(s: Span) { s.page == 0 && IsTitlePart(Strip(s.text)) }

  function StrippedText(s: Span): string { Strip(s.text) }

  /** The title components collected for an RFP title longer than 50 characters. */
  function TitleParts(grouped: seq<Span>, titleClean: string): seq<string> {
    if Contains(titleClean, "RFP") && |titleClean| > 50 then FilterMap(grouped, IsPageZeroTitlePart, StrippedText)
    else []
  }

  /** Whether a line survives the title filter. */
  function NotTitle(titleClean: string, parts: seq<string>): Span -> bool {
    (s: Span) => Strip(s.text) != titleClean && Strip(s.text) !in parts
  }

  /** The lines left once the title and its components are removed (nothing is removed for a blank title). */
  function RemoveTitle(grouped: seq<Span>, title: string): seq<Span> {
    var titleClean := Strip(title);
    if |titleClean| == 0 then grouped
    else FilterMap(grouped, NotTitle(titleClean, TitleParts(grouped, titleClean)), Identity)
  }

  // ----- _classify_headings -----

  /**
   * The outline for a document of type `docType` whose lines, title
   * removed, are `filtered`: forms have none, invitations get their single
   * heading, everything else the finalized hierarchical headings, returned
   * as they are (finalizing may drop a heading whose children the
   * strict-hierarchy pass had already admitted; see `CorrectedOutline`).
   */
  function Outline(docType: Kind, filtered: seq<Span>): seq<Entry> {
    if docType == Form then []
    else if docType == Invitation then InvitationOutline(filtered)
    else Finalized(HierarchicalHeadings(filtered, Name(docType)))
  }

  /** `_classify_headings` (the title filter is pure, so it may run before the form gate). */
  function Classified(spans: seq<Span>, title: string): seq<Entry> {
    var grouped := GroupLines(spans);
    Outline(DocumentTypeOf(grouped), RemoveTitle(grouped, title))
  }

  /** The title filter loop. */
  method FilterTitle(grouped: seq<Span>, title: string) returns (filtered: seq<Span>)
    ensures filtered == RemoveTitle(grouped, title)
  {
    var titleClean := Strip(title);
    if |titleClean| == 0 {
      return grouped;
    }
    var titleParts: seq<string> := [];
    if Contains(titleClean, "RFP") && |titleClean| > 50 {
      titleParts := CollectPageZeroParts(grouped);
    }
    filtered := DropTitleLines(grouped, titleClean, titleParts);
  }

  /** The loop collecting the title components from page 0. */
  method CollectPageZeroParts(grouped: seq<Span>) returns (titleParts: seq<string>)
    ensures titleParts == FilterMap(grouped, IsPageZeroTitlePart, StrippedText)
  {
    titleParts := [];
    for i := 0 to |grouped|
      invariant titleParts == FilterMap(grouped[..i], IsPageZeroTitlePart, StrippedText)
    {
      FilterMapSnoc(grouped, i, IsPageZeroTitlePart, StrippedText);
      var span := grouped[i];
      if span.page == 0 {
        var text := Strip(span.text);
        if IsTitlePart(text) {
          titleParts := titleParts + [text];
        }
      }
    }
    TakeAll(grouped);
  }

  /** The loop dropping the title and its components. */
  method DropTitleLines(grouped: seq<Span>, titleClean: string, titleParts: seq<string>) returns (filtered: seq<Span>)
    ensures filtered == FilterMap(grouped, NotTitle(titleClean, titleParts), Identity)
  {
    filtered := [];
    for i := 0 to |grouped|
      invariant filtered == FilterMap(grouped[..i], NotTitle(titleClean, titleParts), Identity)
    {
      FilterMapSnoc(grouped, i, NotTitle(titleClean, titleParts), Identity);
      var text := Strip(grouped[i].text);
      if text == titleClean {
        continue;
      }
      if text in titleParts {
        continue;
      }
      filtered := filtered + [grouped[i]];
    }
    TakeAll(grouped);
  }

  /** `_classify_headings` */
  method ClassifyHeadings(spans: seq<Span>, title: string) returns (outline: seq<Entry>)
    ensures outline == Classified(spans, title)
  {
    var grouped := GroupSpansByLine(spans);
    var docType := DetectDocumentType(grouped);
    if docType == Form {
      return [];
    }
    grouped := FilterTitle(grouped, title);
    if docType == Invitation {
      outline := ExtractInvitationHeadings(grouped);
      return;
    }
    var hierarchical := ExtractHierarchicalHeadings(grouped, Name(docType));
    outline := FinalizeHeadings(hierarchical);
  }

  // ----- What the outline promises -----

  /**
   * The outline as evidently intended: the strict-hierarchy pass runs once
   * more over the finalized headings, so that no heading is left without
   * its parent.
   */
  function CorrectedOutline(docType: Kind, filtered: seq<Span>): seq<Entry> {
    if docType == Form then []
    else if docType == Invitation then InvitationOutline(filtered)
    else Keep(Finalized(HierarchicalHeadings(filtered, Name(docType))), EntryLevel)
  }

  /** The strict-hierarchy pass over finalized headings keeps what finalizing established. */
  lemma RefinalizedInvariants(hs: seq<Entry>)
    ensures var r := Keep(Finalized(hs), EntryLevel);
      WellNested(Levels(r, EntryLevel)) && DistinctKeys(r, KeyOf) && PagesSorted(r)
      && (|r| > 0 ==> r[0].level == H1)
      && forall e :: e in r ==> LongEnough(e) && exists i :: 0 <= i < |hs| && e == Clean(hs[i])
  {
    var f := Finalized(hs);
    var r := Keep(f, EntryLevel);
    KeepWellNested(f, EntryLevel);
    if |r| > 0 {
      WellNestedStartsWithH1(Levels(r, EntryLevel));
    }
    FinalizedEntries(hs);
    FinalizedPagesSorted(hs);
    KeepFromSubsequence(Closed, f, EntryLevel);
    SubsequenceMembers(r, f);
    SubsequenceKeepsOrder(r, f, (x: Entry, y: Entry) => KeyOf(x) != KeyOf(y));
    SubsequenceKeepsOrder(r, f, (x: Entry, y: Entry) => x.page <= y.page);
  }

  /** The outline of an invitation is at most one H1, hence well nested, in page order and free of duplicates. */
  lemma InvitationInvariants(filtered: seq<Span>)
    ensures var r := InvitationOutline(filtered);
      |r| <= 1 && (forall e :: e in r ==> e.level == H1)
      && WellNested(Levels(r, EntryLevel)) && DistinctKeys(r, KeyOf) && PagesSorted(r)
  {
    InvitationSingleH1(filtered);
    AtMostOneH1(InvitationOutline(filtered));
  }

  lemma AtMostOneH1(r: seq<Entry>)
    requires |r| <= 1 && (|r| == 1 ==> r[0].level == H1)
    ensures forall e :: e in r ==> e.level == H1
    ensures WellNested(Levels(r, EntryLevel)) && DistinctKeys(r, KeyOf) && PagesSorted(r)
  {
    if |r| == 1 {
      assert Levels(r, EntryLevel) == [H1];
    }
  }

  /**
   * The outline of `_classify_headings`: empty for a form, at most one H1
   * (hence well nested) for an invitation, and otherwise free of duplicate
   * keys, in page order and made of headings of at least three characters.
   * Well nesting is not promised outside invitations: finalizing can
   * orphan a heading.
   */
  lemma OutlineInvariants(docType: Kind, filtered: seq<Span>)
    ensures docType == Form ==> Outline(docType, filtered) == []
    ensures docType == Invitation ==>
      |Outline(docType, filtered)| <= 1 && (forall e :: e in Outline(docType, filtered) ==> e.level == H1)
      && WellNested(Levels(Outline(docType, filtered), EntryLevel))
    ensures DistinctKeys(Outline(docType, filtered), KeyOf) && PagesSorted(Outline(docType, filtered))
    ensures docType != Invitation ==> forall e :: e in Outline(docType, filtered) ==> LongEnough(e)
  {
    if docType == Invitation {
      InvitationInvariants(filtered);
    } else if docType != Form {
      var hs := HierarchicalHeadings(filtered, Name(docType));
      FinalizedEntries(hs);
      FinalizedPagesSorted(hs);
    }
  }

  /**
   * The corrected outline keeps every invariant of the source's and adds
   * well nesting: empty for a form, at most one H1 for an invitation, and
   * always well nested, free of duplicate keys and in page order.
   */
  lemma CorrectedOutlineInvariants(docType: Kind, filtered: seq<Span>)
    ensures docType == Form ==> CorrectedOutline(docType, filtered) == []
    ensures docType == Invitation ==>
      |CorrectedOutline(docType, filtered)| <= 1 && forall e :: e in CorrectedOutline(docType, filtered) ==> e.level == H1
    ensures WellNested(Levels(CorrectedOutline(docType, filtered), EntryLevel))
    ensures DistinctKeys(CorrectedOutline(docType, filtered), KeyOf) && PagesSorted(CorrectedOutline(docType, filtered))
    ensures docType != Invitation ==> forall e :: e in CorrectedOutline(docType, filtered) ==> LongEnough(e)
  {
    if docType == Invitation {
      InvitationInvariants(filtered);
    } else if docType != Form {
      RefinalizedInvariants(HierarchicalHeadings(filtered, Name(docType)));
    }
  }

  /** The correction changes nothing exactly when the source's outline is already well nested. */
  lemma CorrectionOnlyRepairs(docType: Kind, filtered: seq<Span>)
    ensures CorrectedOutline(docType, filtered) == Outline(docType, filtered)
      <==> WellNested(Levels(Outline(docType, filtered), EntryLevel))
  {
    if docType == Invitation {
      InvitationInvariants(filtered);
    } else if docType != Form {
      KeepIdentityIff(Outline(docType, filtered), EntryLevel);
    } else {
      assert Levels(Outline(docType, filtered), EntryLevel) == [];
    }
  }

  /** With a non-blank title, no line whose stripped text is the title reaches the heading passes. */
  lemma TitleRemoved(grouped: seq<Span>, title: string)
    requires |Strip(title)| > 0
    ensures forall s :: s in RemoveTitle(grouped, title) ==> s in grouped && Strip(s.text) != Strip(title)
    ensures forall s :: (s in grouped && Strip(s.text) != Strip(title) && Strip(s.text) !in TitleParts(grouped, Strip(title))
      ==> s in RemoveTitle(grouped, title))
  {
    FilterMapMembers(grouped, NotTitle(Strip(title), TitleParts(grouped, Strip(title))), Identity);
  }

  // ----- Where the outline's pages come from -----

  /** Every hierarchical heading is on the page of one of the lines. */
  lemma HierarchicalPages(spans: seq<Span>, docType: string)
    ensures forall e :: e in HierarchicalHeadings(spans, docType) ==> e.page in SpanPages(spans)
  {
    if |spans| > 0 {
      var sorted := SortBy(spans, PagePositionKey);
      var stitched := StitchFrom(sorted, docType);
      var potential := FilterPotential(stitched);
      if |potential| > 0 {
        var cs := AssignAll(MarginGroups(potential), ToCandidate);
        StitchPages(sorted, docType);
        FilterMapMembers(stitched, PotentialSpan, Identity);
        SpanPagesSubset(potential, stitched);
        SortedPages(spans, PagePositionKey);
        CandidatesPages(potential);
        EnforcePages(cs);
      }
    }
  }

  /** Every heading of the outline is on the page of one of the lines it was made from. */
  lemma OutlinePages(docType: Kind, filtered: seq<Span>)
    ensures forall e :: e in Outline(docType, filtered) ==> e.page in SpanPages(filtered)
  {
    if docType == Invitation {
      InvitationPages(filtered);
    } else if docType != Form {
      HierarchicalPages(filtered, Name(docType));
      FinalizedPagesFrom(HierarchicalHeadings(filtered, Name(docType)), SpanPages(filtered));
    }
  }

  /** Every heading `_classify_headings` returns is on the page of one of the spans it was given. */
  lemma ClassifiedPages(spans: seq<Span>, title: string)
    ensures forall e :: e in Classified(spans, title) ==> e.page in SpanPages(spans)
  {
    var grouped := GroupLines(spans);
    var filtered := RemoveTitle(grouped, title);
    if |Strip(title)| > 0 {
      TitleRemoved(grouped, title);
    }
    SpanPagesSubset(filtered, grouped);
    GroupLinesPages(spans);
    OutlinePages(DocumentTypeOf(grouped), filtered);
  }

  /**
   * Page adjustment followed by `_classify_headings`, as the extractor
   * chains them: when the reader's pages are not negative, no heading of
   * the outline has a negative page.
   */
  lemma AdjustedOutlinePages(spans: seq<Span>, title: string)
    requires forall i :: 0 <= i < |spans| ==> spans[i].page >= 0
    ensures forall e :: e in Classified(AdjustPages(spans), title) ==> e.page >= 0
  {
    var adjusted := AdjustPages(spans);
    AdjustedPages(spans);
    ClassifiedPages(adjusted, title);
    forall e | e in Classified(adjusted, title)
      ensures e.page >= 0
    {
      var x :| x in adjusted && x.page == e.page;
    }
  }
}
