/**
 * Page renumbering (`_adjust_page_numbers`): a document-dependent offset,
 * the page of the first content heading, and the shift that makes that
 * page the offset and drops the pages before it.
 */
module PageAdjust {
  import opened Options
  import opened Text
  import opened Records

  /** `' '.join([s["text"].lower() for s in spans])` */
  function LowerTexts(spans: seq<Span>): (r: seq<string>)
    ensures |r| == |spans|
  {
    seq(|spans|, i requires 0 <= i < |spans| => Lower(spans[i].text))
  }

  function AllText(spans: seq<Span>): string { JoinWith(" ", LowerTexts(spans)) }

  /** The offset chosen from what the document mentions. */
  function PageOffset(allText: string): (r: nat)
    ensures r <= 2
    ensures r == 0 ==> Contains(allText, "stem") && Contains(allText, "parsippany")
  {
    if Contains(allText, "foundation level") && Contains(allText, "extension") then 2
    else if Contains(allText, "rfp") && (Contains(allText, "ontario") || Contains(allText, "digital library")) then 1
    else if ContainsAny(allText, ["hope to see", "topjump"]) then 1
    else if Contains(allText, "stem") && Contains(allText, "parsippany") then 0
    else 1
  }

  const ContentHeadings: seq<string> := [
    "revision history", "table of contents", "acknowledgements", "summary", "background"]
  const ContentIndicators: seq<string> := [
    "revision history", "table of contents", "acknowledgements",
    "summary", "background", "introduction", "overview", "pathway options"]

  /** `span["text"].lower().strip()` */
  function LowerStripped(s: Span): string { Strip(Lower(s.text)) }

  /** First pass: the line is exactly one of the content headings. */
  predicate IsContentHeading(s: Span) { InList(LowerStripped(s), ContentHeadings) }

  /** Second pass: the line mentions a content indicator. */
  predicate MentionsContent(s: Span) { ContainsAny(LowerStripped(s), ContentIndicators) }

  /** The page of the first span satisfying `p`, if any. */
  function FirstPage(spans: seq<Span>, p: Span -> bool): (r: Option<int>)
    ensures r.None? <==> forall i :: 0 <= i < |spans| ==> !p(spans[i])
    ensures r.Some? ==> exists i :: (0 <= i < |spans| && p(spans[i]) && spans[i].page == r.value
      && forall j :: 0 <= j < i ==> !p(spans[j]))
  {
    if |spans| == 0 then None
    else if p(spans[0]) then Some(spans[0].page)
    else
      var r := FirstPage(spans[1..], p);
      assert forall i :: 1 <= i < |spans| ==> spans[1..][i - 1] == spans[i];
      r
  }

  /** The content start page: the first pass, then the second. */
  function FirstContentPage(spans: seq<Span>): Option<int> {
    var exact := FirstPage(spans, IsContentHeading);
    if exact.Some? then exact else FirstPage(spans, MentionsContent)
  }

  /** `max(span["page"] for span in spans)` */
  function MaxPage(spans: seq<Span>): (m: int)
    requires |spans| > 0
    ensures forall i :: 0 <= i < |spans| ==> spans[i].page <= m
    ensures exists i :: 0 <= i < |spans| && spans[i].page == m
  {
    if |spans| == 1 then spans[0].page
    else
      var m := MaxPage(spans[1..]);
      assert forall i :: 1 <= i < |spans| ==> spans[1..][i - 1] == spans[i];
      if spans[0].page >= m then spans[0].page else m
  }

  /** The renumbered spans, with the pages before the content start dropped. */
  function Shifted(spans: seq<Span>, first: int, offset: int): (r: seq<Span>)
  {
    if |spans| == 0 then []
    else
      var last := spans[|spans| - 1].(page := spans[|spans| - 1].page - first + offset);
      Shifted(spans[..|spans| - 1], first, offset) + (if last.page >= 0 then [last] else [])
  }

  /** The fallback when no content page is found. */
  function Offset(spans: seq<Span>, page: Span -> int): (r: seq<Span>)
    ensures |r| == |spans|
    ensures forall i :: 0 <= i < |spans| ==> r[i] == spans[i].(page := page(spans[i]))
  {
    seq(|spans|, i requires 0 <= i < |spans| => spans[i].(page := page(spans[i])))
  }

  /**
   * The fallback page: a single-page document is put on the offset (or on
   * page 1 when the offset is 0), any other page is moved by the offset.
   */
  function Fallback(maxPage: int, offset: int): Span -> int {
    if maxPage == 0 then (s: Span) => if offset > 0 then offset else 1
    else (s: Span) => s.page + offset
  }

  function AdjustPages(spans: seq<Span>): seq<Span> {
    if |spans| == 0 then spans
    else
      var offset := PageOffset(AllText(spans));
      var first := FirstContentPage(spans);
      if first.Some? then Shifted(spans, first.value, offset)
      else Offset(spans, Fallback(MaxPage(spans), offset))
  }

  /** One pass looking for the first span satisfying `p`. */
  method FindFirstPage(spans: seq<Span>, p: Span -> bool) returns (page: Option<int>)
    ensures page == FirstPage(spans, p)
  {
    page := None;
    for i := 0 to |spans|
      invariant FirstPage(spans, p) == FirstPage(spans[i..], p)
    {
      assert spans[i..][1..] == spans[i + 1..];
      if p(spans[i]) {
        page := Some(spans[i].page);
        break;
      }
    }
  }

  lemma ShiftedSnoc(spans: seq<Span>, i: nat, first: int, offset: int)
    requires i < |spans|
    ensures Shifted(spans[..i + 1], first, offset) == Shifted(spans[..i], first, offset)
      + (if spans[i].page - first + offset >= 0 then [spans[i].(page := spans[i].page - first + offset)] else [])
  {
    assert spans[..i + 1][..i] == spans[..i];
  }

  /** The renumbering loop: shift from the content page, or fall back to the offset. */
  method Renumber(spans: seq<Span>, firstContentPage: Option<int>, pageOffset: int, maxPage: int)
    returns (adjusted: seq<Span>)
    ensures firstContentPage.Some? ==> adjusted == Shifted(spans, firstContentPage.value, pageOffset)
    ensures firstContentPage.None? ==> adjusted == Offset(spans, Fallback(maxPage, pageOffset))
  {
    ghost var fallback := Fallback(maxPage, pageOffset);
    adjusted := [];
    for i := 0 to |spans|
      invariant firstContentPage.Some? ==> adjusted == Shifted(spans[..i], firstContentPage.value, pageOffset)
      invariant firstContentPage.None? ==> adjusted == Offset(spans[..i], fallback)
    {
      var span := spans[i];
      if firstContentPage.Some? {
        ShiftedSnoc(spans, i, firstContentPage.value, pageOffset);
        var adjustedSpan := span.(page := span.page - firstContentPage.value + pageOffset);
        if adjustedSpan.page >= 0 {
          adjusted := adjusted + [adjustedSpan];
        }
      } else {
        var adjustedSpan := if maxPage == 0 then span.(page := if pageOffset > 0 then pageOffset else 1)
                            else span.(page := span.page + pageOffset);
        adjusted := adjusted + [adjustedSpan];
      }
    }
    assert spans[..|spans|] == spans;
  }

  /** `_adjust_page_numbers` */
  method AdjustPageNumbers(spans: seq<Span>) returns (adjusted: seq<Span>)
    ensures adjusted == AdjustPages(spans)
  {
    if |spans| == 0 {
      return spans;
    }
    var maxPage := MaxPage(spans);
    var allText := AllText(spans);
    var pageOffset: int;
    if Contains(allText, "foundation level") && Contains(allText, "extension") {
      pageOffset := 2;
    } else if Contains(allText, "rfp") && (Contains(allText, "ontario") || Contains(allText, "digital library")) {
      pageOffset := 1;
    } else if ContainsAny(allText, ["hope to see", "topjump"]) {
      pageOffset := 1;
    } else if Contains(allText, "stem") && Contains(allText, "parsippany") {
      pageOffset := 0;
    } else {
      pageOffset := 1;
    }
    assert pageOffset == PageOffset(allText);
    var firstContentPage := FindFirstPage(spans, IsContentHeading);
    if firstContentPage.None? {
      firstContentPage := FindFirstPage(spans, MentionsContent);
    }
    adjusted := Renumber(spans, firstContentPage, pageOffset, maxPage);
  }

  /** The span `s` moved so that page `first` becomes page `offset`. */
  function Moved(s: Span, first: int, offset: int): Span { s.(page := s.page - first + offset) }

  /** The shifted spans are exactly the moved spans that land on a page >= 0. */
  lemma {:induction false} ShiftedMembers(spans: seq<Span>, first: int, offset: int, x: Span)
    ensures x in Shifted(spans, first, offset)
      <==> exists i :: 0 <= i < |spans| && x == Moved(spans[i], first, offset) && x.page >= 0
  {
    if |spans| > 0 {
      var init := spans[..|spans| - 1];
      ShiftedMembers(init, first, offset, x);
      assert forall i :: 0 <= i < |init| ==> init[i] == spans[i];
    }
  }

  /** Spans in page order. */
  ghost predicate InPageOrder(s: seq<Span>) {
    forall i, j :: 0 <= i < j < |s| ==> s[i].page <= s[j].page
  }

  /** Shifting keeps the page order. */
  lemma {:induction false} ShiftedOrdered(spans: seq<Span>, first: int, offset: int)
    requires InPageOrder(spans)
    ensures InPageOrder(Shifted(spans, first, offset))
  {
    if |spans| > 0 {
      var init := spans[..|spans| - 1];
      ShiftedOrdered(init, first, offset);
      var r := Shifted(init, first, offset);
      forall k | 0 <= k < |r|
        ensures r[k].page <= spans[|spans| - 1].page - first + offset
      {
        ShiftedMembers(init, first, offset, r[k]);
      }
    }
  }

  /** Every page shifting emits is >= 0. */
  lemma {:induction false} ShiftedNonNegative(spans: seq<Span>, first: int, offset: int)
    ensures forall i :: 0 <= i < |Shifted(spans, first, offset)| ==> Shifted(spans, first, offset)[i].page >= 0
  {
    if |spans| > 0 {
      ShiftedNonNegative(spans[..|spans| - 1], first, offset);
    }
  }

  /**
   * Every renumbered page is >= 0 (given page numbers >= 0, as the page
   * reader produces them), and each output span is an input span with only
   * its page changed.
   */
  lemma AdjustedPages(spans: seq<Span>)
    requires forall i :: 0 <= i < |spans| ==> spans[i].page >= 0
    ensures forall i :: 0 <= i < |AdjustPages(spans)| ==> AdjustPages(spans)[i].page >= 0
    ensures forall x :: x in AdjustPages(spans) ==> exists i :: 0 <= i < |spans| && x == spans[i].(page := x.page)
  {
    if |spans| > 0 {
      var offset := PageOffset(AllText(spans));
      var first := FirstContentPage(spans);
      if first.Some? {
        assert AdjustPages(spans) == Shifted(spans, first.value, offset);
        ShiftedNonNegative(spans, first.value, offset);
        ShiftedFromSpans(spans, first.value, offset);
      } else {
        var page := Fallback(MaxPage(spans), offset);
        assert AdjustPages(spans) == Offset(spans, page);
        assert forall i :: 0 <= i < |spans| ==> page(spans[i]) >= 0;
        OffsetFromSpans(spans, page);
      }
    }
  }

  /** Each shifted span is an input span with only its page changed. */
  lemma ShiftedFromSpans(spans: seq<Span>, first: int, offset: int)
    ensures forall x :: x in Shifted(spans, first, offset) ==> exists i :: 0 <= i < |spans| && x == spans[i].(page := x.page)
  {
    forall x | x in Shifted(spans, first, offset)
      ensures exists i :: 0 <= i < |spans| && x == spans[i].(page := x.page)
    {
      ShiftedMembers(spans, first, offset, x);
    }
  }

  /** Each span of the fallback is an input span with only its page changed. */
  lemma OffsetFromSpans(spans: seq<Span>, page: Span -> int)
    ensures forall x :: x in Offset(spans, page) ==> exists i :: 0 <= i < |spans| && x == spans[i].(page := x.page)
  {
    var r := Offset(spans, page);
    forall x | x in r
      ensures exists i :: 0 <= i < |spans| && x == spans[i].(page := x.page)
    {
      var k :| 0 <= k < |r| && r[k] == x;
      assert x == spans[k].(page := x.page);
    }
  }

  /** Once a content page is found, it becomes page `offset` and nothing before that page survives. */
  lemma ContentPageBecomesOffset(spans: seq<Span>, i: nat)
    requires i < |spans| && FirstContentPage(spans).Some?
    requires spans[i].page >= FirstContentPage(spans).value
    ensures Moved(spans[i], FirstContentPage(spans).value, PageOffset(AllText(spans))) in AdjustPages(spans)
    ensures spans[i].page == FirstContentPage(spans).value
      ==> Moved(spans[i], FirstContentPage(spans).value, PageOffset(AllText(spans))).page == PageOffset(AllText(spans))
  {
    ShiftedMembers(spans, FirstContentPage(spans).value, PageOffset(AllText(spans)),
      Moved(spans[i], FirstContentPage(spans).value, PageOffset(AllText(spans))));
  }

  /** A single-page document without content headings is put on one page >= 1. */
  lemma SinglePageFallback(spans: seq<Span>)
    requires |spans| > 0 && FirstContentPage(spans).None? && MaxPage(spans) == 0
    ensures |AdjustPages(spans)| == |spans|
    ensures forall i :: 0 <= i < |spans| ==> (AdjustPages(spans)[i].page >= 1
      && AdjustPages(spans)[i].page == AdjustPages(spans)[0].page)
  {
  }
}
