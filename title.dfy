/**
 * `_extract_title`: the title comes from the spans of the first physical
 * page (page 0). Invitations and flyers get no title. Otherwise three
 * strategies are tried in turn: the large-font lines in the upper half of
 * the page, then the widest-covering line of the upper half with the
 * largest font, then the topmost line that looks like a title.
 */
module Title {
  import opened Options
  import opened Text
  import opened Sorting
  import opened Records
  import opened Lists
  import opened FormFields

  predicate OnFirstPage(s: Span) { s.page == 0 }

  function SpanText(s: Span): string { s.text }

  function StrippedText(s: Span): string { Strip(s.text) }

  function RightEdge(s: Span): real { s.x + s.width }

  function BottomEdge(s: Span): real { s.y + s.height }

  function FontSize(s: Span): real { s.fontSize }

  /** `max(f(s) for s in spans)` */
  function MaxOf(spans: seq<Span>, f: Span -> real): (m: real)
    requires |spans| > 0
    ensures forall i :: 0 <= i < |spans| ==> f(spans[i]) <= m
    ensures exists i :: 0 <= i < |spans| && f(spans[i]) == m
  {
    if |spans| == 1 then f(spans[0])
    else
      var m := MaxOf(spans[1..], f);
      assert forall i :: 1 <= i < |spans| ==> spans[1..][i - 1] == spans[i];
      if f(spans[0]) >= m then f(spans[0]) else m
  }

  // ----- The invitation gate -----

  const InvitationIndicators: seq<string> := [
    "hope to see", "pigeon forge", "rsvp", "party",
    "invitation", "please visit", "waiver", "topjump"]

  const StrongIndicators: seq<string> := ["rsvp", "invitation", "topjump"]

  /** `sum(1 for phrase in phrases if phrase in text)` */
  function CountContained(text: string, phrases: seq<string>): (n: nat)
    ensures n <= |phrases|
    ensures n == 0 <==> forall k :: 0 <= k < |phrases| ==> !Contains(text, phrases[k])
  {
    if |phrases| == 0 then 0
    else
      assert forall k :: 1 <= k < |phrases| ==> phrases[1..][k - 1] == phrases[k];
      (if Contains(text, phrases[0]) then 1 else 0) + CountContained(text, phrases[1..])
  }

  /** Two indicators, or one strong one, in the lower-cased first-page text. */
  predicate IsInvitationText(allText: string) {
    CountContained(allText, InvitationIndicators) >= 2 || ContainsAny(allText, StrongIndicators)
  }

  /** The lower-cased, space-joined text of the first page. */
  function FirstPageText(first: seq<Span>): string {
    Lower(JoinWith(" ", Map(first, SpanText)))
  }

  // ----- Strategy 1: large-font lines in the upper half -----

  /** `s["y"] < page_height * 0.5` */
  function Above(pageHeight: real): Span -> bool {
    (s: Span) => s.y < pageHeight * 0.5
  }

  function FontAtLeast(size: real): Span -> bool {
    (s: Span) => s.fontSize >= size
  }

  function NotIn(spans: seq<Span>): Span -> bool {
    (s: Span) => s !in spans
  }

  predicate MentionsRfp(s: Span) { Contains(Lower(s.text), "rfp") }

  /**
   * The spans whose font is within 95% of the page's largest; in an RFP
   * document also those within 70%, after them.
   */
  function TitleCandidates(first: seq<Span>, upper: seq<Span>): seq<Span>
    requires |first| > 0
  {
    var maxFontSize := MaxOf(first, FontSize);
    var largest := Filter(upper, FontAtLeast(maxFontSize * 0.95));
    if exists i :: 0 <= i < |first| && MentionsRfp(first[i]) then
      largest + Filter(Filter(upper, FontAtLeast(maxFontSize * 0.7)), NotIn(largest))
    else largest
  }

  /** `(s["y"], s["x"])` */
  function PositionKey(s: Span): seq<real> { [s.y, s.x] }

  const SkipWords: seq<string> := ["version", "international", "board", "copyright"]

  /** A stripped text that may be part of the title. */
  predicate IsTitlePart(text: string) {
    |text| >= 3 && !IsFormField(text) && !ContainsAny(Lower(text), SkipWords)
  }

  predicate HasTitlePart(s: Span) { IsTitlePart(Strip(s.text)) }

  /** The stripped texts of the candidates satisfying `keep`, top to bottom. */
  function Parts(candidates: seq<Span>, keep: Span -> bool): seq<string> {
    FilterMap(SortBy(candidates, PositionKey), keep, StrippedText)
  }

  /** The stripped texts of the candidates, top to bottom, that may be part of the title. */
  function TitleParts(candidates: seq<Span>): seq<string> {
    Parts(candidates, HasTitlePart)
  }

  const InvitationWords: seq<string> := ["hope", "see", "there"]
  const AddressWords: seq<string> := ["pigeon forge", "tn", "address"]

  /** Parts that read like an invitation or an address: the document gets no title. */
  predicate RejectedParts(parts: seq<string>) {
    var joined := Lower(JoinWith(" ", parts));
    ContainsAny(joined, InvitationWords) || ContainsAny(joined, AddressWords)
  }

  function StrippedIs(text: string): Span -> bool {
    (s: Span) => Strip(s.text) == text
  }

  function StrippedIn(parts: seq<string>): Span -> bool {
    (s: Span) => Strip(s.text) in parts
  }

  /**
   * The title assembled from the parts: the original text of the span a
   * single part came from, or the original texts of the spans of several
   * parts concatenated top to bottom (passed to `cleanRfp` when they
   * mention "rfp").
   */
  function CombineParts(candidates: seq<Span>, parts: seq<string>, cleanRfp: string -> string): string
    requires |parts| > 0
  {
    if |parts| == 1 then
      match Find(candidates, StrippedIs(parts[0]))
      case Some(s) => s.text
      case None => parts[0]
    else
      var combined := Concat(Map(SortBy(Filter(candidates, StrippedIn(parts)), PositionKey), SpanText));
      if Contains(Lower(combined), "rfp") then cleanRfp(combined) else combined
  }

  /** Strategy 1: None when it finds no part, otherwise the title ("" for a rejected one). */
  function LargeTextTitle(first: seq<Span>, upper: seq<Span>, cleanRfp: string -> string): Option<string>
    requires |first| > 0
  {
    if |upper| == 0 then None
    else
      var candidates := TitleCandidates(first, upper);
      var parts := TitleParts(candidates);
      if |parts| == 0 then None
      else if RejectedParts(parts) then Some("")
      else Some(CombineParts(candidates, parts, cleanRfp))
  }

  // ----- Strategies 2 and 3 -----

  /** `span["width"] / page_width if page_width > 0 else 0` */
  function Coverage(s: Span, pageWidth: real): real {
    if pageWidth > 0.0 then s.width / pageWidth else 0.0
  }

  /** A line of 10 to 150 characters covering more than 60% of the page width that is not a form label. */
  function Wide(pageWidth: real): Span -> bool {
    (s: Span) => Coverage(s, pageWidth) > 0.6 && 10 <= |Strip(s.text)| <= 150 && !IsFormField(s.text)
  }

  /** `reverse=True` on `font_size`: the negated size, sorted ascending and stably. */
  function LargestFontFirst(s: Span): seq<real> { [-s.fontSize] }

  function StrippedOf(found: Option<Span>): Option<string> {
    match found
    case Some(s) => Some(Strip(s.text))
    case None => None
  }

  /** The first span satisfying `p` in order of decreasing font size. */
  function FirstByFont(spans: seq<Span>, p: Span -> bool): Option<Span> {
    Find(SortBy(spans, LargestFontFirst), p)
  }

  /** Strategy 2. */
  function WideTitle(upper: seq<Span>, pageWidth: real): Option<string> {
    StrippedOf(FirstByFont(upper, Wide(pageWidth)))
  }

  /** A line of 10 to 150 characters that is not a form label and looks like a title. */
  predicate TitleLike(s: Span) {
    var t := Strip(s.text);
    10 <= |t| <= 150 && !IsFormField(t) && LooksLikeTitle(t)
  }

  /** The first span satisfying `p` in reading order (top to bottom, then left to right). */
  function Topmost(spans: seq<Span>, p: Span -> bool): Option<Span> {
    Find(SortBy(spans, PositionKey), p)
  }

  /** Strategy 3. */
  function ShapedTitle(first: seq<Span>): Option<string> {
    StrippedOf(Topmost(first, TitleLike))
  }

  // ----- _extract_title -----

  /**
   * The title `_extract_title` returns. `cleanRfp` stands for
   * `_clean_rfp_title`, which is not part of this model.
   */
  function TitleOf(spans: seq<Span>, cleanRfp: string -> string): string {
    var first := Filter(spans, OnFirstPage);
    if |first| == 0 then ""
    else if IsInvitationText(FirstPageText(first)) then ""
    else
      var upper := Filter(first, Above(MaxOf(first, BottomEdge)));
      match LargeTextTitle(first, upper, cleanRfp)
      case Some(t) => t
      case None =>
        match WideTitle(upper, MaxOf(first, RightEdge))
        case Some(t) => t
        case None =>
          match ShapedTitle(first)
          case Some(t) => t
          case None => ""
  }

  /** The title-parts loop of strategy 1, over the candidates sorted top to bottom. */
  method CollectTitleParts(ordered: seq<Span>) returns (titleParts: seq<string>)
    ensures titleParts == FilterMap(ordered, HasTitlePart, StrippedText)
  {
    titleParts := [];
    for i := 0 to |ordered|
      invariant titleParts == FilterMap(ordered[..i], HasTitlePart, StrippedText)
    {
      var text := Strip(ordered[i].text);
      var keep := |text| > 0 && |text| >= 3 && !IsFormField(text) && !ContainsAny(Lower(text), SkipWords);
      FilterMapStep(ordered, i, HasTitlePart, StrippedText, titleParts, keep);
      if keep {
        titleParts := titleParts + [text];
      }
    }
    assert ordered[..|ordered|] == ordered;
  }

  /** The loop of strategy 2, over the upper spans sorted by decreasing font size. */
  method SearchWideTitle(ordered: seq<Span>, pageWidth: real) returns (title: Option<string>)
    ensures title == StrippedOf(Find(ordered, Wide(pageWidth)))
  {
    for i := 0 to |ordered|
      invariant forall j :: 0 <= j < i ==> !Wide(pageWidth)(ordered[j])
    {
      if Wide(pageWidth)(ordered[i]) {
        FindAt(ordered, Wide(pageWidth), i);
        return Some(Strip(ordered[i].text));
      }
      SearchStep(ordered, Wide(pageWidth), i);
    }
    FindNone(ordered, Wide(pageWidth));
    return None;
  }

  /** The loop of strategy 3, over the first-page spans sorted top to bottom. */
  method SearchShapedTitle(ordered: seq<Span>) returns (title: Option<string>)
    ensures title == StrippedOf(Find(ordered, TitleLike))
  {
    for i := 0 to |ordered|
      invariant forall j :: 0 <= j < i ==> !TitleLike(ordered[j])
    {
      if TitleLike(ordered[i]) {
        FindAt(ordered, TitleLike, i);
        return Some(Strip(ordered[i].text));
      }
      SearchStep(ordered, TitleLike, i);
    }
    FindNone(ordered, TitleLike);
    return None;
  }

  /** `_extract_title` */
  method ExtractTitle(spans: seq<Span>, cleanRfp: string -> string) returns (title: string)
    ensures title == TitleOf(spans, cleanRfp)
  {
    if |spans| == 0 {
      return "";
    }
    var firstPageSpans := Filter(spans, OnFirstPage);
    if |firstPageSpans| == 0 {
      return "";
    }
    var pageWidth := MaxOf(firstPageSpans, RightEdge);
    var pageHeight := MaxOf(firstPageSpans, BottomEdge);
    if IsInvitationText(FirstPageText(firstPageSpans)) {
      return "";
    }
    var upperSpans := Filter(firstPageSpans, Above(pageHeight));
    if |upperSpans| > 0 {
      var candidates := TitleCandidates(firstPageSpans, upperSpans);
      var titleParts := CollectTitleParts(SortBy(candidates, PositionKey));
      assert titleParts == TitleParts(candidates);
      if |titleParts| > 0 && RejectedParts(titleParts) {
        return "";
      }
      if |titleParts| > 0 {
        return CombineParts(candidates, titleParts, cleanRfp);
      }
    }
    assert LargeTextTitle(firstPageSpans, upperSpans, cleanRfp) == None;
    var wide := SearchWideTitle(SortBy(upperSpans, LargestFontFirst), pageWidth);
    if wide.Some? {
      return wide.value;
    }
    var shaped := SearchShapedTitle(SortBy(firstPageSpans, PositionKey));
    if shaped.Some? {
      return shaped.value;
    }
    return "";
  }

  // ----- What the title promises -----

  /** Without a span on page 0 there is no title. */
  lemma NoFirstPageNoTitle(spans: seq<Span>, cleanRfp: string -> string)
    requires forall i :: 0 <= i < |spans| ==> spans[i].page != 0
    ensures TitleOf(spans, cleanRfp) == ""
  {
    FilterNone(spans, OnFirstPage);
  }

  /** The indicator count reaches two exactly when two different indicators occur. */
  lemma CountContainedTwo(text: string, phrases: seq<string>)
    ensures CountContained(text, phrases) >= 2 <==>
      exists i, j :: 0 <= i < j < |phrases| && Contains(text, phrases[i]) && Contains(text, phrases[j])
  {
    if CountContained(text, phrases) >= 2 {
      var i, j := TwoContained(text, phrases);
    }
    if exists i, j :: 0 <= i < j < |phrases| && Contains(text, phrases[i]) && Contains(text, phrases[j]) {
      var i, j :| 0 <= i < j < |phrases| && Contains(text, phrases[i]) && Contains(text, phrases[j]);
      ContainedTwoCount(text, phrases, i, j);
    }
  }

  /** A count of two or more names two different contained indicators. */
  lemma {:induction false} TwoContained(text: string, phrases: seq<string>) returns (i: nat, j: nat)
    requires CountContained(text, phrases) >= 2
    ensures i < j < |phrases| && Contains(text, phrases[i]) && Contains(text, phrases[j])
    decreases |phrases|
  {
    var rest := phrases[1..];
    if Contains(text, phrases[0]) {
      var k :| 0 <= k < |rest| && Contains(text, rest[k]);
      i, j := 0, k + 1;
    } else {
      var i', j' := TwoContained(text, rest);
      i, j := i' + 1, j' + 1;
    }
  }

  /** Two different contained indicators make the count two or more. */
  lemma {:induction false} ContainedTwoCount(text: string, phrases: seq<string>, i: nat, j: nat)
    requires i < j < |phrases| && Contains(text, phrases[i]) && Contains(text, phrases[j])
    ensures CountContained(text, phrases) >= 2
    decreases |phrases|
  {
    var rest := phrases[1..];
    assert Contains(text, rest[j - 1]);
    if i > 0 {
      ContainedTwoCount(text, rest, i - 1, j - 1);
    }
  }

  /** A first page mentioning "rsvp" is an invitation's: no title. */
  lemma RsvpMeansNoTitle(spans: seq<Span>, cleanRfp: string -> string)
    requires Contains(FirstPageText(Filter(spans, OnFirstPage)), "rsvp")
    ensures TitleOf(spans, cleanRfp) == ""
  {
    assert StrongIndicators[0] == "rsvp";
  }

  /** Every part is the stripped text of a candidate satisfying `keep`, and has no surrounding space. */
  lemma PartsFromCandidates(candidates: seq<Span>, keep: Span -> bool)
    ensures forall p :: p in Parts(candidates, keep) ==>
      Strip(p) == p && exists s :: s in candidates && keep(s) && Strip(s.text) == p
  {
    var ordered := SortBy(candidates, PositionKey);
    FilterMapMembers(ordered, keep, StrippedText);
    forall p | p in Parts(candidates, keep)
      ensures Strip(p) == p && exists s :: s in candidates && keep(s) && Strip(s.text) == p
    {
      var i :| 0 <= i < |ordered| && keep(ordered[i]) && p == Strip(ordered[i].text);
      assert ordered[i] in multiset(ordered);
      StripIdempotent(ordered[i].text);
    }
  }

  /**
   * A single part gives back the original, unstripped text of the first
   * candidate whose stripped text is that part.
   */
  lemma SinglePartKeepsOriginalText(candidates: seq<Span>, keep: Span -> bool, cleanRfp: string -> string)
    requires |Parts(candidates, keep)| == 1
    ensures var parts := Parts(candidates, keep);
      exists s :: s in candidates && Strip(s.text) == parts[0]
        && CombineParts(candidates, parts, cleanRfp) == s.text
  {
    var parts := Parts(candidates, keep);
    PartsFromCandidates(candidates, keep);
    assert parts[0] in parts;
    var s :| s in candidates && keep(s) && Strip(s.text) == parts[0];
    var k :| 0 <= k < |candidates| && candidates[k] == s;
    FindSome(candidates, StrippedIs(parts[0]), k);
    var found := Find(candidates, StrippedIs(parts[0])).value;
    assert CombineParts(candidates, parts, cleanRfp) == found.text;
  }

  /**
   * The search in order of decreasing font size finds a span exactly when
   * some span satisfies `p`; the one it finds has the largest font among them.
   */
  lemma FirstByFontLargest(spans: seq<Span>, p: Span -> bool)
    ensures FirstByFont(spans, p).None? <==> forall s :: s in spans ==> !p(s)
    ensures FirstByFont(spans, p).Some? ==>
      var s := FirstByFont(spans, p).value;
      s in spans && p(s) && forall y :: y in spans && p(y) ==> y.fontSize <= s.fontSize
  {
    FindSortedLeast(spans, p, LargestFontFirst);
    var found := FirstByFont(spans, p);
    if found.Some? {
      var s := found.value;
      forall y | y in spans && p(y)
        ensures y.fontSize <= s.fontSize
      {
        LexLeSingle(-s.fontSize, -y.fontSize);
      }
    }
  }

  /**
   * The search in reading order finds a span exactly when some span
   * satisfies `p`; the one it finds is the topmost of them, leftmost among
   * those at the same height.
   */
  lemma TopmostFirst(spans: seq<Span>, p: Span -> bool)
    ensures Topmost(spans, p).None? <==> forall s :: s in spans ==> !p(s)
    ensures Topmost(spans, p).Some? ==>
      var s := Topmost(spans, p).value;
      s in spans && p(s) && forall y :: y in spans && p(y) ==> s.y < y.y || (s.y == y.y && s.x <= y.x)
  {
    FindSortedLeast(spans, p, PositionKey);
    var found := Topmost(spans, p);
    if found.Some? {
      var s := found.value;
      forall y | y in spans && p(y)
        ensures s.y < y.y || (s.y == y.y && s.x <= y.x)
      {
        assert LexLe(PositionKey(s), PositionKey(y));
        assert PositionKey(s)[1..] == [s.x] && PositionKey(y)[1..] == [y.x];
        LexLeSingle(s.x, y.x);
      }
    }
  }
}
