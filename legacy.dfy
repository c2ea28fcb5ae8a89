/**
 * The heading stage of the first extractor (`extractor.py`): spans of
 * acceptable length that the layout analyzer gives a level become raw
 * headings with a clean text and a confidence, and the raw headings are
 * then sorted by (page, order), the low-confidence ones dropped and the
 * repeated or near-repeated texts removed, the first occurrence winning.
 *
 * The confidence is a weighted sum of floating-point contributions; only
 * its final clamp to 1.0 is modelled, the sum itself is an argument.
 */
module Legacy {
  import opened Options
  import opened Text
  import opened Sorting
  import opened Records
  import opened Lists
  import opened UnicodeData
  import opened Layout
  import opened I18n

  /** A heading entry before filtering, as `_extract_headings` builds it. */
  datatype RawHeading = RawHeading(level: string, text: string, page: int, order: int, confidence: real)

  /** Headings below this confidence are dropped. */
  const MinConfidence: real := 0.3

  // ----- _is_distinct_heading -----

  /**
   * One of the two texts contains the other, and the contained one is
   * longer than 80% of the container.
   */
  predicate Similar(text: string, seen: string) {
    (Contains(seen, text) && |text| as real > |seen| as real * 0.8)
    || (Contains(text, seen) && |seen| as real > |text| as real * 0.8)
  }

  /** `_is_distinct_heading`: no text seen so far is similar to this one. */
  predicate DistinctFrom(text: string, seen: set<string>) {
    forall s :: s in seen ==> !Similar(text, s)
  }

  /** `_is_distinct_heading`: the loop over the seen texts, leaving at the first similar one. */
  method IsDistinctHeading(text: string, seen: set<string>) returns (distinct: bool)
    ensures distinct <==> forall s :: s in seen ==> !Similar(text, s)
  {
    var rest := seen;
    while rest != {}
      invariant rest <= seen
      invariant forall s :: s in seen && s !in rest ==> !Similar(text, s)
      decreases |rest|
    {
      var s :| s in rest;
      if Similar(text, s) {
        return false;
      }
      rest := rest - {s};
    }
    return true;
  }

  /** A non-empty text already seen is not distinct: it contains itself in full. */
  lemma SeenNotDistinct(text: string, seen: set<string>)
    requires text in seen && |text| > 0
    ensures !DistinctFrom(text, seen)
  {
    assert StartsWith(text, text);
    assert Similar(text, text);
  }

  // ----- _filter_headings -----

  /** The sort key `(page, order)`. */
  function HeadingKey(h: RawHeading): seq<real> { [h.page as real, h.order as real] }

  /** `heading['text'].lower().strip()`: the text remembered in `seen_texts`. */
  function SeenText(text: string): string { Strip(Lower(text)) }

  /** The final entry keeps level, text and page only. */
  function Project(h: RawHeading): Entry { Entry(h.level, h.text, h.page) }

  /** The loop body's three skips: low confidence, already seen, too similar to a seen text. */
  predicate Admits(h: RawHeading, seen: set<string>, norm: string -> string) {
    var t := norm(h.text);
    h.confidence >= MinConfidence && t !in seen && DistinctFrom(t, seen)
  }

  /** The filtering loop of `_filter_headings` from a given set of seen texts on. */
  function FilterFrom(hs: seq<RawHeading>, seen: set<string>, norm: string -> string): (r: seq<Entry>)
    ensures |r| <= |hs|
    decreases |hs|
  {
    if |hs| == 0 then []
    else if Admits(hs[0], seen, norm) then [Project(hs[0])] + FilterFrom(hs[1..], seen + {norm(hs[0].text)}, norm)
    else FilterFrom(hs[1..], seen, norm)
  }

  /** `_filter_headings` */
  function FilteredHeadings(hs: seq<RawHeading>): seq<Entry> {
    if |hs| == 0 then [] else FilterFrom(SortBy(hs, HeadingKey), {}, SeenText)
  }

  /** One step of the filtering loop at position `i`. */
  lemma FilterFromStep(hs: seq<RawHeading>, i: nat, seen: set<string>, norm: string -> string)
    requires i < |hs|
    ensures FilterFrom(hs[i..], seen, norm) ==
      if Admits(hs[i], seen, norm) then [Project(hs[i])] + FilterFrom(hs[i + 1..], seen + {norm(hs[i].text)}, norm)
      else FilterFrom(hs[i + 1..], seen, norm)
  {
    assert hs[i..][1..] == hs[i + 1..];
  }

  /** `_filter_headings` */
  method FilterHeadings(headings: seq<RawHeading>) returns (filtered: seq<Entry>)
    ensures filtered == FilteredHeadings(headings)
  {
    if |headings| == 0 {
      return [];
    }
    var sorted := SortBy(headings, HeadingKey);
    filtered := FilterSorted(sorted, SeenText);
  }

  /** The loop of `_filter_headings` over the sorted headings, remembering texts by `norm`. */
  method FilterSorted(sorted: seq<RawHeading>, norm: string -> string) returns (filtered: seq<Entry>)
    ensures filtered == FilterFrom(sorted, {}, norm)
  {
    filtered := [];
    var seen: set<string> := {};
    for i := 0 to |sorted|
      invariant filtered + FilterFrom(sorted[i..], seen, norm) == FilterFrom(sorted, {}, norm)
    {
      var heading := sorted[i];
      var text := norm(heading.text);
      // the three skips: low confidence, already seen, too similar to a seen text
      var admit := false;
      if heading.confidence >= MinConfidence && text !in seen {
        admit := IsDistinctHeading(text, seen);
      }
      assert admit == Admits(heading, seen, norm);
      FilterFromStep(sorted, i, seen, norm);
      if admit {
        Assoc(filtered, [Project(heading)], FilterFrom(sorted[i + 1..], seen + {text}, norm));
        seen := seen + {text};
        filtered := filtered + [Project(heading)];
      }
    }
    assert sorted[|sorted|..] == [];
  }

  /** The entry is the projection of a confident heading of `hs`. */
  ghost predicate Drawn(hs: seq<RawHeading>, e: Entry) {
    exists j :: 0 <= j < |hs| && hs[j].confidence >= MinConfidence && e == Project(hs[j])
  }

  /** The texts a result remembers. */
  function OutTexts(r: seq<Entry>, norm: string -> string): set<string> {
    set k | 0 <= k < |r| :: norm(r[k].text)
  }

  /** A text is accounted for by a set of seen texts: it is one of them or similar to one. */
  predicate Covered(t: string, seen: set<string>) {
    t in seen || !DistinctFrom(t, seen)
  }

  /** Two kept entries whose lower-cased stripped texts differ and are not similar. */
  predicate Apart(earlier: Entry, later: Entry, norm: string -> string) {
    norm(earlier.text) != norm(later.text) && !Similar(norm(later.text), norm(earlier.text))
  }

  /** Every kept entry is the level, text and page of a confident heading. */
  lemma {:induction false} FilterFromDrawn(hs: seq<RawHeading>, seen: set<string>, norm: string -> string)
    ensures forall e :: e in FilterFrom(hs, seen, norm) ==> Drawn(hs, e)
    decreases |hs|
  {
    if |hs| > 0 {
      var seen' := if Admits(hs[0], seen, norm) then seen + {norm(hs[0].text)} else seen;
      FilterFromDrawn(hs[1..], seen', norm);
      forall e | e in FilterFrom(hs, seen, norm)
        ensures Drawn(hs, e)
      {
        if e in FilterFrom(hs[1..], seen', norm) {
          var j :| 0 <= j < |hs[1..]| && hs[1..][j].confidence >= MinConfidence && e == Project(hs[1..][j]);
          assert hs[j + 1] == hs[1..][j];
        } else {
          assert e == Project(hs[0]) && hs[0].confidence >= MinConfidence;
        }
      }
    }
  }

  /** A kept text was neither seen before nor similar to a text seen before. */
  lemma {:induction false} FilterFromFresh(hs: seq<RawHeading>, seen: set<string>, norm: string -> string)
    ensures forall e :: e in FilterFrom(hs, seen, norm) ==> norm(e.text) !in seen && DistinctFrom(norm(e.text), seen)
    decreases |hs|
  {
    if |hs| > 0 {
      var seen' := if Admits(hs[0], seen, norm) then seen + {norm(hs[0].text)} else seen;
      FilterFromFresh(hs[1..], seen', norm);
    }
  }

  /** No kept text repeats or resembles an earlier kept one. */
  lemma {:induction false} FilterFromApart(hs: seq<RawHeading>, seen: set<string>, norm: string -> string)
    ensures forall i, j :: 0 <= i < j < |FilterFrom(hs, seen, norm)| ==>
      Apart(FilterFrom(hs, seen, norm)[i], FilterFrom(hs, seen, norm)[j], norm)
    decreases |hs|
  {
    if |hs| > 0 && Admits(hs[0], seen, norm) {
      var t := norm(hs[0].text);
      var r := FilterFrom(hs, seen, norm);
      var rest := FilterFrom(hs[1..], seen + {t}, norm);
      FilterFromApart(hs[1..], seen + {t}, norm);
      FilterFromFresh(hs[1..], seen + {t}, norm);
      assert r == [Project(hs[0])] + rest;
      forall i, j | 0 <= i < j < |r|
        ensures Apart(r[i], r[j], norm)
      {
        if i == 0 {
          assert r[j] == rest[j - 1] && rest[j - 1] in rest;
          assert t in seen + {t};
        } else {
          assert r[i] == rest[i - 1] && r[j] == rest[j - 1];
        }
      }
    } else if |hs| > 0 {
      FilterFromApart(hs[1..], seen, norm);
    }
  }

  /** Adding texts to the seen set keeps a covered text covered. */
  lemma CoveredGrow(t: string, seen: set<string>, more: set<string>)
    requires Covered(t, seen) && seen <= more
    ensures Covered(t, more)
  {
    if t !in seen {
      var s :| s in seen && Similar(t, s);
      assert s in more;
    }
  }

  /**
   * Nothing confident is lost without a reason: the text of every confident
   * heading is, at the end, a seen or kept text or similar to one.
   */
  lemma {:induction false} FilterFromComplete(hs: seq<RawHeading>, seen: set<string>, norm: string -> string)
    ensures var r := FilterFrom(hs, seen, norm);
      forall j :: 0 <= j < |hs| && hs[j].confidence >= MinConfidence ==>
        Covered(norm(hs[j].text), seen + OutTexts(r, norm))
    decreases |hs|
  {
    if |hs| > 0 {
      var r := FilterFrom(hs, seen, norm);
      var t := norm(hs[0].text);
      var seen' := if Admits(hs[0], seen, norm) then seen + {t} else seen;
      var rest := FilterFrom(hs[1..], seen', norm);
      FilterFromComplete(hs[1..], seen', norm);
      var all := seen + OutTexts(r, norm);
      assert seen' + OutTexts(rest, norm) <= all by {
        if Admits(hs[0], seen, norm) {
          assert r == [Project(hs[0])] + rest;
          assert norm(r[0].text) in OutTexts(r, norm);
          forall x | x in OutTexts(rest, norm)
            ensures x in OutTexts(r, norm)
          {
            var k :| 0 <= k < |rest| && x == norm(rest[k].text);
            assert r[k + 1] == rest[k];
          }
        } else {
          assert r == rest;
        }
      }
      forall j | 0 <= j < |hs| && hs[j].confidence >= MinConfidence
        ensures Covered(norm(hs[j].text), all)
      {
        if j == 0 {
          if Admits(hs[0], seen, norm) {
            assert t in all;
          } else {
            CoveredGrow(t, seen, all);
          }
        } else {
          assert hs[1..][j - 1] == hs[j];
          CoveredGrow(norm(hs[j].text), seen' + OutTexts(rest, norm), all);
        }
      }
    }
  }

  /** On headings in (page, order) order the kept entries are in page order. */
  lemma {:induction false} FilterFromPages(hs: seq<RawHeading>, seen: set<string>, norm: string -> string)
    requires SortedBy(hs, HeadingKey)
    ensures PagesSorted(FilterFrom(hs, seen, norm))
    decreases |hs|
  {
    if |hs| > 0 {
      assert SortedBy(hs[1..], HeadingKey) by {
        forall i, j | 0 <= i < j < |hs[1..]|
          ensures LexLe(HeadingKey(hs[1..][i]), HeadingKey(hs[1..][j]))
        {
          assert hs[1..][i] == hs[i + 1] && hs[1..][j] == hs[j + 1];
        }
      }
      if Admits(hs[0], seen, norm) {
        var t := norm(hs[0].text);
        var rest := FilterFrom(hs[1..], seen + {t}, norm);
        FilterFromPages(hs[1..], seen + {t}, norm);
        FilterFromDrawn(hs[1..], seen + {t}, norm);
        forall k | 0 <= k < |rest|
          ensures hs[0].page <= rest[k].page
        {
          assert rest[k] in rest;
          var j :| 0 <= j < |hs[1..]| && hs[1..][j].confidence >= MinConfidence && rest[k] == Project(hs[1..][j]);
          assert hs[1..][j] == hs[j + 1];
          LexLePair(hs[0].page as real, hs[0].order as real, hs[j + 1].page as real, hs[j + 1].order as real);
        }
      } else {
        FilterFromPages(hs[1..], seen, norm);
      }
    }
  }

  /** A heading drawn from the sorted list is drawn from the input. */
  lemma DrawnSorted(hs: seq<RawHeading>, e: Entry)
    requires Drawn(SortBy(hs, HeadingKey), e)
    ensures Drawn(hs, e)
  {
    var sorted := SortBy(hs, HeadingKey);
    var j :| 0 <= j < |sorted| && sorted[j].confidence >= MinConfidence && e == Project(sorted[j]);
    assert sorted[j] in multiset(hs);
  }

  /** A heading of the input is a heading of the sorted list. */
  lemma SortedHas(hs: seq<RawHeading>, j: nat) returns (i: nat)
    requires j < |hs|
    ensures var sorted := SortBy(hs, HeadingKey); i < |sorted| && sorted[i] == hs[j]
  {
    var sorted := SortBy(hs, HeadingKey);
    assert hs[j] in multiset(sorted);
    i :| 0 <= i < |sorted| && sorted[i] == hs[j];
  }

  /**
   * `_filter_headings`: no headings give no headings; every entry is the
   * level, text and page of a heading of confidence 0.3 or more; no two
   * entries have the same or similar lower-cased stripped texts; every
   * confident heading is represented by an entry of the same or a similar
   * text; and the entries are in page order.
   */
  lemma FilteredHeadingsProperties(hs: seq<RawHeading>)
    ensures var r := FilteredHeadings(hs);
      (|hs| == 0 ==> r == [])
      && (forall k :: 0 <= k < |r| ==> Drawn(hs, r[k]))
      && (forall i, j :: 0 <= i < j < |r| ==> Apart(r[i], r[j], SeenText))
      && (forall j :: 0 <= j < |hs| && hs[j].confidence >= MinConfidence ==> Covered(SeenText(hs[j].text), OutTexts(r, SeenText)))
      && PagesSorted(r)
  {
    if |hs| > 0 {
      var sorted := SortBy(hs, HeadingKey);
      var r := FilterFrom(sorted, {}, SeenText);
      FilterFromDrawn(sorted, {}, SeenText);
      FilterFromApart(sorted, {}, SeenText);
      FilterFromComplete(sorted, {}, SeenText);
      SortBySorted(hs, HeadingKey);
      FilterFromPages(sorted, {}, SeenText);
      forall k | 0 <= k < |r|
        ensures Drawn(hs, r[k])
      {
        assert r[k] in r;
        DrawnSorted(hs, r[k]);
      }
      forall j | 0 <= j < |hs| && hs[j].confidence >= MinConfidence
        ensures Covered(SeenText(hs[j].text), OutTexts(r, SeenText))
      {
        var i := SortedHas(hs, j);
        assert {} + OutTexts(r, SeenText) == OutTexts(r, SeenText);
      }
    }
  }

  // ----- _calculate_heading_confidence -----

  /** `min(confidence, 1.0)`: the final clamp of the confidence score. */
  function HeadingConfidence(score: real): (c: real)
    ensures c <= 1.0 && c <= score
    ensures score <= 1.0 ==> c == score
    ensures score >= 1.0 ==> c == 1.0
  {
    if score <= 1.0 then score else 1.0
  }

  // ----- _extract_headings -----

  /** A span as the first extractor sees it: its layout fields, optional normalized text, page and order. */
  datatype LegacySpan = LegacySpan(layout: LayoutSpan, normalizedText: Option<string>, page: int, order: int)

  /** The extractor's default length bounds. */
  const MinHeadingLength: nat := 2
  const MaxHeadingLength: nat := 200

  /** `span.get('normalized_text', span.get('text', ''))` */
  function SpanText(s: LegacySpan): string { GetOr(s.normalizedText, s.layout.text) }

  /** The loop body of `_extract_headings` for one span; `score` is the unclamped confidence sum. */
  function Candidate(s: LegacySpan, minLen: nat, maxLen: nat, u: Unicode, score: LegacySpan -> real): Option<RawHeading> {
    var text := SpanText(s);
    if |text| < minLen || |text| > maxLen then None
    else match ClassifyHeadingLevel(s.layout)
      case None => None
      case Some(level) =>
        var clean := ExtractCleanHeadingText(text, u);
        if clean == "" then None
        else Some(RawHeading(level, clean, s.page, s.order, HeadingConfidence(score(s))))
  }

  /** The loop body as a function of the span alone. */
  function CandidateOf(minLen: nat, maxLen: nat, u: Unicode, score: LegacySpan -> real): LegacySpan -> Option<RawHeading> {
    s => Candidate(s, minLen, maxLen, u, score)
  }

  /** The raw headings of `_extract_headings`, in span order. */
  function Candidates(spans: seq<LegacySpan>, minLen: nat, maxLen: nat, u: Unicode, score: LegacySpan -> real): seq<RawHeading> {
    Collect(spans, CandidateOf(minLen, maxLen, u, score))
  }

  /** `_extract_headings` */
  function ExtractedHeadings(spans: seq<LegacySpan>, minLen: nat, maxLen: nat, u: Unicode, score: LegacySpan -> real): seq<Entry> {
    FilteredHeadings(Candidates(spans, minLen, maxLen, u, score))
  }

  /** `_extract_headings` */
  method ExtractHeadings(spans: seq<LegacySpan>, minLen: nat, maxLen: nat, u: Unicode, score: LegacySpan -> real)
    returns (headings: seq<Entry>)
    ensures headings == ExtractedHeadings(spans, minLen, maxLen, u, score)
  {
    var raw: seq<RawHeading> := [];
    for i := 0 to |spans|
      invariant raw == Collect(spans[..i], CandidateOf(minLen, maxLen, u, score))
    {
      var candidate := ExamineSpan(spans[i], minLen, maxLen, u, score);
      CollectSnoc(spans, i, CandidateOf(minLen, maxLen, u, score), candidate);
      if candidate.Some? {
        raw := raw + [candidate.value];
      }
    }
    assert spans[..|spans|] == spans;
    headings := FilterHeadings(raw);
  }

  /** The body of the loop of `_extract_headings` for one span. */
  method ExamineSpan(span: LegacySpan, minLen: nat, maxLen: nat, u: Unicode, score: LegacySpan -> real)
    returns (candidate: Option<RawHeading>)
    ensures candidate == Candidate(span, minLen, maxLen, u, score)
  {
    var text := SpanText(span);
    candidate := None;
    if minLen <= |text| <= maxLen {
      var level := ClassifyHeadingLevel(span.layout);
      if level.Some? {
        var clean := CleanHeadingText(text, u);
        if clean != "" {
          candidate := Some(RawHeading(level.value, clean, span.page, span.order, HeadingConfidence(score(span))));
        }
      }
    }
  }

  /**
   * What an emitted entry says about the span it came from: its text
   * length is within the bounds, the analyzer gives it the entry's level,
   * the entry's text is its non-empty clean text, the page is its page,
   * and its clamped confidence reaches 0.3.
   */
  ghost predicate Qualifies(s: LegacySpan, e: Entry, minLen: nat, maxLen: nat, u: Unicode, score: LegacySpan -> real) {
    minLen <= |SpanText(s)| <= maxLen
    && ClassifyHeadingLevel(s.layout) == Some(e.level)
    && e.text == ExtractCleanHeadingText(SpanText(s), u) && e.text != ""
    && e.page == s.page
    && HeadingConfidence(score(s)) >= MinConfidence
  }

  lemma CandidateQualifies(s: LegacySpan, h: RawHeading, minLen: nat, maxLen: nat, u: Unicode, score: LegacySpan -> real)
    requires Candidate(s, minLen, maxLen, u, score) == Some(h) && h.confidence >= MinConfidence
    ensures Qualifies(s, Project(h), minLen, maxLen, u, score)
  {
  }

  /**
   * `_extract_headings`: every emitted entry comes from a span that
   * qualifies for it, its level is H1, H2 or H3, and the filter's
   * guarantees hold (distinct texts, page order).
   */
  lemma ExtractedHeadingsProperties(spans: seq<LegacySpan>, minLen: nat, maxLen: nat, u: Unicode, score: LegacySpan -> real)
    ensures var r := ExtractedHeadings(spans, minLen, maxLen, u, score);
      forall k :: 0 <= k < |r| ==> exists i :: 0 <= i < |spans| && Qualifies(spans[i], r[k], minLen, maxLen, u, score)
    ensures var r := ExtractedHeadings(spans, minLen, maxLen, u, score);
      forall k :: 0 <= k < |r| ==> r[k].level == H1 || r[k].level == H2 || r[k].level == H3
    ensures var r := ExtractedHeadings(spans, minLen, maxLen, u, score);
      forall i, j :: 0 <= i < j < |r| ==> SeenText(r[i].text) != SeenText(r[j].text)
    ensures PagesSorted(ExtractedHeadings(spans, minLen, maxLen, u, score))
  {
    var hs := Candidates(spans, minLen, maxLen, u, score);
    var r := FilteredHeadings(hs);
    FilteredHeadingsProperties(hs);
    AllQualify(spans, minLen, maxLen, u, score, r);
  }

  /** Entries all drawn from the raw headings all come from spans that qualify for them. */
  lemma AllQualify(spans: seq<LegacySpan>, minLen: nat, maxLen: nat, u: Unicode, score: LegacySpan -> real, r: seq<Entry>)
    requires forall k :: 0 <= k < |r| ==> Drawn(Candidates(spans, minLen, maxLen, u, score), r[k])
    ensures forall k :: 0 <= k < |r| ==> QualifyingSpan(spans, r[k], minLen, maxLen, u, score)
    ensures forall k :: 0 <= k < |r| ==> r[k].level == H1 || r[k].level == H2 || r[k].level == H3
  {
    forall k | 0 <= k < |r|
      ensures QualifyingSpan(spans, r[k], minLen, maxLen, u, score)
      ensures r[k].level == H1 || r[k].level == H2 || r[k].level == H3
    {
      DrawnQualifies(spans, minLen, maxLen, u, score, r[k]);
    }
  }

  /** Some span qualifies for `e`. */
  ghost predicate QualifyingSpan(spans: seq<LegacySpan>, e: Entry, minLen: nat, maxLen: nat, u: Unicode, score: LegacySpan -> real) {
    exists i :: 0 <= i < |spans| && Qualifies(spans[i], e, minLen, maxLen, u, score)
  }

  /** An entry drawn from the raw headings comes from a span that qualifies for it. */
  lemma DrawnQualifies(spans: seq<LegacySpan>, minLen: nat, maxLen: nat, u: Unicode, score: LegacySpan -> real, e: Entry)
    requires Drawn(Candidates(spans, minLen, maxLen, u, score), e)
    ensures exists i :: 0 <= i < |spans| && Qualifies(spans[i], e, minLen, maxLen, u, score)
    ensures e.level == H1 || e.level == H2 || e.level == H3
  {
    var hs := Candidates(spans, minLen, maxLen, u, score);
    var j :| 0 <= j < |hs| && hs[j].confidence >= MinConfidence && e == Project(hs[j]);
    CollectMembers(spans, CandidateOf(minLen, maxLen, u, score));
    assert hs[j] in hs;
    var i :| 0 <= i < |spans| && CandidateOf(minLen, maxLen, u, score)(spans[i]) == Some(hs[j]);
    CandidateQualifies(spans[i], hs[j], minLen, maxLen, u, score);
    ClassifyRange(spans[i].layout);
  }
}
