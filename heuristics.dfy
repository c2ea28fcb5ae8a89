/**
 * The rule-based helpers of the extractor that its tests exercise
 * directly: the numbering and bullet markers, the heading-shape test, the
 * font-size and indentation level decision, the text cleaner, the
 * duplicate filter with its page sort, and the left-position grouping.
 */
module Heuristics {
  import opened Options
  import opened Text
  import opened Sorting
  import opened Records
  import opened Lists
  import opened Grouping
  import opened FormFields
  import opened Finalize

  // ----- _has_numbering_or_bullets -----

  /** `\.?\s+` at index `i`: a whitespace character, or a dot followed by one. */
  predicate DotThenSpace(t: string, i: nat) {
    (i < |t| && IsSpace(t[i])) || (i + 1 < |t| && t[i] == '.' && IsSpace(t[i + 1]))
  }

  /** The index just after `n` dot-separated runs of digits at the start of `t` (`\d+(\.\d+)*`), if they are there. */
  function NumberEnd(t: string, n: nat): (r: Option<nat>)
    requires n > 0
    ensures r.Some? ==> 0 < r.value <= |t|
    decreases n
  {
    if n == 1 then
      var d := LeadingCount(t, IsDigit);
      if d > 0 then Some(d) else None
    else
      match NumberEnd(t, n - 1)
      case None => None
      case Some(e) =>
        if e < |t| && t[e] == '.' then
          var m := LeadingCount(t[e + 1..], IsDigit);
          if m > 0 then Some(e + 1 + m) else None
        else None
  }

  /** `\d+\.?\s+`, `\d+\.\d+\.?\s+` or `\d+\.\d+\.\d+\.?\s+` at the start of `t`. */
  predicate NumberMarker(t: string) {
    exists n :: 1 <= n <= 3 && NumberEnd(t, n).Some? && DotThenSpace(t, NumberEnd(t, n).value)
  }

  /** `[a-zA-Z]\.?\s+` */
  predicate LetterMarker(t: string) {
    |t| > 0 && IsAsciiLetter(t[0]) && DotThenSpace(t, 1)
  }

  predicate IsRomanDigit(c: char) {
    c == 'i' || c == 'v' || c == 'x' || c == 'l' || c == 'c' || c == 'd' || c == 'm'
  }

  /** `[ivxlcdm]+\.?\s+`, ignoring case. */
  predicate RomanMarker(t: string) {
    var r := LeadingCount(Lower(t), IsRomanDigit);
    r > 0 && DotThenSpace(t, r)
  }

  predicate IsBulletChar(c: char) {
    c == '•' || c == '‣' || c == '◦' || c == '⁃' || c == '∙' || c == '-' || c == '*'
  }

  /** `[•‣◦⁃∙\-\*]\s+` */
  predicate BulletMarker(t: string) {
    |t| > 1 && IsBulletChar(t[0]) && IsSpace(t[1])
  }

  /**
   * `_has_numbering_or_bullets`: one of the numbering patterns matches at
   * the start. Each pattern opens with `\s*` and continues with a
   * non-space character, so it matches exactly when the rest of the
   * pattern matches the left-stripped text.
   */
  predicate HasNumberingOrBullets(text: string) {
    var t := LStrip(text);
    |text| > 0 && (NumberMarker(t) || LetterMarker(t) || RomanMarker(t) || BulletMarker(t))
  }

  /** Every marker is followed by whitespace, so a single word never counts as numbered. */
  lemma MarkerNeedsSpace(text: string)
    requires HasNumberingOrBullets(text)
    ensures exists i :: 0 < i < |LStrip(text)| && IsSpace(LStrip(text)[i])
  {
    var t := LStrip(text);
    if NumberMarker(t) {
      var n :| 1 <= n <= 3 && NumberEnd(t, n).Some? && DotThenSpace(t, NumberEnd(t, n).value);
      var e := NumberEnd(t, n).value;
      if e < |t| && IsSpace(t[e]) {
        assert IsSpace(t[e]);
      } else {
        assert IsSpace(t[e + 1]);
      }
    } else if LetterMarker(t) {
      if IsSpace(t[1]) {
        assert IsSpace(t[1]);
      } else {
        assert IsSpace(t[2]);
      }
    } else if RomanMarker(t) {
      var r := LeadingCount(Lower(t), IsRomanDigit);
      if r < |t| && IsSpace(t[r]) {
        assert IsSpace(t[r]);
      } else {
        assert IsSpace(t[r + 1]);
      }
    } else {
      assert IsSpace(t[1]);
    }
  }

  /** A text without inner whitespace has no marker. */
  lemma MarkerNeedsSpaceContra(text: string)
    requires forall i :: 0 <= i < |LStrip(text)| ==> !IsSpace(LStrip(text)[i])
    ensures !HasNumberingOrBullets(text)
  {
    if HasNumberingOrBullets(text) {
      MarkerNeedsSpace(text);
    }
  }

  // ----- _looks_like_heading -----

  /** `[A-Z][A-Z\s]+$`: an upper-case letter followed by upper-case letters and whitespace only. */
  predicate AllCapsLine(t: string) {
    |t| >= 2 && IsUpperChar(t[0]) && forall i :: 1 <= i < |t| ==> IsUpperChar(t[i]) || IsSpace(t[i])
  }

  /** `\d+\.?\s+[A-Z]` */
  predicate NumberedSection(t: string) {
    var d := LeadingCount(t, IsDigit);
    var j := if d < |t| && t[d] == '.' then d + 1 else d;
    var a := LeadingCount(t[j..], IsSpace);
    d > 0 && a > 0 && j + a < |t| && IsUpperChar(t[j + a])
  }

  /** What follows the word `w` and at least one whitespace character at the start of `tl` (`w\s+`). */
  function AfterWord(tl: string, w: string): Option<string> {
    if StartsWith(tl, w) then
      var a := LeadingCount(tl[|w|..], IsSpace);
      if a > 0 then Some(tl[|w| + a..]) else None
    else None
  }

  /** `w\s+` followed by a character satisfying `p`. */
  predicate WordThen(tl: string, w: string, p: char -> bool) {
    var r := AfterWord(tl, w);
    r.Some? && |r.value| > 0 && p(r.value[0])
  }

  predicate IsPartNumeral(c: char) { c == 'i' || c == 'v' || c == 'x' || IsDigit(c) }

  /** `Table\s+of\s+Contents`, ignoring case. */
  predicate TableOfContents(tl: string) {
    var r := AfterWord(tl, "table");
    r.Some? && var s := AfterWord(r.value, "of"); s.Some? && StartsWith(s.value, "contents")
  }

  /** One of the heading patterns matches at the start of `text` (the case-insensitive ones on the lower-cased text). */
  predicate HeadingPattern(text: string) {
    var tl := Lower(text);
    AllCapsLine(text) || NumberedSection(text)
    || WordThen(tl, "chapter", IsDigit) || WordThen(tl, "section", IsDigit)
    || WordThen(tl, "part", IsPartNumeral) || WordThen(tl, "appendix", IsAsciiLetter)
    || TableOfContents(tl)
  }

  /** At least 70% of two or more words start with a capital. */
  predicate MostlyCapitalised(stripped: string) {
    var words := Words(stripped);
    |words| >= 2 && 10 * CapitalisedCount(words) >= 7 * |words|
  }

  /** At most 50 characters, not ending in '.' or ','. */
  predicate ShortUnpunctuated(stripped: string) {
    |stripped| <= 50 && !EndsWith(stripped, ".") && !EndsWith(stripped, ",")
  }

  /**
   * `_looks_like_heading`: a font at least the body size and two stripped
   * characters, and then a heading pattern, mostly capitalised words, or a
   * short text without closing punctuation.
   */
  predicate LooksLikeHeading(text: string, sizeRatio: real) {
    sizeRatio >= 1.0 && |Strip(text)| >= 2
    && (HeadingPattern(text) || MostlyCapitalised(Strip(text)) || ShortUnpunctuated(Strip(text)))
  }

  /** Every short text without closing punctuation at the body size or larger looks like a heading. */
  lemma ShortTextLooksLikeHeading(text: string, sizeRatio: real)
    requires sizeRatio >= 1.0 && 2 <= |Strip(text)| <= 50
    requires Strip(text)[|Strip(text)| - 1] != '.' && Strip(text)[|Strip(text)| - 1] != ','
    ensures LooksLikeHeading(text, sizeRatio)
  {
    var s := Strip(text);
    assert s[|s| - 1..] == [s[|s| - 1]];
  }

  // ----- _determine_heading_level -----

  /** The level the indentation gives when the font size decides nothing: H2 up to 20, H3 up to 40, H4 beyond. */
  function ByIndent(x: real): string {
    if x <= 20.0 then H2 else if x <= 40.0 then H3 else H4
  }

  /**
   * `_determine_heading_level` with the default thresholds (H1 from a size
   * ratio of 1.5, H2 from 1.3, H3 from 1.1; indentation limits 20 and 40).
   */
  function DetermineHeadingLevel(x: real, text: string, sizeRatio: real, hasNumbering: bool): Option<string> {
    if sizeRatio >= 1.5 then Some(H1)
    else if sizeRatio >= 1.3 then Some(if x <= 20.0 then H2 else H3)
    else if sizeRatio >= 1.1 then Some(if x <= 40.0 then H3 else H4)
    else if hasNumbering && sizeRatio >= 1.05 then Some(ByIndent(x))
    else if LooksLikeHeading(Strip(text), sizeRatio) then Some(ByIndent(x))
    else None
  }

  function Rank(level: string): nat {
    if level == H1 then 1 else if level == H2 then 2 else if level == H3 then 3 else 4
  }

  /** The decision gives H1 exactly from a size ratio of 1.5. */
  lemma H1ExactlyFromRatio(x: real, text: string, sizeRatio: real, hasNumbering: bool)
    ensures DetermineHeadingLevel(x, text, sizeRatio, hasNumbering) == Some(H1) <==> sizeRatio >= 1.5
  {
    LevelsDistinct();
  }

  /**
   * Below the body size nothing is a heading, from a ratio of 1.1 everything
   * is, and a heading gets one of H1 to H4.
   */
  lemma DetermineLevelRange(x: real, text: string, sizeRatio: real, hasNumbering: bool)
    ensures sizeRatio < 1.0 ==> DetermineHeadingLevel(x, text, sizeRatio, hasNumbering) == None
    ensures sizeRatio >= 1.1 ==> DetermineHeadingLevel(x, text, sizeRatio, hasNumbering).Some?
    ensures DetermineHeadingLevel(x, text, sizeRatio, hasNumbering).Some? ==>
      IsLevel(DetermineHeadingLevel(x, text, sizeRatio, hasNumbering).value)
  {
    if sizeRatio < 1.0 {
      assert !LooksLikeHeading(Strip(text), sizeRatio);
    }
    assert IsLevel(ByIndent(x));
  }

  /**
   * More indentation never yields a higher level: whether the text is a
   * heading does not depend on `x`, and the level rank grows with `x`.
   */
  lemma IndentMonotone(x1: real, x2: real, text: string, sizeRatio: real, hasNumbering: bool)
    requires x1 <= x2
    ensures var r1 := DetermineHeadingLevel(x1, text, sizeRatio, hasNumbering);
      var r2 := DetermineHeadingLevel(x2, text, sizeRatio, hasNumbering);
      r1.Some? == r2.Some? && (r1.Some? ==> Rank(r1.value) <= Rank(r2.value))
  {
    LevelsDistinct();
  }

  // ----- _clean_heading_text -----

  /** `_clean_heading_text` */
  function CleanHeadingText(text: string): (r: string)
    ensures r == Strip(r)
    ensures Strip(text) == r
  {
    StripIdempotent(text);
    if |text| == 0 then "" else Strip(text)
  }

  // ----- _filter_and_sort_headings -----

  /**
   * `_filter_and_sort_headings`: the first heading per key (lower-cased
   * stripped text, page) with at least three stripped characters, kept as
   * it is, then sorted by page, stably.
   */
  function FilterAndSort(headings: seq<Entry>): seq<Entry> {
    SortBy(Dedup({}, headings, KeyOf, LongEnough), EntryPageKey)
  }

  /** `_filter_and_sort_headings` */
  method FilterAndSortHeadings(headings: seq<Entry>) returns (result: seq<Entry>)
    ensures result == FilterAndSort(headings)
  {
    if |headings| == 0 {
      return [];
    }
    result := DedupLoop(headings, Identity, KeyOf, LongEnough);
    MapIdentity(headings);
    result := SortBy(result, EntryPageKey);
  }

  /** Left-stripping a heading changes neither its key nor its length test nor its page. */
  lemma CleanKeepsKey(h: Entry)
    ensures KeyOf(Clean(h)) == KeyOf(h) && LongEnough(Clean(h)) == LongEnough(h)
    ensures EntryPageKey(Clean(h)) == EntryPageKey(h)
  {
    LowerLStrip(h.text);
    StripOfLStrip(Lower(h.text));
    StripOfLStrip(h.text);
  }

  /**
   * The tested helper and `_finalize_headings` select the same headings:
   * left-stripping the helper's output gives exactly the finalized list.
   */
  lemma FilterAndSortIsFinalized(headings: seq<Entry>)
    ensures Map(FilterAndSort(headings), Clean) == Finalized(headings)
  {
    forall h ensures KeyOf(Clean(h)) == KeyOf(h) && LongEnough(Clean(h)) == LongEnough(h)
      && EntryPageKey(Clean(h)) == EntryPageKey(h)
    {
      CleanKeepsKey(h);
    }
    DedupMap({}, headings, KeyOf, LongEnough, Clean);
    SortByMap(Dedup({}, headings, KeyOf, LongEnough), EntryPageKey, Clean);
  }

  // ----- _group_by_left_position -----

  function XKey(s: Span): seq<real> { [s.x] }

  /** Same position group: `x` within 10 points of the group's first `x`. */
  predicate SamePosition(first: Span, s: Span) {
    -10.0 <= s.x - first.x <= 10.0
  }

  /** `min(span["x"] for span in group)` */
  function MinX(group: seq<Span>): (m: real)
    requires |group| > 0
    ensures forall i :: 0 <= i < |group| ==> m <= group[i].x
    ensures exists i :: 0 <= i < |group| && group[i].x == m
  {
    if |group| == 1 then group[0].x
    else
      var m := MinX(group[1..]);
      assert forall i :: 1 <= i < |group| ==> group[1..][i - 1] == group[i];
      if group[0].x <= m then group[0].x else m
  }

  function MinXKey(group: seq<Span>): seq<real> {
    if |group| == 0 then [] else [MinX(group)]
  }

  /** The groups `_group_by_left_position` returns. */
  function PositionGroups(spans: seq<Span>): seq<seq<Span>> {
    SortBy(Chunks(SortBy(spans, XKey), SamePosition), MinXKey)
  }

  /** `_group_by_left_position` */
  method GroupByLeftPosition(spans: seq<Span>) returns (groups: seq<seq<Span>>)
    ensures groups == PositionGroups(spans)
  {
    if |spans| == 0 {
      return [];
    }
    var sorted := SortBy(spans, XKey);
    groups := [];
    var current: seq<Span> := [];
    var currentX: Option<real> := None;
    for i := 0 to |sorted|
      invariant (|current| == 0) == (i == 0)
      invariant i == 0 ==> groups == [] && currentX == None
      invariant i > 0 ==> currentX == Some(current[0].x)
      invariant i > 0 ==> groups + ChunksFrom(current, sorted[i..], SamePosition) == Chunks(sorted, SamePosition)
    {
      var span := sorted[i];
      assert sorted[i..][0] == span && sorted[i..][1..] == sorted[i + 1..];
      if currentX == None || (-10.0 <= span.x - currentX.value <= 10.0) {
        if currentX == None {
          currentX := Some(span.x);
          assert current + [span] == [span];
        } else {
          ChunksFromExtend(current, sorted[i..], SamePosition);
          assert (current + [span])[0] == current[0];
        }
        current := current + [span];
      } else {
        ChunksFromClose(current, sorted[i..], SamePosition);
        assert (groups + [current]) + ChunksFrom([span], sorted[i + 1..], SamePosition)
          == groups + ChunksFrom(current, sorted[i..], SamePosition);
        groups := groups + [current];
        current := [span];
        currentX := Some(span.x);
      }
    }
    assert sorted[|sorted|..] == [];
    groups := groups + [current];
    groups := SortBy(groups, MinXKey);
  }

  /**
   * The groups are a clustering of the spans in order of `x`, and the final
   * sort by smallest `x` leaves them as they are: clustering a sorted list
   * already yields groups in that order.
   */
  lemma PositionGroupsInOrder(spans: seq<Span>)
    ensures PositionGroups(spans) == Chunks(SortBy(spans, XKey), SamePosition)
    ensures IsClustering(PositionGroups(spans), SortBy(spans, XKey), SamePosition)
    ensures forall k :: 0 <= k < |PositionGroups(spans)| ==>
      MinX(PositionGroups(spans)[k]) == PositionGroups(spans)[k][0].x
  {
    var sorted := SortBy(spans, XKey);
    SortBySorted(spans, XKey);
    forall i, j | 0 <= i < j < |sorted|
      ensures sorted[i].x <= sorted[j].x
    {
      LexLeSingle(sorted[i].x, sorted[j].x);
    }
    SortedChunksInOrder(sorted);
    ChunksClustering(sorted, SamePosition);
  }

  /** Clustering a list sorted by `x` gives groups headed by their smallest `x`, in order of it. */
  lemma SortedChunksInOrder(sorted: seq<Span>)
    requires forall i, j :: 0 <= i < j < |sorted| ==> sorted[i].x <= sorted[j].x
    ensures SortBy(Chunks(sorted, SamePosition), MinXKey) == Chunks(sorted, SamePosition)
    ensures forall k :: 0 <= k < |Chunks(sorted, SamePosition)| ==>
      MinX(Chunks(sorted, SamePosition)[k]) == Chunks(sorted, SamePosition)[k][0].x
  {
    var groups := Chunks(sorted, SamePosition);
    if |sorted| > 0 {
      assert [sorted[0]] + sorted[1..] == sorted;
      ChunksFromMonotone([sorted[0]], sorted[1..], SamePosition);
    }
    forall k | 0 <= k < |groups|
      ensures MinX(groups[k]) == groups[k][0].x
    {
      var g := groups[k];
      var i :| 0 <= i < |g| && g[i].x == MinX(g);
      assert g[0].x <= g[i].x;
    }
    forall k, l | 0 <= k < l < |groups|
      ensures LexLe(MinXKey(groups[k]), MinXKey(groups[l]))
    {
      LexLeSingle(MinX(groups[k]), MinX(groups[l]));
    }
    SortByIdentity(groups, MinXKey);
  }

  /**
   * Clustering a list in order of `x`: every group's first element has its
   * smallest `x`, no smaller than the open group's first, and the groups'
   * first elements come in order of `x`.
   */
  lemma {:induction false} ChunksFromMonotone(cur: seq<Span>, rest: seq<Span>, joins: (Span, Span) -> bool)
    requires |cur| > 0
    requires forall i, j :: 0 <= i < j < |cur + rest| ==> (cur + rest)[i].x <= (cur + rest)[j].x
    ensures forall k, j :: 0 <= k < |ChunksFrom(cur, rest, joins)| && 0 <= j < |ChunksFrom(cur, rest, joins)[k]| ==>
      cur[0].x <= ChunksFrom(cur, rest, joins)[k][0].x <= ChunksFrom(cur, rest, joins)[k][j].x
    ensures forall k, l :: 0 <= k < l < |ChunksFrom(cur, rest, joins)| ==>
      ChunksFrom(cur, rest, joins)[k][0].x <= ChunksFrom(cur, rest, joins)[l][0].x
    decreases |rest|
  {
    var s := cur + rest;
    forall j | 0 <= j < |cur|
      ensures cur[0].x <= cur[j].x
    {
      assert s[0] == cur[0] && s[j] == cur[j];
    }
    if |rest| == 0 {
      var r: seq<seq<Span>> := [cur];
      assert ChunksFrom(cur, rest, joins) == r;
    } else if joins(cur[0], rest[0]) {
      var c := cur + [rest[0]];
      assert c + rest[1..] == s;
      assert c[0] == cur[0];
      ChunksFromMonotone(c, rest[1..], joins);
    } else {
      var head: seq<Span> := [rest[0]];
      var tail: seq<seq<Span>> := ChunksFrom(head, rest[1..], joins);
      assert head + rest[1..] == rest;
      forall i, j | 0 <= i < j < |rest|
        ensures rest[i].x <= rest[j].x
      {
        assert rest[i] == s[|cur| + i] && rest[j] == s[|cur| + j];
      }
      ChunksFromMonotone(head, rest[1..], joins);
      assert head[0] == rest[0];
      assert cur[0].x <= rest[0].x by {
        assert s[0] == cur[0] && s[|cur|] == rest[0];
      }
      var r: seq<seq<Span>> := [cur] + tail;
      assert ChunksFrom(cur, rest, joins) == r;
      assert r[0] == cur;
      forall k, j | 0 <= k < |r| && 0 <= j < |r[k]|
        ensures cur[0].x <= r[k][0].x <= r[k][j].x
      {
        if k > 0 {
          assert r[k] == tail[k - 1];
          assert head[0].x <= tail[k - 1][0].x <= tail[k - 1][j].x;
        }
      }
      forall k, l | 0 <= k < l < |r|
        ensures r[k][0].x <= r[l][0].x
      {
        assert r[l] == tail[l - 1];
        assert head[0].x <= tail[l - 1][0].x;
        if k > 0 {
          assert r[k] == tail[k - 1];
        }
      }
    }
  }
}
