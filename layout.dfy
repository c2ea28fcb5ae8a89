/**
 * The layout analyzer of the first extractor (`layout_utils.py`): the
 * indentation bucket, the size-ratio decision table for heading levels,
 * title detection on the first page, the structural pattern flags and the
 * reading order and column count of a page.
 *
 * Spans reach the analyzer as dictionaries; `size_ratio`, `width_ratio`
 * and `indent_level` are absent when the page had no font sizes, and the
 * source reads them with `.get` and a default, so they are optional here.
 */
module Layout {
  import opened Options
  import opened Text
  import opened Sorting
  import opened Records
  import opened Lists
  import opened Heuristics

  datatype LayoutSpan = LayoutSpan(
    text: string,
    x: real,
    y: real,
    sizeRatio: Option<real>,
    widthRatio: Option<real>,
    indentLevel: Option<nat>)

  /** The analyzer's default thresholds. */
  const MinH1Ratio: real := 1.5
  const MinH2Ratio: real := 1.3
  const MinH3Ratio: real := 1.1
  const TitleWidthThreshold: real := 0.8

  // ----- _calculate_indent_level -----

  /** `_calculate_indent_level` */
  function IndentLevel(x: real): (n: nat)
    ensures n <= 3
  {
    if x < 50.0 then 0 else if x < 100.0 then 1 else if x < 150.0 then 2 else 3
  }

  function Clamp(n: int, lo: int, hi: int): int {
    if n < lo then lo else if n > hi then hi else n
  }

  /** The indentation level is the 50-point band the position falls in, clamped to 0..3. */
  lemma IndentLevelIsBand(x: real)
    ensures IndentLevel(x) == Clamp((x / 50.0).Floor, 0, 3)
  {
    var f := (x / 50.0).Floor;
    assert f as real <= x / 50.0 < f as real + 1.0;
  }

  // ----- classify_heading_level -----

  /** `numbering_pattern.match(text)`: a number, letter or roman-numeral marker followed by whitespace. */
  predicate LayoutNumbered(text: string) {
    var t := LStrip(text);
    NumberMarker(t) || LetterMarker(t) || RomanMarker(t)
  }

  predicate IsLayoutBulletChar(c: char) {
    c == '-' || c == '•' || c == '‣' || c == '⁃' || c == '▪' || c == '▫' || c == '◦'
    || c == '‰' || c == '‱' || c == '*' || c == '+' || c == '»'
  }

  /** `bullet_pattern.match(text)`: a bullet character followed by whitespace. */
  predicate LayoutBulleted(text: string) {
    var t := LStrip(text);
    |t| > 1 && IsLayoutBulletChar(t[0]) && IsSpace(t[1])
  }

  /** The size-ratio decision table of `classify_heading_level` for a stripped text of `length` characters. */
  function LevelFor(ratio: real, indent: nat, numbered: bool, bulleted: bool, length: nat): Option<string> {
    if ratio >= MinH1Ratio then
      Some(if indent == 0 || numbered then H1 else if indent == 1 then H2 else H3)
    else if ratio >= MinH2Ratio then
      Some(if indent <= 1 && (numbered || !bulleted) then H2 else H3)
    else if ratio >= MinH3Ratio then
      if numbered || (indent <= 2 && length > 10) then Some(H3) else None
    else None
  }

  /** `classify_heading_level` */
  function ClassifyHeadingLevel(s: LayoutSpan): Option<string> {
    var text := Strip(s.text);
    if |text| < 2 then None
    else LevelFor(GetOr(s.sizeRatio, 1.0), GetOr(s.indentLevel, 0), LayoutNumbered(text), LayoutBulleted(text), |text|)
  }

  lemma LevelForRange(ratio: real, indent: nat, numbered: bool, bulleted: bool, length: nat)
    ensures var r := LevelFor(ratio, indent, numbered, bulleted, length);
      (r.Some? ==> (r.value == H1 || r.value == H2 || r.value == H3) && ratio >= MinH3Ratio)
      && (ratio >= MinH2Ratio ==> r.Some?)
      && (r == Some(H1) ==> ratio >= MinH1Ratio)
  {
    LevelsDistinct();
  }

  /**
   * The classifier only answers H1, H2 or H3; it answers for a text of two
   * characters or more exactly from a ratio of 1.3, possibly from 1.1 and
   * never below; H1 needs a ratio of 1.5.
   */
  lemma ClassifyRange(s: LayoutSpan)
    ensures var r := ClassifyHeadingLevel(s);
      var ratio := GetOr(s.sizeRatio, 1.0);
      (r.Some? ==> (r.value == H1 || r.value == H2 || r.value == H3) && |Strip(s.text)| >= 2 && ratio >= MinH3Ratio)
      && (|Strip(s.text)| >= 2 && ratio >= MinH2Ratio ==> r.Some?)
      && (r == Some(H1) ==> ratio >= MinH1Ratio)
  {
    var text := Strip(s.text);
    LevelForRange(GetOr(s.sizeRatio, 1.0), GetOr(s.indentLevel, 0), LayoutNumbered(text), LayoutBulleted(text), |text|);
  }

  lemma LevelForRatioMonotone(r1: real, r2: real, indent: nat, numbered: bool, bulleted: bool, length: nat)
    requires r1 <= r2
    ensures var c1 := LevelFor(r1, indent, numbered, bulleted, length);
      var c2 := LevelFor(r2, indent, numbered, bulleted, length);
      c1.Some? ==> c2.Some? && Rank(c2.value) <= Rank(c1.value)
  {
    LevelsDistinct();
  }

  /**
   * A larger size ratio never lowers the level: whatever is a heading
   * stays one, at the same or a higher level.
   */
  lemma ClassifyRatioMonotone(s: LayoutSpan, r1: real, r2: real)
    requires r1 <= r2
    ensures var c1 := ClassifyHeadingLevel(s.(sizeRatio := Some(r1)));
      var c2 := ClassifyHeadingLevel(s.(sizeRatio := Some(r2)));
      c1.Some? ==> c2.Some? && Rank(c2.value) <= Rank(c1.value)
  {
    var text := Strip(s.text);
    LevelForRatioMonotone(r1, r2, GetOr(s.indentLevel, 0), LayoutNumbered(text), LayoutBulleted(text), |text|);
  }

  lemma LevelForIndentMonotone(ratio: real, i1: nat, i2: nat, numbered: bool, bulleted: bool, length: nat)
    requires i1 <= i2
    ensures var c1 := LevelFor(ratio, i1, numbered, bulleted, length);
      var c2 := LevelFor(ratio, i2, numbered, bulleted, length);
      c1.Some? && c2.Some? ==> Rank(c1.value) <= Rank(c2.value)
  {
    LevelsDistinct();
  }

  /** Deeper indentation never raises the level of a text that stays a heading. */
  lemma ClassifyIndentMonotone(s: LayoutSpan, i1: nat, i2: nat)
    requires i1 <= i2
    ensures var c1 := ClassifyHeadingLevel(s.(indentLevel := Some(i1)));
      var c2 := ClassifyHeadingLevel(s.(indentLevel := Some(i2)));
      c1.Some? && c2.Some? ==> Rank(c1.value) <= Rank(c2.value)
  {
    var text := Strip(s.text);
    LevelForIndentMonotone(GetOr(s.sizeRatio, 1.0), i1, i2, LayoutNumbered(text), LayoutBulleted(text), |text|);
  }

  // ----- detect_title -----

  /** A span that may be the title: large, wide, near the top and of reasonable length. */
  predicate TitleCandidate(s: LayoutSpan) {
    GetOr(s.sizeRatio, 1.0) >= MinH1Ratio && GetOr(s.widthRatio, 0.0) >= TitleWidthThreshold
    && s.y < 200.0 && 5 < |Strip(s.text)| < 200
  }

  predicate PlausibleLength(s: LayoutSpan) { 5 < |Strip(s.text)| < 200 }

  /** The `(text, size_ratio, y)` tuple of a candidate. */
  datatype TitleChoice = TitleChoice(text: string, ratio: real, y: real)

  function ToChoice(s: LayoutSpan): TitleChoice {
    TitleChoice(Strip(s.text), GetOr(s.sizeRatio, 1.0), s.y)
  }

  /** `key=(size_ratio, -y), reverse=True`: larger ratio first, then the higher span, stably. */
  function ChoiceKey(c: TitleChoice): seq<real> { [-c.ratio, c.y] }

  /** The fallback sorts by `size_ratio` with a default of 0, descending and stably. */
  function FallbackKey(s: LayoutSpan): seq<real> { [-GetOr(s.sizeRatio, 0.0)] }

  /** `sorted(spans, key=size_ratio, reverse=True)[:3]` */
  function Largest(spans: seq<LayoutSpan>): seq<LayoutSpan> {
    Take(SortBy(spans, FallbackKey), 3)
  }

  function StrippedOf(o: Option<LayoutSpan>): Option<string> {
    if o.Some? then Some(Strip(o.value.text)) else None
  }

  /** The `(text, size_ratio, y)` tuples of the candidates, in page order. */
  function Candidates(spans: seq<LayoutSpan>): seq<TitleChoice> {
    FilterMap(spans, TitleCandidate, ToChoice)
  }

  /** The fallback: the first of the three largest spans with a plausible length. */
  function FallbackTitle(spans: seq<LayoutSpan>): Option<string> {
    StrippedOf(Find(Largest(spans), PlausibleLength))
  }

  /** `detect_title` */
  function DetectTitle(spans: seq<LayoutSpan>, pageNum: int): Option<string> {
    if pageNum != 0 || |spans| == 0 then None
    else if |Candidates(spans)| == 0 then FallbackTitle(spans)
    else Some(SortBy(Candidates(spans), ChoiceKey)[0].text)
  }

  /** The search loop over the largest spans. */
  method FirstPlausible(largest: seq<LayoutSpan>) returns (title: Option<string>)
    ensures title == StrippedOf(Find(largest, PlausibleLength))
  {
    for i := 0 to |largest|
      invariant forall j :: 0 <= j < i ==> !PlausibleLength(largest[j])
    {
      var text := Strip(largest[i].text);
      if |text| > 5 && |text| < 200 {
        FindAt(largest, PlausibleLength, i);
        return Some(text);
      }
    }
    FindNone(largest, PlausibleLength);
    return None;
  }

  /** `detect_title` */
  method DetectTitleOnPage(spans: seq<LayoutSpan>, pageNum: int) returns (title: Option<string>)
    ensures title == DetectTitle(spans, pageNum)
  {
    if pageNum != 0 {
      return None;
    }
    if |spans| == 0 {
      return None;
    }
    var candidates: seq<TitleChoice> := [];
    for i := 0 to |spans|
      invariant candidates == FilterMap(spans[..i], TitleCandidate, ToChoice)
    {
      FilterMapSnoc(spans, i, TitleCandidate, ToChoice);
      var span := spans[i];
      var text := Strip(span.text);
      var sizeRatio := GetOr(span.sizeRatio, 1.0);
      var widthRatio := GetOr(span.widthRatio, 0.0);
      if sizeRatio >= MinH1Ratio && widthRatio >= TitleWidthThreshold && span.y < 200.0
        && |text| > 5 && |text| < 200
      {
        candidates := candidates + [TitleChoice(text, sizeRatio, span.y)];
      }
    }
    assert spans[..|spans|] == spans;
    if |candidates| == 0 {
      title := FirstPlausible(Largest(spans));
      return;
    }
    candidates := SortBy(candidates, ChoiceKey);
    return Some(candidates[0].text);
  }

  /** The head of the candidate sort has the largest ratio, and the smallest `y` among equal ratios. */
  lemma BestChoice(cs: seq<TitleChoice>)
    requires |cs| > 0
    ensures SortBy(cs, ChoiceKey)[0] in cs
    ensures var best := SortBy(cs, ChoiceKey)[0];
      forall c :: c in cs ==> c.ratio < best.ratio || (c.ratio == best.ratio && best.y <= c.y)
  {
    SortByHead(cs, ChoiceKey);
    FirstMinIsFirstMin(cs, ChoiceKey);
    var best := cs[FirstMin(cs, ChoiceKey)];
    forall c | c in cs
      ensures c.ratio < best.ratio || (c.ratio == best.ratio && best.y <= c.y)
    {
      var j :| 0 <= j < |cs| && cs[j] == c;
      LexLePair(-best.ratio, best.y, -c.ratio, c.y);
    }
  }

  /**
   * Off the first page or without spans there is no title. When some span
   * qualifies as a candidate, the title is the stripped text of a
   * candidate with the largest size ratio, the highest one among equals.
   */
  lemma TitleIsBestCandidate(spans: seq<LayoutSpan>, pageNum: int)
    ensures pageNum != 0 || |spans| == 0 ==> DetectTitle(spans, pageNum) == None
    ensures pageNum == 0 && (exists i :: 0 <= i < |spans| && TitleCandidate(spans[i])) ==>
      exists i :: 0 <= i < |spans| && TitleCandidate(spans[i])
        && DetectTitle(spans, pageNum) == Some(Strip(spans[i].text))
        && forall j :: 0 <= j < |spans| && TitleCandidate(spans[j]) ==>
          (GetOr(spans[j].sizeRatio, 1.0) < GetOr(spans[i].sizeRatio, 1.0)
           || (GetOr(spans[j].sizeRatio, 1.0) == GetOr(spans[i].sizeRatio, 1.0) && spans[i].y <= spans[j].y))
  {
    if pageNum == 0 && exists i :: 0 <= i < |spans| && TitleCandidate(spans[i]) {
      var i := BestOfFiltered(spans, TitleCandidate);
      assert DetectTitle(spans, pageNum) == Some(Strip(spans[i].text));
    }
  }

  /** The head of the sorted choices of the spans `keep` accepts, as the index of its span. */
  lemma BestOfFiltered(spans: seq<LayoutSpan>, keep: LayoutSpan -> bool) returns (i: nat)
    requires exists i :: 0 <= i < |spans| && keep(spans[i])
    ensures i < |spans| && keep(spans[i])
    ensures |FilterMap(spans, keep, ToChoice)| > 0
    ensures SortBy(FilterMap(spans, keep, ToChoice), ChoiceKey)[0] == ToChoice(spans[i])
    ensures forall j :: 0 <= j < |spans| && keep(spans[j]) ==>
      (GetOr(spans[j].sizeRatio, 1.0) < GetOr(spans[i].sizeRatio, 1.0)
       || (GetOr(spans[j].sizeRatio, 1.0) == GetOr(spans[i].sizeRatio, 1.0) && spans[i].y <= spans[j].y))
  {
    var cs := FilterMap(spans, keep, ToChoice);
    SortedHead(spans, keep, ToChoice, ChoiceKey);
    FilterMapMembers(spans, keep, ToChoice);
    BestChoice(cs);
    i :| 0 <= i < |spans| && keep(spans[i]) && SortBy(cs, ChoiceKey)[0] == ToChoice(spans[i]);
    forall j | 0 <= j < |spans| && keep(spans[j])
      ensures GetOr(spans[j].sizeRatio, 1.0) < GetOr(spans[i].sizeRatio, 1.0)
        || (GetOr(spans[j].sizeRatio, 1.0) == GetOr(spans[i].sizeRatio, 1.0) && spans[i].y <= spans[j].y)
    {
      assert ToChoice(spans[j]) in cs;
    }
  }

  /** The span a search among the three largest finds outranks every other span the search accepts. */
  lemma LargestFound(spans: seq<LayoutSpan>, p: LayoutSpan -> bool, f: LayoutSpan)
    requires Find(Largest(spans), p) == Some(f)
    ensures f in spans && p(f)
    ensures forall y :: y in spans && GetOr(y.sizeRatio, 0.0) > GetOr(f.sizeRatio, 0.0) ==> !p(y)
  {
    FindInSortedPrefix(spans, FallbackKey, 3, p);
    forall y | y in spans && GetOr(y.sizeRatio, 0.0) > GetOr(f.sizeRatio, 0.0)
      ensures !p(y)
    {
      LexLeSingle(-GetOr(f.sizeRatio, 0.0), -GetOr(y.sizeRatio, 0.0));
    }
  }

  /**
   * Without candidates the title falls back to a span of plausible length
   * among the three with the largest ratio: every span with a larger ratio
   * is implausible, and when every span is plausible there is a title.
   */
  lemma FallbackChoice(spans: seq<LayoutSpan>)
    requires |spans| > 0 && forall i :: 0 <= i < |spans| ==> !TitleCandidate(spans[i])
    ensures DetectTitle(spans, 0).Some? ==>
      exists s :: s in spans && PlausibleLength(s) && DetectTitle(spans, 0) == Some(Strip(s.text))
        && (forall y :: y in spans && GetOr(y.sizeRatio, 0.0) > GetOr(s.sizeRatio, 0.0) ==> !PlausibleLength(y))
    ensures (forall i :: 0 <= i < |spans| ==> PlausibleLength(spans[i])) ==> DetectTitle(spans, 0).Some?
  {
    FilterMapNone(spans, TitleCandidate, ToChoice);
    var found := Find(Largest(spans), PlausibleLength);
    if found.Some? {
      LargestFound(spans, PlausibleLength, found.value);
      assert DetectTitle(spans, 0) == Some(Strip(found.value.text));
    } else {
      FindInSortedPrefix(spans, FallbackKey, 3, PlausibleLength);
      var sorted := SortBy(spans, FallbackKey);
      assert sorted[0] in multiset(spans);
    }
  }

  // ----- detect_structural_patterns -----

  /** `[^\w\s.-]` (ASCII word characters). */
  predicate IsSpecialChar(c: char) {
    !(IsWordChar(c) || IsSpace(c) || c == '.' || c == '-')
  }

  datatype StructuralPatterns = StructuralPatterns(
    hasNumbering: bool, hasBullet: bool, isAllCaps: bool, hasSpecialChars: bool)

  /** `detect_structural_patterns` */
  function DetectStructuralPatterns(text: string): StructuralPatterns {
    StructuralPatterns(
      LayoutNumbered(text),
      LayoutBulleted(text),
      IsUpperStr(text) && |text| > 3,
      exists i :: 0 <= i < |text| && IsSpecialChar(text[i]))
  }

  /** An all-caps text is changed by lower-casing, and a lower-cased text is never all caps. */
  lemma AllCapsLowers(text: string)
    ensures DetectStructuralPatterns(text).isAllCaps ==> Lower(text) != text && |text| > 3
    ensures !DetectStructuralPatterns(Lower(text)).isAllCaps
  {
    if IsUpperStr(text) {
      var i :| 0 <= i < |text| && IsUpperChar(text[i]);
      assert Lower(text)[i] != text[i];
    }
    assert forall i :: 0 <= i < |Lower(text)| ==> !IsUpperChar(Lower(text)[i]);
  }

  // ----- analyze_text_flow -----

  /** `analyze_text_flow`'s `reading_order` and `columns` (the density and ranges are not modelled). */
  datatype TextFlow = TextFlow(readingOrder: seq<string>, columns: nat)

  /** Reading order: top to bottom, then left to right. */
  function ReadingKey(s: LayoutSpan): seq<real> { [s.y, s.x] }

  function TextOf(s: LayoutSpan): string { s.text }
  function XOf(s: LayoutSpan): real { s.x }
  function RealKey(x: real): seq<real> { [x] }

  /** Drops every element equal to its predecessor; on a sorted list this is `sorted(set(xs))`. */
  function Uniq(s: seq<real>): (r: seq<real>)
    ensures |r| <= |s| && (|s| > 0 ==> |r| > 0 && r[|r| - 1] == s[|s| - 1])
  {
    if |s| <= 1 then s
    else
      var u := Uniq(s[..|s| - 1]);
      if s[|s| - 1] == s[|s| - 2] then u else u + [s[|s| - 1]]
  }

  /** The number of consecutive pairs more than 100 points apart. */
  function Gaps(u: seq<real>): nat {
    if |u| <= 1 then 0
    else Gaps(u[..|u| - 1]) + (if u[|u| - 1] - u[|u| - 2] > 100.0 then 1 else 0)
  }

  /** Extending the prefix by one position adds the gap before that position. */
  lemma GapsStep(u: seq<real>, i: nat)
    requires 0 < i < |u|
    ensures Gaps(u[..i + 1]) == Gaps(u[..i]) + (if u[i] - u[i - 1] > 100.0 then 1 else 0)
  {
    assert u[..i + 1][..i] == u[..i];
  }

  /** `sorted(set(x_positions))` */
  function UniqueX(spans: seq<LayoutSpan>): seq<real> {
    Uniq(SortBy(Map(spans, XOf), RealKey))
  }

  function TextFlowOf(spans: seq<LayoutSpan>): TextFlow {
    if |spans| == 0 then TextFlow([], 1)
    else TextFlow(Map(SortBy(spans, ReadingKey), TextOf), 1 + Gaps(UniqueX(spans)))
  }

  /** `analyze_text_flow` */
  method AnalyzeTextFlow(spans: seq<LayoutSpan>) returns (flow: TextFlow)
    ensures flow == TextFlowOf(spans)
  {
    if |spans| == 0 {
      return TextFlow([], 1);
    }
    var sorted := SortBy(spans, ReadingKey);
    var uniqueX := Uniq(SortBy(Map(spans, XOf), RealKey));
    var columns := 1;
    if |uniqueX| > 1 {
      for i := 1 to |uniqueX|
        invariant columns == 1 + Gaps(uniqueX[..i])
      {
        GapsStep(uniqueX, i);
        if uniqueX[i] - uniqueX[i - 1] > 100.0 {
          columns := columns + 1;
        }
      }
      assert uniqueX[..|uniqueX|] == uniqueX;
    }
    flow := TextFlow(Map(sorted, TextOf), columns);
  }

  /** Dropping repeated neighbours keeps exactly the same values. */
  lemma {:induction false} UniqMembers(s: seq<real>)
    ensures forall x :: x in Uniq(s) <==> x in s
  {
    if |s| > 1 {
      var init := s[..|s| - 1];
      var last := s[|s| - 1];
      UniqMembers(init);
      assert s == init + [last];
      assert Uniq(s) == if last == init[|init| - 1] then Uniq(init) else Uniq(init) + [last];
      assert init[|init| - 1] in init;
    }
  }

  /** On a non-decreasing list, dropping repeated neighbours leaves a strictly increasing one. */
  lemma {:induction false} UniqIncreasing(s: seq<real>)
    requires forall i, j :: 0 <= i < j < |s| ==> s[i] <= s[j]
    ensures forall i, j :: 0 <= i < j < |Uniq(s)| ==> Uniq(s)[i] < Uniq(s)[j]
  {
    if |s| > 1 {
      var init := s[..|s| - 1];
      UniqIncreasing(init);
      UniqMembers(init);
      var u := Uniq(init);
      if s[|s| - 1] != s[|s| - 2] {
        forall i | 0 <= i < |u|
          ensures u[i] < s[|s| - 1]
        {
          assert u[i] in init;
        }
      }
    }
  }

  /** Repeated neighbours are 0 apart, so dropping them does not change the gap count. */
  lemma {:induction false} GapsUniq(s: seq<real>)
    ensures Gaps(Uniq(s)) == Gaps(s)
  {
    if |s| > 1 {
      var init := s[..|s| - 1];
      GapsUniq(init);
      var u := Uniq(init);
      if s[|s| - 1] != s[|s| - 2] {
        assert (u + [s[|s| - 1]])[..|u|] == u;
      }
    }
  }

  lemma {:induction false} GapsBound(u: seq<real>)
    ensures |u| > 0 ==> Gaps(u) < |u|
  {
    if |u| > 1 {
      GapsBound(u[..|u| - 1]);
    }
  }

  /**
   * The column count is one more than the number of gaps over 100 points
   * between the distinct x positions taken in increasing order (and
   * equally between all x positions sorted); it lies between 1 and the
   * number of distinct positions.
   */
  lemma ColumnsCountGaps(spans: seq<LayoutSpan>)
    requires |spans| > 0
    ensures forall x :: x in UniqueX(spans) <==> exists i :: 0 <= i < |spans| && spans[i].x == x
    ensures forall i, j :: 0 <= i < j < |UniqueX(spans)| ==> UniqueX(spans)[i] < UniqueX(spans)[j]
    ensures TextFlowOf(spans).columns == 1 + Gaps(SortBy(Map(spans, XOf), RealKey))
    ensures 1 <= TextFlowOf(spans).columns <= |UniqueX(spans)|
  {
    UniqueXMembers(spans);
    UniqueXIncreasing(spans);
    ColumnsOfGaps(spans);
  }

  /** The distinct positions are exactly the spans' `x` values. */
  lemma UniqueXMembers(spans: seq<LayoutSpan>)
    ensures forall x :: x in UniqueX(spans) <==> exists i :: 0 <= i < |spans| && spans[i].x == x
  {
    var xs := Map(spans, XOf);
    var sorted := SortBy(xs, RealKey);
    UniqMembers(sorted);
    assert forall x :: x in sorted <==> x in multiset(xs);
  }

  /** The distinct positions come in strictly increasing order. */
  lemma UniqueXIncreasing(spans: seq<LayoutSpan>)
    ensures forall i, j :: 0 <= i < j < |UniqueX(spans)| ==> UniqueX(spans)[i] < UniqueX(spans)[j]
  {
    var xs := Map(spans, XOf);
    var sorted := SortBy(xs, RealKey);
    SortBySorted(xs, RealKey);
    forall i, j | 0 <= i < j < |sorted|
      ensures sorted[i] <= sorted[j]
    {
      LexLeSingle(sorted[i], sorted[j]);
    }
    UniqIncreasing(sorted);
  }

  /** The column count is one more than the wide gaps, and at most the number of distinct positions. */
  lemma ColumnsOfGaps(spans: seq<LayoutSpan>)
    requires |spans| > 0
    ensures TextFlowOf(spans).columns == 1 + Gaps(SortBy(Map(spans, XOf), RealKey))
    ensures 1 <= TextFlowOf(spans).columns <= |UniqueX(spans)|
  {
    var sorted := SortBy(Map(spans, XOf), RealKey);
    GapsUniq(sorted);
    GapsBound(Uniq(sorted));
  }


  /** The reading order lists every span's text once: it is a permutation of the texts. */
  lemma ReadingOrderPermutes(spans: seq<LayoutSpan>)
    ensures multiset(TextFlowOf(spans).readingOrder) == multiset(Map(spans, TextOf))
  {
    if |spans| > 0 {
      MapPermutation(SortBy(spans, ReadingKey), spans, TextOf);
    }
  }
}
