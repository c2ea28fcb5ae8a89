/**
 * The layout analyzer of the second extractor (`layout_utils_new.py`):
 * numbering and bullet patterns, clustering of left margins into common
 * indents, the heading test on size ratio, patterns and position, heading
 * text cleaning and the repair of heading-level sequences.
 */
module LayoutNew {
  import opened Options
  import opened Text
  import opened Sorting
  import opened Records
  import opened Lists
  import opened Heuristics
  import opened Layout
  import opened I18n
  import opened LineGrouping

  // ----- numbering_patterns -----

  /** The entries of `numbering_patterns`. */
  datatype NumberingPattern =
    | ArabicNumber   // ^\s*\d+\.?\s*
    | SingleLetter   // ^\s*[a-zA-Z]\.?\s*
    | LowerRoman     // ^\s*[ivxlcdm]+\.?\s*
    | UpperRoman     // ^\s*[IVXLCDM]+\.?\s*
    | Dash           // ^\s*[-•·]\s*
    | ParenNumber    // ^\s*\(\d+\)\s*
    | ParenLetter    // ^\s*\([a-zA-Z]\)\s*

  const NumberingPatterns: seq<NumberingPattern> :=
    [ArabicNumber, SingleLetter, LowerRoman, UpperRoman, Dash, ParenNumber, ParenLetter]

  predicate IsUpperRomanDigit(c: char) {
    c == 'I' || c == 'V' || c == 'X' || c == 'L' || c == 'C' || c == 'D' || c == 'M'
  }

  predicate IsDashChar(c: char) { c == '-' || c == '•' || c == '·' }

  /** The patterns whose marker may be followed by one dot. */
  predicate Dotted(p: NumberingPattern) {
    p == ArabicNumber || p == SingleLetter || p == LowerRoman || p == UpperRoman
  }

  /** The characters a marker of `p` can begin with. */
  predicate CanStart(p: NumberingPattern, c: char) {
    match p
    case ArabicNumber => IsDigit(c)
    case SingleLetter => IsAsciiLetter(c)
    case LowerRoman => IsRomanDigit(c)
    case UpperRoman => IsUpperRomanDigit(c)
    case Dash => IsDashChar(c)
    case ParenNumber => c == '('
    case ParenLetter => c == '('
  }

  /**
   * The length of the marker `p` matches at the start of `v` (a text
   * without leading blanks), not counting the optional dot and the blanks
   * after it; 0 when `p` does not match.
   */
  function MarkerLength(p: NumberingPattern, v: string): (k: nat)
    ensures k <= |v|
    ensures k > 0 ==> |v| > 0 && CanStart(p, v[0])
  {
    match p
    case ArabicNumber => LeadingCount(v, IsDigit)
    case SingleLetter => if |v| > 0 && IsAsciiLetter(v[0]) then 1 else 0
    case LowerRoman => LeadingCount(v, IsRomanDigit)
    case UpperRoman => LeadingCount(v, IsUpperRomanDigit)
    case Dash => if |v| > 0 && IsDashChar(v[0]) then 1 else 0
    case ParenNumber =>
      if |v| > 0 && v[0] == '(' then
        var d := LeadingCount(v[1..], IsDigit);
        if d > 0 && 1 + d < |v| && v[1 + d] == ')' then d + 2 else 0
      else 0
    case ParenLetter =>
      if |v| > 2 && v[0] == '(' && IsAsciiLetter(v[1]) && v[2] == ')' then 3 else 0
  }

  /** The text after a marker of length `k` at the start of `v`, its optional dot and the blanks after them. */
  function AfterMarker(v: string, k: nat, dotted: bool): (r: string)
    requires 0 < k <= |v|
    ensures IsSuffix(r, v) && |r| < |v|
  {
    var after := v[k..];
    var undotted := if dotted then SkipDot(after) else after;
    var rest := LStrip(undotted);
    assert |rest| <= |undotted| <= |after| < |v|;
    DropSuffix(v, k);
    SuffixTrans(undotted, after, v);
    SuffixTrans(rest, undotted, v);
    rest
  }

  /** What follows the match of `p` at the start of `t`, if `p` matches there (`re.match`). */
  function MatchRest(p: NumberingPattern, t: string): (r: Option<string>)
    ensures r.Some? ==> IsSuffix(r.value, t) && |r.value| < |t|
  {
    var v := LStrip(t);
    var k := MarkerLength(p, v);
    if k == 0 then None
    else
      var rest := AfterMarker(v, k, Dotted(p));
      SuffixTrans(rest, v, t);
      Some(rest)
  }

  /** `pattern.match(text)` */
  predicate Matches(p: NumberingPattern, t: string) {
    MarkerLength(p, LStrip(t)) > 0
  }

  /** `any(pattern.match(text) for pattern in patterns)` */
  predicate AnyMatches(ps: seq<NumberingPattern>, t: string) {
    exists i :: 0 <= i < |ps| && Matches(ps[i], t)
  }

  // ----- has_numbering_or_bullets -----

  /**
   * `has_numbering_or_bullets`; `patterns` is the analyzer's compiled
   * pattern list, which its constructor sets to `NumberingPatterns`.
   */
  predicate HasNumberingOrBullets(patterns: seq<NumberingPattern>, text: string) {
    |text| > 0 && AnyMatches(patterns, text)
  }

  /** `has_numbering_or_bullets` */
  method CheckNumberingOrBullets(patterns: seq<NumberingPattern>, text: string) returns (found: bool)
    ensures found == HasNumberingOrBullets(patterns, text)
  {
    if |text| == 0 {
      return false;
    }
    for i := 0 to |patterns|
      invariant !AnyMatches(patterns[..i], text)
    {
      var matched := Matches(patterns[i], text);
      if matched {
        MatchAt(patterns, i, text);
        return true;
      }
      NoMatchStep(patterns, i, text);
    }
    assert patterns[..|patterns|] == patterns;
    return false;
  }

  lemma MatchAt(ps: seq<NumberingPattern>, i: nat, text: string)
    requires i < |ps| && Matches(ps[i], text)
    ensures AnyMatches(ps, text)
  {
  }

  /** No pattern among the first `i + 1` matches when none of the first `i` does and the next one does not. */
  lemma NoMatchStep(ps: seq<NumberingPattern>, i: nat, text: string)
    requires i < |ps| && !AnyMatches(ps[..i], text) && !Matches(ps[i], text)
    ensures !AnyMatches(ps[..i + 1], text)
  {
    assert forall j :: 0 <= j < i ==> ps[..i + 1][j] == ps[..i][j];
  }

  /**
   * The single-letter pattern matches any word: a text is numbered or
   * bulleted exactly when its first non-blank character is an ASCII
   * letter or digit, a dash or bullet, or an opening parenthesis that
   * starts `(n)` or `(a)`.
   */
  lemma NumberingIff(text: string)
    ensures var v := LStrip(text);
      HasNumberingOrBullets(NumberingPatterns, text) <==>
        |v| > 0 && (IsAsciiLetter(v[0]) || IsDigit(v[0]) || IsDashChar(v[0])
                    || Matches(ParenNumber, text) || Matches(ParenLetter, text))
  {
    if Unmarked(text) {
      NoneMatches(NumberingPatterns, text);
    } else {
      MarkedMatches(text);
    }
  }

  lemma MarkedMatches(text: string)
    requires !Unmarked(text)
    ensures HasNumberingOrBullets(NumberingPatterns, text)
  {
    var v := LStrip(text);
    var p :=
      if IsAsciiLetter(v[0]) then SingleLetter
      else if IsDigit(v[0]) then ArabicNumber
      else if IsDashChar(v[0]) then Dash
      else if Matches(ParenNumber, text) then ParenNumber
      else ParenLetter;
    assert Matches(p, text);
    MatchesListed(NumberingPatterns, p, text);
  }

  lemma MatchesListed(ps: seq<NumberingPattern>, p: NumberingPattern, text: string)
    requires p in ps && Matches(p, text)
    ensures AnyMatches(ps, text)
  {
  }

  /** The first non-blank character of `text` begins no marker, and no parenthesised marker follows. */
  predicate Unmarked(text: string) {
    var v := LStrip(text);
    |v| == 0 || !(IsAsciiLetter(v[0]) || IsDigit(v[0]) || IsDashChar(v[0])
                  || Matches(ParenNumber, text) || Matches(ParenLetter, text))
  }

  /** A text whose first non-blank character starts no marker matches no pattern. */
  lemma NoneMatches(ps: seq<NumberingPattern>, text: string)
    requires Unmarked(text)
    ensures !AnyMatches(ps, text)
  {
    forall i | 0 <= i < |ps|
      ensures !Matches(ps[i], text)
    {
      NoMatch(ps[i], text);
    }
  }

  lemma NoMatch(p: NumberingPattern, text: string)
    requires Unmarked(text)
    ensures !Matches(p, text)
  {
    var v := LStrip(text);
    assert MarkerLength(p, v) > 0 ==> CanStart(p, v[0]);
  }

  // ----- _find_common_indents -----

  /** `sorted(set(margins))` */
  function Distinct(margins: seq<real>): seq<real> {
    Uniq(SortBy(margins, RealKey))
  }

  /** A group takes a margin within `tolerance` of its first member. */
  function Fits(margin: real, tolerance: real): seq<real> -> bool {
    (group: seq<real>) => |group| > 0 && Abs(group[0] - margin) <= tolerance
  }

  /** One step of the grouping loop: join the first group that fits, or open a new one. */
  function Place(groups: seq<seq<real>>, margin: real, tolerance: real): seq<seq<real>> {
    var k := FindIndex(groups, Fits(margin, tolerance));
    if k == -1 then groups + [[margin]] else groups[k := groups[k] + [margin]]
  }

  /** `indent_groups` after the grouping loop over `margins`. */
  function GroupAll(margins: seq<real>, tolerance: real): seq<seq<real>> {
    if |margins| == 0 then []
    else Place(GroupAll(margins[..|margins| - 1], tolerance), margins[|margins| - 1], tolerance)
  }

  /** `statistics.median` */
  function Median(group: seq<real>): real
    requires |group| > 0
  {
    var sorted := SortBy(group, RealKey);
    var n := |sorted|;
    if n % 2 == 1 then sorted[n / 2] else (sorted[n / 2 - 1] + sorted[n / 2]) / 2.0
  }

  predicate HasTwo(group: seq<real>) { |group| >= 2 }

  function GroupMedian(group: seq<real>): real {
    if |group| == 0 then 0.0 else Median(group)
  }

  /** `_find_common_indents` */
  function CommonIndents(margins: seq<real>, tolerance: real): seq<real> {
    if |margins| == 0 then []
    else SortBy(FilterMap(GroupAll(Distinct(margins), tolerance), HasTwo, GroupMedian), RealKey)
  }

  /** `_find_common_indents` */
  method FindCommonIndents(margins: seq<real>, tolerance: real) returns (indents: seq<real>)
    ensures indents == CommonIndents(margins, tolerance)
  {
    if |margins| == 0 {
      return [];
    }
    var groups := GroupMargins(Distinct(margins), tolerance);
    indents := [];
    for k := 0 to |groups|
      invariant indents == FilterMap(groups[..k], HasTwo, GroupMedian)
    {
      FilterMapSnoc(groups, k, HasTwo, GroupMedian);
      if |groups[k]| >= 2 {
        indents := indents + [Median(groups[k])];
      }
    }
    assert groups[..|groups|] == groups;
    indents := SortBy(indents, RealKey);
  }

  /** The grouping loop of `_find_common_indents`. */
  method GroupMargins(sortedMargins: seq<real>, tolerance: real) returns (groups: seq<seq<real>>)
    ensures groups == GroupAll(sortedMargins, tolerance)
  {
    groups := [];
    for i := 0 to |sortedMargins|
      invariant groups == GroupAll(sortedMargins[..i], tolerance)
    {
      GroupAllOk(sortedMargins[..i], tolerance);
      GroupAllSnoc(sortedMargins, i, tolerance);
      groups := PlaceMargin(groups, sortedMargins[i], tolerance);
    }
    assert sortedMargins[..|sortedMargins|] == sortedMargins;
  }

  /** One pass of the grouping loop: the search for a group that fits `margin`. */
  method PlaceMargin(groups: seq<seq<real>>, margin: real, tolerance: real) returns (placedGroups: seq<seq<real>>)
    requires forall k :: 0 <= k < |groups| ==> |groups[k]| > 0
    ensures placedGroups == Place(groups, margin, tolerance)
  {
    var j := 0;
    while j < |groups|
      invariant 0 <= j <= |groups|
      invariant forall k :: 0 <= k < j ==> !Fits(margin, tolerance)(groups[k])
    {
      if Abs(groups[j][0] - margin) <= tolerance {
        PlaceFound(groups, margin, tolerance, j);
        return groups[j := groups[j] + [margin]];
      }
      j := j + 1;
    }
    PlaceNotFound(groups, margin, tolerance);
    return groups + [[margin]];
  }

  lemma PlaceFound(groups: seq<seq<real>>, margin: real, tolerance: real, j: nat)
    requires j < |groups| && Fits(margin, tolerance)(groups[j])
    requires forall k :: 0 <= k < j ==> !Fits(margin, tolerance)(groups[k])
    ensures Place(groups, margin, tolerance) == groups[j := groups[j] + [margin]]
  {

  }

  lemma PlaceNotFound(groups: seq<seq<real>>, margin: real, tolerance: real)
    requires forall k :: 0 <= k < |groups| ==> !Fits(margin, tolerance)(groups[k])
    ensures Place(groups, margin, tolerance) == groups + [[margin]]
  {
  }

  lemma GroupAllSnoc(margins: seq<real>, i: nat, tolerance: real)
    requires i < |margins|
    ensures GroupAll(margins[..i + 1], tolerance) == Place(GroupAll(margins[..i], tolerance), margins[i], tolerance)
  {
    assert margins[..i + 1][..i] == margins[..i];
  }

  /**
   * What the grouping keeps: no group is empty, every member lies within
   * the tolerance of its group's first member, and the first members of
   * two groups lie further apart than the tolerance.
   */
  ghost predicate GroupsOk(groups: seq<seq<real>>, tolerance: real) {
    (forall i :: 0 <= i < |groups| ==> |groups[i]| > 0)
    && (forall i, k :: 0 <= i < |groups| && 0 < k < |groups[i]| ==> Abs(groups[i][0] - groups[i][k]) <= tolerance)
    && (forall i, j :: 0 <= i < j < |groups| ==> Abs(groups[i][0] - groups[j][0]) > tolerance)
  }

  lemma PlaceOk(groups: seq<seq<real>>, margin: real, tolerance: real)
    requires GroupsOk(groups, tolerance)
    ensures GroupsOk(Place(groups, margin, tolerance), tolerance)
  {
    var k := FindIndex(groups, Fits(margin, tolerance));
    if k == -1 {
      OpenGroupOk(groups, margin, tolerance);
    } else {
      JoinGroupOk(groups, k, margin, tolerance);
    }
  }

  /** A margin no group fits opens a group of its own. */
  lemma OpenGroupOk(groups: seq<seq<real>>, margin: real, tolerance: real)
    requires GroupsOk(groups, tolerance)
    requires forall i :: 0 <= i < |groups| ==> !Fits(margin, tolerance)(groups[i])
    ensures GroupsOk(groups + [[margin]], tolerance)
  {
    var r := groups + [[margin]];
    forall i, k | 0 <= i < |r| && 0 < k < |r[i]|
      ensures Abs(r[i][0] - r[i][k]) <= tolerance
    {
      assert r[i] == groups[i];
    }
    forall i, j | 0 <= i < j < |r|
      ensures Abs(r[i][0] - r[j][0]) > tolerance
    {
      if j == |groups| {
        assert !Fits(margin, tolerance)(groups[i]);
      } else {
        assert r[i] == groups[i] && r[j] == groups[j];
      }
    }
  }

  /** A margin joining a group it fits keeps the group's first member and stays within the tolerance. */
  lemma JoinGroupOk(groups: seq<seq<real>>, k: nat, margin: real, tolerance: real)
    requires GroupsOk(groups, tolerance) && k < |groups| && Fits(margin, tolerance)(groups[k])
    ensures GroupsOk(groups[k := groups[k] + [margin]], tolerance)
  {
    var r := groups[k := groups[k] + [margin]];
    assert r[k][0] == groups[k][0];
    forall j | 0 < j < |r[k]|
      ensures Abs(r[k][0] - r[k][j]) <= tolerance
    {
      if j < |groups[k]| {
        assert r[k][j] == groups[k][j];
      }
    }
  }

  /** The grouping loop keeps `GroupsOk`. */
  lemma {:induction false} GroupAllOk(margins: seq<real>, tolerance: real)
    ensures GroupsOk(GroupAll(margins, tolerance), tolerance)
  {
    if |margins| > 0 {
      GroupAllOk(margins[..|margins| - 1], tolerance);
      PlaceOk(GroupAll(margins[..|margins| - 1], tolerance), margins[|margins| - 1], tolerance);
    }
  }

  /** All groups one after the other. */
  function Flatten(groups: seq<seq<real>>): seq<real> {
    if |groups| == 0 then [] else Flatten(groups[..|groups| - 1]) + groups[|groups| - 1]
  }

  lemma {:induction false} FlattenExtend(groups: seq<seq<real>>, k: nat, margin: real)
    requires k < |groups|
    ensures multiset(Flatten(groups[k := groups[k] + [margin]])) == multiset(Flatten(groups)) + multiset{margin}
  {
    var r := groups[k := groups[k] + [margin]];
    var n := |groups|;
    var init := groups[..n - 1];
    assert Flatten(groups) == Flatten(init) + groups[n - 1];
    if k == n - 1 {
      assert r[..n - 1] == init;
      assert Flatten(r) == Flatten(init) + (groups[n - 1] + [margin]);
    } else {
      var rinit := init[k := init[k] + [margin]];
      assert r[..n - 1] == rinit;
      assert Flatten(r) == Flatten(rinit) + groups[n - 1];
      FlattenExtend(init, k, margin);
    }
  }

  lemma PlaceKeepsMargins(groups: seq<seq<real>>, margin: real, tolerance: real)
    ensures multiset(Flatten(Place(groups, margin, tolerance))) == multiset(Flatten(groups)) + multiset{margin}
  {
    var k := FindIndex(groups, Fits(margin, tolerance));
    if k == -1 {
      assert (groups + [[margin]])[..|groups|] == groups;
    } else {
      FlattenExtend(groups, k, margin);
    }
  }

  /** Every margin lands in exactly one group, and nothing else does. */
  lemma {:induction false} GroupAllKeepsMargins(margins: seq<real>, tolerance: real)
    ensures multiset(Flatten(GroupAll(margins, tolerance))) == multiset(margins)
  {
    if |margins| > 0 {
      var init := margins[..|margins| - 1];
      var last := margins[|margins| - 1];
      var g := GroupAll(init, tolerance);
      assert GroupAll(margins, tolerance) == Place(g, last, tolerance);
      GroupAllKeepsMargins(init, tolerance);
      PlaceKeepsMargins(g, last, tolerance);
      MarginsSnoc(margins);
    }
  }

  lemma MarginsSnoc(margins: seq<real>)
    requires |margins| > 0
    ensures multiset(margins) == multiset(margins[..|margins| - 1]) + multiset{margins[|margins| - 1]}
  {
    assert margins == margins[..|margins| - 1] + [margins[|margins| - 1]];
  }

  /** The median of a group lies within the tolerance of anything all its members lie within the tolerance of. */
  lemma MedianWithin(group: seq<real>, center: real, tolerance: real)
    requires |group| > 0
    requires forall x :: x in group ==> Abs(center - x) <= tolerance
    ensures Abs(center - Median(group)) <= tolerance
  {
    var sorted := SortBy(group, RealKey);
    var n := |sorted|;
    forall i | 0 <= i < n
      ensures Abs(center - sorted[i]) <= tolerance
    {
      assert sorted[i] in multiset(sorted);
      assert sorted[i] in group;
    }
  }

  /**
   * `_find_common_indents` answers, in ascending order, one indent per
   * group of at least two distinct margins, each within the tolerance of
   * its group's first margin; the groups hold every distinct margin once.
   */
  lemma CommonIndentsProperties(margins: seq<real>, tolerance: real)
    requires |margins| > 0
    ensures var groups := GroupAll(Distinct(margins), tolerance);
      var r := CommonIndents(margins, tolerance);
      GroupsOk(groups, tolerance)
      && multiset(Flatten(groups)) == multiset(Distinct(margins))
      && SortedBy(r, RealKey)
      && |r| == Count(groups, HasTwo)
      && forall k :: 0 <= k < |r| ==> NearGroup(groups, tolerance, r[k])
  {
    var groups := GroupAll(Distinct(margins), tolerance);
    var medians := FilterMap(groups, HasTwo, GroupMedian);
    var r := SortBy(medians, RealKey);
    GroupAllOk(Distinct(margins), tolerance);
    GroupAllKeepsMargins(Distinct(margins), tolerance);
    SortBySorted(medians, RealKey);
    FilterMapLength(groups, HasTwo, GroupMedian);
    IndentsNearGroups(groups, tolerance, medians);
    forall k | 0 <= k < |r|
      ensures NearGroup(groups, tolerance, r[k])
    {
      assert r[k] in multiset(r);
      assert r[k] in medians;
    }
  }

  /** `x` lies within the tolerance of the first member of a group of two or more. */
  ghost predicate NearGroup(groups: seq<seq<real>>, tolerance: real, x: real) {
    exists i :: 0 <= i < |groups| && |groups[i]| >= 2 && Abs(groups[i][0] - x) <= tolerance
  }

  /** Each median of a group of two or more lies within the tolerance of that group's first member. */
  lemma IndentsNearGroups(groups: seq<seq<real>>, tolerance: real, medians: seq<real>)
    requires GroupsOk(groups, tolerance)
    requires medians == FilterMap(groups, HasTwo, GroupMedian)
    ensures forall x :: x in medians ==> NearGroup(groups, tolerance, x)
  {
    FilterMapMembers(groups, HasTwo, GroupMedian);
    forall x | x in medians
      ensures NearGroup(groups, tolerance, x)
    {
      var i :| 0 <= i < |groups| && HasTwo(groups[i]) && x == GroupMedian(groups[i]);
      GroupNear(groups, tolerance, i);
    }
  }

  lemma GroupNear(groups: seq<seq<real>>, tolerance: real, i: nat)
    requires GroupsOk(groups, tolerance) && i < |groups| && |groups[i]| >= 2
    ensures NearGroup(groups, tolerance, GroupMedian(groups[i]))
  {
    var g := groups[i];
    assert Abs(g[0] - g[1]) <= tolerance;
    forall x | x in g
      ensures Abs(g[0] - x) <= tolerance
    {
      var k :| 0 <= k < |g| && g[k] == x;
    }
    MedianWithin(g, g[0], tolerance);
  }

  /** `sorted(set(margins))` holds each margin once, in ascending order. */
  lemma DistinctProperties(margins: seq<real>)
    ensures var d := Distinct(margins);
      (forall x :: x in d <==> x in margins) && forall i, j :: 0 <= i < j < |d| ==> d[i] < d[j]
  {
    var sorted := SortBy(margins, RealKey);
    UniqMembers(sorted);
    assert forall x :: x in sorted <==> x in multiset(margins);
    SortBySorted(margins, RealKey);
    forall i, j | 0 <= i < j < |sorted|
      ensures sorted[i] <= sorted[j]
    {
      LexLeSingle(sorted[i], sorted[j]);
    }
    UniqIncreasing(sorted);
  }

  /**
   * Margins are grouped after dropping repeats, so a page whose lines all
   * start at the same position has no common indent at all.
   */
  lemma SameMarginNoIndent(margins: seq<real>, tolerance: real)
    requires |margins| > 0 && forall i :: 0 <= i < |margins| ==> margins[i] == margins[0]
    ensures CommonIndents(margins, tolerance) == []
  {
    var sorted := SortBy(margins, RealKey);
    forall i | 0 <= i < |sorted|
      ensures sorted[i] == margins[0]
    {
      assert sorted[i] in multiset(margins);
    }
    UniqConstant(sorted, margins[0]);
    var d := Distinct(margins);
    assert d[..0] == [];
    assert GroupAll(d[..0], tolerance) == [];
    var groups := GroupAll(d, tolerance);
    assert groups == Place([], margins[0], tolerance);
    assert groups == [[margins[0]]];
    assert groups[..0] == [];
  }

  /** Dropping repeated neighbours from a run of one value leaves that value once. */
  lemma {:induction false} UniqConstant(s: seq<real>, c: real)
    requires |s| > 0 && forall i :: 0 <= i < |s| ==> s[i] == c
    ensures Uniq(s) == [c]
  {
    if |s| > 1 {
      UniqConstant(s[..|s| - 1], c);
    }
  }

  // ----- is_likely_heading -----

  /** The fields `is_likely_heading` reads from a span dictionary; each may be absent. */
  datatype SpanFields = SpanFields(text: Option<string>, fontSize: Option<real>, x: Option<real>)

  /** `min(common_indents)` */
  function SeqMin(s: seq<real>): (m: real)
    requires |s| > 0
    ensures m in s && forall i :: 0 <= i < |s| ==> m <= s[i]
  {
    if |s| == 1 then s[0]
    else
      var rest := SeqMin(s[..|s| - 1]);
      if s[|s| - 1] < rest then s[|s| - 1] else rest
  }

  /**
   * The decision of `is_likely_heading` once the text is known to be
   * non-empty and the font size positive: `indented` says that there are
   * common indents and the span lies more than 10 points right of the
   * smallest, `patterned` that the text is numbered, capitals or title case.
   */
  function LikelyLevel(ratio: real, indented: bool, patterned: bool, x: real): Option<string> {
    if ratio >= 1.5 then Some(H1)
    else if ratio >= 1.3 then Some(if indented then H3 else H2)
    else if ratio >= 1.1 then Some(H3)
    else if patterned && ratio >= 1.05 then Some(if x < 30.0 then H2 else H3)
    else None
  }

  /** `is_likely_heading`: `None` stands for `(False, None)` and `Some(level)` for `(True, level)`. */
  function IsLikelyHeading(patterns: seq<NumberingPattern>, span: SpanFields, pageAvgSize: real, commonIndents: Option<seq<real>>): Option<string> {
    var text := Strip(GetOr(span.text, ""));
    var fontSize := GetOr(span.fontSize, 0.0);
    var x := GetOr(span.x, 0.0);
    if |text| == 0 || fontSize <= 0.0 then None
    else
      var ratio := if pageAvgSize > 0.0 then fontSize / pageAvgSize else 1.0;
      var indents := GetOr(commonIndents, []);
      var patterned := HasNumberingOrBullets(patterns, text) || (IsUpperStr(text) && |text| > 3) || IsTitleStr(text);
      LikelyLevel(ratio, |indents| > 0 && x > SeqMin(indents) + 10.0, patterned, x)
  }

  /**
   * The decision answers H1, H2 or H3: H1 exactly from a ratio of 1.5, an
   * answer always from 1.1, and below 1.1 only for a patterned text with a
   * ratio of at least 1.05.
   */
  lemma LikelyLevelRange(ratio: real, indented: bool, patterned: bool, x: real)
    ensures var r := LikelyLevel(ratio, indented, patterned, x);
      (r.Some? ==> r.value == H1 || r.value == H2 || r.value == H3)
      && (r == Some(H1) <==> ratio >= 1.5)
      && (ratio >= 1.1 ==> r.Some?)
      && (r.Some? && ratio < 1.1 ==> patterned && ratio >= 1.05)
  {
    LevelsDistinct();
  }

  /**
   * A span without text, without a positive font size, or on a page whose
   * average size is unknown (ratio 1.0) is no heading; otherwise the
   * answer follows the size ratio as the decision table says.
   */
  lemma LikelyHeadingCases(patterns: seq<NumberingPattern>, span: SpanFields, pageAvgSize: real, commonIndents: Option<seq<real>>)
    ensures var r := IsLikelyHeading(patterns, span, pageAvgSize, commonIndents);
      var fontSize := GetOr(span.fontSize, 0.0);
      (|Strip(GetOr(span.text, ""))| == 0 || fontSize <= 0.0 || pageAvgSize <= 0.0 ==> r == None)
      && (r.Some? ==> r.value == H1 || r.value == H2 || r.value == H3)
      && (pageAvgSize > 0.0 && fontSize > 0.0 && |Strip(GetOr(span.text, ""))| > 0 ==>
            (r == Some(H1) <==> fontSize >= 1.5 * pageAvgSize)
            && (fontSize >= 1.1 * pageAvgSize ==> r.Some?))
  {
    var text := Strip(GetOr(span.text, ""));
    var fontSize := GetOr(span.fontSize, 0.0);
    if |text| > 0 && fontSize > 0.0 {
      var indents := GetOr(commonIndents, []);
      var x := GetOr(span.x, 0.0);
      var indented := |indents| > 0 && x > SeqMin(indents) + 10.0;
      var patterned := HasNumberingOrBullets(patterns, text) || (IsUpperStr(text) && |text| > 3) || IsTitleStr(text);
      assert IsLikelyHeading(patterns, span, pageAvgSize, commonIndents)
        == LikelyLevel(if pageAvgSize > 0.0 then fontSize / pageAvgSize else 1.0, indented, patterned, x);
      LikelyRatioCases(fontSize, pageAvgSize, indented, patterned, x);
    }
  }

  /** The decision table read on the font size and the page average rather than on their ratio. */
  lemma LikelyRatioCases(fontSize: real, pageAvgSize: real, indented: bool, patterned: bool, x: real)
    requires fontSize > 0.0
    ensures var r := LikelyLevel(if pageAvgSize > 0.0 then fontSize / pageAvgSize else 1.0, indented, patterned, x);
      (pageAvgSize <= 0.0 ==> r == None)
      && (r.Some? ==> r.value == H1 || r.value == H2 || r.value == H3)
      && (pageAvgSize > 0.0 ==>
            (r == Some(H1) <==> fontSize >= 1.5 * pageAvgSize)
            && (fontSize >= 1.1 * pageAvgSize ==> r.Some?))
  {
    var ratio := if pageAvgSize > 0.0 then fontSize / pageAvgSize else 1.0;
    LikelyLevelRange(ratio, indented, patterned, x);
    if pageAvgSize > 0.0 {
      QuotientAtLeast(fontSize, pageAvgSize, 1.5);
      QuotientAtLeast(fontSize, pageAvgSize, 1.1);
    }
  }

  /** A quotient reaches a constant exactly when the numerator reaches the scaled denominator. */
  lemma QuotientAtLeast(a: real, b: real, c: real)
    requires b > 0.0
    ensures a / b >= c <==> a >= c * b
  {
    var q := a / b;
    assert q * b == a;
    if q >= c {
      assert (q - c) * b >= 0.0;
    } else {
      assert (c - q) * b > 0.0;
    }
  }

  // ----- clean_heading_text -----

  predicate IsSpaceOrTab(c: char) { c == ' ' || c == '\t' }

  /** `re.sub(pattern, '', t)` for one anchored pattern. */
  function RemoveNumbering(p: NumberingPattern, t: string): (r: string)
    ensures IsSuffix(r, t)
  {
    var rest := MatchRest(p, t);
    if rest.Some? then rest.value else t
  }

  /** The substitutions of `ps`, one after the other. */
  function RemoveNumberings(ps: seq<NumberingPattern>, t: string): (r: string)
    ensures IsSuffix(r, t)
  {
    if |ps| == 0 then t
    else
      var before := RemoveNumberings(ps[..|ps| - 1], t);
      var r := RemoveNumbering(ps[|ps| - 1], before);
      SuffixTrans(r, before, t);
      r
  }

  /** `clean_heading_text` with the analyzer's compiled patterns. */
  function CleanHeadingText(patterns: seq<NumberingPattern>, text: string, preserveStructure: bool): string {
    if |text| == 0 then ""
    else
      var cleaned := Strip(CollapseRuns(text, IsSpaceOrTab));
      if preserveStructure then cleaned else Strip(RemoveNumberings(patterns, cleaned))
  }

  /** `clean_heading_text` */
  method CleanHeading(patterns: seq<NumberingPattern>, text: string, preserveStructure: bool) returns (cleaned: string)
    ensures cleaned == CleanHeadingText(patterns, text, preserveStructure)
  {
    if |text| == 0 {
      return "";
    }
    cleaned := Strip(CollapseRuns(text, IsSpaceOrTab));
    if !preserveStructure {
      var start := cleaned;
      for i := 0 to |patterns|
        invariant cleaned == RemoveNumberings(patterns[..i], start)
      {
        assert patterns[..i + 1][..i] == patterns[..i];
        cleaned := RemoveNumbering(patterns[i], cleaned);
      }
      assert patterns[..|patterns|] == patterns;
      cleaned := Strip(cleaned);
    }
  }

  /**
   * The cleaned text is stripped; keeping the structure it holds no tab
   * and no two neighbouring blanks, and removing the structure never
   * lengthens it.
   */
  lemma CleanHeadingShape(patterns: seq<NumberingPattern>, text: string, preserveStructure: bool)
    ensures Strip(CleanHeadingText(patterns, text, preserveStructure)) == CleanHeadingText(patterns, text, preserveStructure)
    ensures |CleanHeadingText(patterns, text, preserveStructure)| <= |CleanHeadingText(patterns, text, true)|
    ensures preserveStructure ==> NoAdjacent(CleanHeadingText(patterns, text, true), IsSpaceOrTab)
    ensures preserveStructure ==> forall k :: 0 <= k < |CleanHeadingText(patterns, text, true)| ==> CleanHeadingText(patterns, text, true)[k] != '\t'
  {
    if |text| > 0 {
      var cleaned := Strip(CollapseRuns(text, IsSpaceOrTab));
      assert CleanHeadingText(patterns, text, true) == cleaned;
      CollapseStripShape(text, IsSpaceOrTab);
      if !preserveStructure {
        StrippedRemoval(patterns, cleaned);
      }
    }
  }

  /** Removing the markers of a text and stripping gives a stripped text no longer than it. */
  lemma StrippedRemoval(patterns: seq<NumberingPattern>, cleaned: string)
    ensures Strip(Strip(RemoveNumberings(patterns, cleaned))) == Strip(RemoveNumberings(patterns, cleaned))
    ensures |Strip(RemoveNumberings(patterns, cleaned))| <= |cleaned|
  {
    StripIdempotent(RemoveNumberings(patterns, cleaned));
  }


  /**
   * Removing the structure also removes the first letter of an ordinary
   * word: a text that opens with an ASCII letter followed by a lower-case
   * letter that is no roman digit loses that first letter.
   */
  lemma CleanDropsLeadingLetter(t: string)
    requires |t| > 1 && IsAsciiLetter(t[0]) && IsLowerChar(t[1]) && !IsRomanDigit(t[1])
    ensures RemoveNumberings(NumberingPatterns, t) == t[1..]
  {
    NumberingPatternsSplit();
    HeadPatterns(t);
    TailPatterns(t[1..]);
    AppendThrough([ArabicNumber, SingleLetter], [LowerRoman, UpperRoman, Dash, ParenNumber, ParenLetter], t, t[1..], t[1..]);
  }

  /** The two patterns that can take a single letter, then the five that need a roman digit, a dash or a parenthesis. */
  lemma NumberingPatternsSplit()
    ensures NumberingPatterns == [ArabicNumber, SingleLetter] + [LowerRoman, UpperRoman, Dash, ParenNumber, ParenLetter]
  {
  }

  /** Two pattern lists applied one after the other. */
  lemma AppendThrough(ps: seq<NumberingPattern>, qs: seq<NumberingPattern>, t: string, u: string, v: string)
    requires RemoveNumberings(ps, t) == u && RemoveNumberings(qs, u) == v
    ensures RemoveNumberings(ps + qs, t) == v
  {
    NumberingsAppend(ps, qs, t);
  }

  /** The first two patterns take exactly the leading letter. */
  lemma HeadPatterns(t: string)
    requires |t| > 1 && IsAsciiLetter(t[0]) && IsLowerChar(t[1])
    ensures RemoveNumberings([ArabicNumber, SingleLetter], t) == t[1..]
  {
    assert RemoveNumberings([ArabicNumber], t) == t by {
      NoMarkerAtStart([ArabicNumber], t);
    }
    assert [ArabicNumber, SingleLetter] == [ArabicNumber] + [SingleLetter];
    NumberingsAppend([ArabicNumber], [SingleLetter], t);
    LetterMarker(t);
  }

  /** The patterns after the single-letter one need a roman digit, a dash or a parenthesis. */
  lemma TailPatterns(t: string)
    requires |t| > 0 && IsLowerChar(t[0]) && !IsRomanDigit(t[0])
    ensures RemoveNumberings([LowerRoman, UpperRoman, Dash, ParenNumber, ParenLetter], t) == t
  {
    var tail := [LowerRoman, UpperRoman, Dash, ParenNumber, ParenLetter];
    forall i | 0 <= i < |tail|
      ensures !CanStart(tail[i], t[0])
    {
    }
    NoMarkerAtStart(tail, t);
  }

  /** The single-letter pattern takes one letter followed by a lower-case letter. */
  lemma LetterMarker(t: string)
    requires |t| > 1 && IsAsciiLetter(t[0]) && IsLowerChar(t[1])
    ensures RemoveNumberings([SingleLetter], t) == t[1..]
  {
    LetterRest(t);
    assert [SingleLetter][..0] == [];
  }

  lemma LetterRest(t: string)
    requires |t| > 1 && IsAsciiLetter(t[0]) && IsLowerChar(t[1])
    ensures MatchRest(SingleLetter, t) == Some(t[1..])
  {
    assert LStrip(t) == t by {
      LStripOfStripped(t);
    }
    assert MatchRest(SingleLetter, t) == Some(AfterMarker(t, 1, true));
    AfterLetter(t);
  }

  lemma AfterLetter(t: string)
    requires |t| > 1 && IsLowerChar(t[1])
    ensures AfterMarker(t, 1, true) == t[1..]
  {
    var a := t[1..];
    assert a[0] == t[1];
    assert SkipDot(a) == a;
    LStripOfStripped(a);
  }

  /** Patterns none of which can start with the first character of a text leave it alone. */
  lemma NoMarkerAtStart(ps: seq<NumberingPattern>, t: string)
    requires |t| > 0 && !IsSpace(t[0])
    requires forall i :: 0 <= i < |ps| ==> !CanStart(ps[i], t[0])
    ensures RemoveNumberings(ps, t) == t
  {
    assert LStrip(t) == t;
    forall i | 0 <= i < |ps|
      ensures RemoveNumbering(ps[i], t) == t
    {
      assert MarkerLength(ps[i], t) == 0;
    }
    NumberingsFixed(ps, t);
  }

  lemma {:induction false} NumberingsAppend(ps: seq<NumberingPattern>, qs: seq<NumberingPattern>, t: string)
    ensures RemoveNumberings(ps + qs, t) == RemoveNumberings(qs, RemoveNumberings(ps, t))
  {
    if |qs| == 0 {
      assert ps + qs == ps;
    } else {
      assert (ps + qs)[..|ps + qs| - 1] == ps + qs[..|qs| - 1];
      NumberingsAppend(ps, qs[..|qs| - 1], t);
    }
  }

  /** Patterns that each leave a text alone leave it alone together. */
  lemma {:induction false} NumberingsFixed(ps: seq<NumberingPattern>, t: string)
    requires forall i :: 0 <= i < |ps| ==> RemoveNumbering(ps[i], t) == t
    ensures RemoveNumberings(ps, t) == t
  {
    if |ps| > 0 {
      NumberingsFixed(ps[..|ps| - 1], t);
    }
  }

  // ----- validate_heading_sequence -----

  /** `level_map.get(level, default)` */
  function LevelNumber(level: string, default: nat): nat {
    if level == H1 then 1 else if level == H2 then 2 else if level == H3 then 3 else default
  }

  /** `f"H{n}"` for the one level a correction produces, 2 (a correction needs a jump from level 1 to 3). */
  function LevelName(n: nat): string {
    if n <= 2 then H2 else H3
  }

  predicate LongEnough(h: Entry) { |Strip(h.text)| >= 3 }

  /**
   * A kept heading after the previous kept level `last`: the first keeps
   * its level, a later one jumping more than one level deeper is raised to
   * one below `last`. The source caps that at 3 with `min`, which never
   * takes effect: a jump of two from a level of at least 1 reaches 3 only
   * from 1.
   */
  function Checked(h: Entry, last: Option<string>): (c: Entry)
    ensures c.text == h.text && c.page == h.page
    ensures LevelNumber(c.level, 3) <= LevelNumber(h.level, 3)
    ensures last.None? ==> c == h
    ensures last.Some? ==> LevelNumber(c.level, 3) <= LevelNumber(last.value, 1) + 1
    ensures last.Some? && LevelNumber(h.level, 3) <= LevelNumber(last.value, 1) + 1 ==> c == h
  {
    if last.None? then h
    else
      var current := LevelNumber(h.level, 3);
      var lastNum := LevelNumber(last.value, 1);
      if current <= lastNum + 1 then h
      else h.(level := LevelName(lastNum + 1))
  }

  /**
   * The loop of `validate_heading_sequence` from a given `last_level` on,
   * for a test `keep` of which headings take part (the source's: a
   * stripped text of at least three characters).
   */
  function ValidateFrom(hs: seq<Entry>, keep: Entry -> bool, last: Option<string>): seq<Entry>
    decreases |hs|
  {
    if |hs| == 0 then []
    else if !keep(hs[0]) then ValidateFrom(hs[1..], keep, last)
    else
      var c := Checked(hs[0], last);
      [c] + ValidateFrom(hs[1..], keep, Some(c.level))
  }

  /** `validate_heading_sequence` */
  function ValidateHeadingSequence(hs: seq<Entry>): seq<Entry> {
    ValidateFrom(hs, LongEnough, None)
  }

  /** `validate_heading_sequence` */
  method ValidateSequence(hs: seq<Entry>) returns (validated: seq<Entry>)
    ensures validated == ValidateHeadingSequence(hs)
  {
    validated := [];
    var last: Option<string> := None;
    for i := 0 to |hs|
      invariant validated + ValidateFrom(hs[i..], LongEnough, last) == ValidateHeadingSequence(hs)
    {
      assert hs[i..][1..] == hs[i + 1..];
      var h := hs[i];
      if |Strip(h.text)| < 3 {
        continue;
      }
      var c := Checked(h, last);
      validated := validated + [c];
      last := Some(c.level);
    }
  }

  /** An entry with its level blanked: what the repair must not change. */
  function Unlevelled(h: Entry): Entry { h.(level := "") }

  /** No level follows its predecessor by more than one step (levels read as the loop reads them). */
  predicate Progressive(out: seq<Entry>) {
    forall k :: 0 < k < |out| ==> LevelNumber(out[k].level, 3) <= LevelNumber(out[k - 1].level, 1) + 1
  }

  /** The repair keeps exactly the headings `keep` accepts, in order, with their text and page. */
  lemma {:induction false} ValidateKeeps(hs: seq<Entry>, keep: Entry -> bool, last: Option<string>)
    ensures Map(ValidateFrom(hs, keep, last), Unlevelled) == Map(Filter(hs, keep), Unlevelled)
    decreases |hs|
  {
    if |hs| > 0 {
      var h := hs[0];
      var rest := hs[1..];
      var keptRest := Filter(rest, keep);
      assert Filter(hs, keep) == (if keep(h) then [h] else []) + keptRest by {
        FilterMapCons(h, rest, keep, Identity);
        assert hs == [h] + rest;
      }
      if !keep(h) {
        ValidateKeeps(rest, keep, last);
      } else {
        var c := Checked(h, last);
        ValidateKeeps(rest, keep, Some(c.level));
        MapCons(c, ValidateFrom(rest, keep, Some(c.level)), Unlevelled);
        MapCons(h, keptRest, Unlevelled);
      }
    }
  }

  /** No kept heading lies more than one level below the one before it (or below `last`). */
  lemma {:induction false} ValidateProgressive(hs: seq<Entry>, keep: Entry -> bool, last: Option<string>)
    ensures var out := ValidateFrom(hs, keep, last);
      Progressive(out) && (|out| > 0 && last.Some? ==> LevelNumber(out[0].level, 3) <= LevelNumber(last.value, 1) + 1)
    decreases |hs|
  {
    if |hs| > 0 {
      if !keep(hs[0]) {
        ValidateProgressive(hs[1..], keep, last);
      } else {
        var c := Checked(hs[0], last);
        ValidateProgressive(hs[1..], keep, Some(c.level));
        var tail := ValidateFrom(hs[1..], keep, Some(c.level));
        var out := [c] + tail;
        forall k | 0 < k < |out|
          ensures LevelNumber(out[k].level, 3) <= LevelNumber(out[k - 1].level, 1) + 1
        {
          assert out[k] == tail[k - 1];
          if k > 1 {
            assert out[k - 1] == tail[k - 2];
          }
        }
      }
    }
  }

  /** The repair only raises headings towards H1, and never the first one. */
  lemma {:induction false} ValidateDemotes(hs: seq<Entry>, keep: Entry -> bool, last: Option<string>)
    ensures var out := ValidateFrom(hs, keep, last);
      var kept := Filter(hs, keep);
      |out| == |kept|
      && (|out| > 0 && last.None? ==> out[0] == kept[0])
      && (forall k :: 0 <= k < |out| ==> LevelNumber(out[k].level, 3) <= LevelNumber(kept[k].level, 3))
    decreases |hs|
  {
    if |hs| > 0 {
      var h := hs[0];
      var rest := hs[1..];
      var keptRest := Filter(rest, keep);
      assert Filter(hs, keep) == (if keep(h) then [h] else []) + keptRest by {
        FilterMapCons(h, rest, keep, Identity);
        assert hs == [h] + rest;
      }
      if !keep(h) {
        ValidateDemotes(rest, keep, last);
        assert ValidateFrom(hs, keep, last) == ValidateFrom(rest, keep, last);
        assert Filter(hs, keep) == keptRest;
      } else {
        var c := Checked(h, last);
        ValidateDemotes(rest, keep, Some(c.level));
        var tail := ValidateFrom(rest, keep, Some(c.level));
        var out := [c] + tail;
        var kept := [h] + keptRest;
        assert ValidateFrom(hs, keep, last) == out;
        assert Filter(hs, keep) == kept;
        NoHigherCons(c, tail, h, keptRest);
      }
    }
  }

  /** Each heading of `out` is at the level of the one of `kept` at the same place, or above it. */
  predicate NoHigher(out: seq<Entry>, kept: seq<Entry>) {
    |out| == |kept| && forall k :: 0 <= k < |out| ==> LevelNumber(out[k].level, 3) <= LevelNumber(kept[k].level, 3)
  }

  lemma NoHigherCons(c: Entry, tail: seq<Entry>, h: Entry, keptRest: seq<Entry>)
    requires NoHigher(tail, keptRest) && LevelNumber(c.level, 3) <= LevelNumber(h.level, 3)
    ensures NoHigher([c] + tail, [h] + keptRest)
  {
    var out := [c] + tail;
    var kept := [h] + keptRest;
    forall k | 0 < k < |out|
      ensures LevelNumber(out[k].level, 3) <= LevelNumber(kept[k].level, 3)
    {
      assert out[k] == tail[k - 1] && kept[k] == keptRest[k - 1];
    }
  }

  /** A progressive sequence of kept headings is left as it is. */
  lemma {:induction false} ValidateFixed(hs: seq<Entry>, keep: Entry -> bool, last: Option<string>)
    requires forall k :: 0 <= k < |hs| ==> keep(hs[k])
    requires Progressive(hs)
    requires |hs| > 0 && last.Some? ==> LevelNumber(hs[0].level, 3) <= LevelNumber(last.value, 1) + 1
    ensures ValidateFrom(hs, keep, last) == hs
    decreases |hs|
  {
    if |hs| > 0 {
      var rest := hs[1..];
      ValidateFixed(rest, keep, Some(hs[0].level));
      assert hs == [hs[0]] + rest;
    }
  }

  /** Repairing twice is repairing once, for any test that ignores the level. */
  lemma ValidateTwice(hs: seq<Entry>, keep: Entry -> bool)
    requires forall h :: keep(Unlevelled(h)) == keep(h)
    ensures var out := ValidateFrom(hs, keep, None);
      ValidateFrom(out, keep, None) == out
  {
    var out := ValidateFrom(hs, keep, None);
    ValidateKeeps(hs, keep, None);
    ValidateProgressive(hs, keep, None);
    var kept := Filter(hs, keep);
    FilterMapMembers(hs, keep, Identity);
    forall k | 0 <= k < |out|
      ensures keep(out[k])
    {
      assert Map(out, Unlevelled)[k] == Map(kept, Unlevelled)[k];
      assert kept[k] in kept;
      assert keep(Unlevelled(kept[k]));
    }
    ValidateFixed(out, keep, None);
  }

  /**
   * `validate_heading_sequence` drops exactly the headings whose stripped
   * text is shorter than three characters, keeps the others in order with
   * their text and page, keeps the first one's level, only raises levels,
   * leaves no jump of more than one level, and is idempotent.
   */
  lemma ValidateHeadingSequenceProperties(hs: seq<Entry>)
    ensures var out := ValidateHeadingSequence(hs);
      var kept := Filter(hs, LongEnough);
      Map(out, Unlevelled) == Map(kept, Unlevelled)
      && (|out| > 0 ==> out[0] == kept[0])
      && (forall k :: 0 <= k < |out| ==> LevelNumber(out[k].level, 3) <= LevelNumber(kept[k].level, 3))
      && Progressive(out)
      && ValidateHeadingSequence(out) == out
  {
    ValidateKeeps(hs, LongEnough, None);
    ValidateDemotes(hs, LongEnough, None);
    ValidateProgressive(hs, LongEnough, None);
    ValidateTwice(hs, LongEnough);
  }
}
