/**
 * Line grouping of the extractor (`_group_spans_by_line` and
 * `_combine_spans_on_line`): spans are ordered by page, y and x, clustered
 * into lines whose y lies within 2 points of the line's first span, and
 * every line is merged into one span read left to right.
 */
module LineGrouping {
  import opened Options
  import opened Text
  import opened Sorting
  import opened Grouping
  import opened Records

  /** Sort key `(page, y, x)`. */
  function LineKey(s: Span): seq<real> { [s.page as real, s.y, s.x] }

  /** Sort key `x`. */
  function XKey(s: Span): seq<real> { [s.x] }

  function Abs(r: real): real { if r < 0.0 then -r else r }

  /** A span belongs to the line whose first span is `first`. */
  predicate SameLine(first: Span, s: Span) {
    s.page == first.page && Abs(s.y - first.y) < 2.0
  }

  /** A space is put before a span that starts `gap` points after the previous one ends. */
  predicate NeedsSpace(gap: real, text: string) {
    gap > 1.0 && (gap > 8.0 || (gap > 3.0 && !IsLowerStr(text)))
  }

  /** Right edge of a span. */
  function RightEdge(s: Span): real { s.x + s.width }

  /** The text of spans in x order joined as the merge loop joins it. */
  function JoinLine(s: seq<Span>): string
  {
    if |s| == 0 then ""
    else if |s| == 1 then s[0].text
    else
      var last := s[|s| - 1];
      JoinLine(s[..|s| - 1])
      + (if NeedsSpace(last.x - RightEdge(s[|s| - 2]), last.text) then " " else "")
      + last.text
  }

  /** The merged span of one line (specification of `CombineSpansOnLine`). */
  function CombineLine(group: seq<Span>): Span
    requires |group| > 0
  {
    if |group| == 1 then group[0]
    else
      var s := SortBy(group, XKey);
      s[0].(text := Strip(JoinLine(s)), width := RightEdge(s[|s| - 1]) - s[0].x)
  }

  /** `_combine_spans_on_line`: the spans of one line merged left to right. */
  method CombineSpansOnLine(spans: seq<Span>) returns (r: Span)
    requires |spans| > 0
    ensures r == CombineLine(spans)
  {
    if |spans| == 1 {
      return spans[0];
    }
    var sorted := SortBy(spans, XKey);
    var combined, lastEnd := JoinSorted(sorted);
    r := sorted[0].(text := Strip(combined), width := lastEnd - sorted[0].x);
  }

  /** The merge loop of `_combine_spans_on_line` over the spans in x order. */
  method JoinSorted(sorted: seq<Span>) returns (combined: string, lastEnd: real)
    requires |sorted| > 0
    ensures combined == JoinLine(sorted) && lastEnd == RightEdge(sorted[|sorted| - 1])
  {
    combined := "";
    var end: Option<real> := None;
    for i := 0 to |sorted|
      invariant combined == JoinLine(sorted[..i])
      invariant i == 0 ==> end == None
      invariant i > 0 ==> end == Some(RightEdge(sorted[i - 1]))
    {
      var span := sorted[i];
      assert sorted[..i + 1][..i] == sorted[..i];
      if end.Some? {
        var gap := span.x - end.value;
        if gap > 1.0 {
          if gap > 8.0 || (gap > 3.0 && !IsLowerStr(span.text)) {
            combined := combined + " ";
          }
        }
      }
      combined := combined + span.text;
      end := Some(RightEdge(span));
    }
    assert sorted[..|sorted|] == sorted;
    lastEnd := end.value;
  }

  /** Merges every group. */
  function CombineAll(groups: seq<seq<Span>>): (r: seq<Span>)
    requires forall k :: 0 <= k < |groups| ==> |groups[k]| > 0
    ensures |r| == |groups|
  {
    if |groups| == 0 then [] else [CombineLine(groups[0])] + CombineAll(groups[1..])
  }

  lemma CombineAllCons(g: seq<Span>, tail: seq<seq<Span>>)
    requires |g| > 0 && forall k :: 0 <= k < |tail| ==> |tail[k]| > 0
    ensures CombineAll([g] + tail) == [CombineLine(g)] + CombineAll(tail)
  {
    assert ([g] + tail)[1..] == tail;
  }

  lemma ChunksFromJoin(cur: seq<Span>, rest: seq<Span>)
    requires |cur| > 0 && |rest| > 0 && SameLine(cur[0], rest[0])
    ensures ChunksFrom(cur, rest, SameLine) == ChunksFrom(cur + [rest[0]], rest[1..], SameLine)
  {
  }

  lemma ChunksFromBreak(cur: seq<Span>, rest: seq<Span>)
    requires |cur| > 0 && |rest| > 0 && !SameLine(cur[0], rest[0])
    ensures ChunksFrom(cur, rest, SameLine) == [cur] + ChunksFrom([rest[0]], rest[1..], SameLine)
  {
  }

  /** A span on the current line joins it. */
  lemma JoinStep(grouped: seq<Span>, current: seq<Span>, sorted: seq<Span>, i: nat, target: seq<Span>)
    requires |current| > 0 && i < |sorted| && SameLine(current[0], sorted[i])
    requires grouped + CombineAll(ChunksFrom(current, sorted[i..], SameLine)) == target
    ensures grouped + CombineAll(ChunksFrom(current + [sorted[i]], sorted[i + 1..], SameLine)) == target
  {
    assert sorted[i..][1..] == sorted[i + 1..];
    ChunksFromJoin(current, sorted[i..]);
  }

  /** A span off the current line closes it and opens the next one. */
  lemma BreakStep(grouped: seq<Span>, current: seq<Span>, sorted: seq<Span>, i: nat, target: seq<Span>)
    requires |current| > 0 && i < |sorted| && !SameLine(current[0], sorted[i])
    requires grouped + CombineAll(ChunksFrom(current, sorted[i..], SameLine)) == target
    ensures grouped + [CombineLine(current)] + CombineAll(ChunksFrom([sorted[i]], sorted[i + 1..], SameLine)) == target
  {
    var tail := ChunksFrom([sorted[i]], sorted[i + 1..], SameLine);
    BreakChunks(current, sorted, i);
    CombineAllCons(current, tail);
    ConsStep(grouped, CombineLine(current), CombineAll(ChunksFrom(current, sorted[i..], SameLine)), CombineAll(tail), target);
  }

  lemma ConsStep<T>(grouped: seq<T>, x: T, a: seq<T>, b: seq<T>, target: seq<T>)
    requires grouped + a == target && a == [x] + b
    ensures grouped + [x] + b == target
  {
  }

  lemma BreakChunks(current: seq<Span>, sorted: seq<Span>, i: nat)
    requires |current| > 0 && i < |sorted| && !SameLine(current[0], sorted[i])
    ensures ChunksFrom(current, sorted[i..], SameLine) == [current] + ChunksFrom([sorted[i]], sorted[i + 1..], SameLine)
  {
    var rest := sorted[i..];
    assert rest[0] == sorted[i] && rest[1..] == sorted[i + 1..];
    ChunksFromBreak(current, rest);
  }

  /** The first span opens the first line. */
  lemma FirstStep(sorted: seq<Span>)
    requires |sorted| > 0
    ensures CombineAll(ChunksFrom([sorted[0]], sorted[1..], SameLine)) == CombineAll(Chunks(sorted, SameLine))
  {
  }

  /** Specification of `GroupSpansByLine`. */
  function GroupLines(spans: seq<Span>): seq<Span>
  {
    CombineAll(Chunks(SortBy(spans, LineKey), SameLine))
  }

  /** `_group_spans_by_line` */
  method GroupSpansByLine(spans: seq<Span>) returns (grouped: seq<Span>)
    ensures grouped == GroupLines(spans)
  {
    if |spans| == 0 {
      return [];
    }
    var sorted := SortBy(spans, LineKey);
    grouped := GroupSorted(sorted);
  }

  /** The clustering loop of `_group_spans_by_line` over the sorted spans. */
  method GroupSorted(sorted: seq<Span>) returns (grouped: seq<Span>)
    requires |sorted| > 0
    ensures grouped == CombineAll(Chunks(sorted, SameLine))
  {
    ghost var target := CombineAll(Chunks(sorted, SameLine));
    grouped := [];
    var current: seq<Span> := [];
    var currentY: Option<real> := None;
    var currentPage: Option<int> := None;
    for i := 0 to |sorted|
      invariant (|current| == 0) == (i == 0)
      invariant i == 0 ==> grouped == [] && currentY == None && currentPage == None
      invariant i > 0 ==> currentY == Some(current[0].y) && currentPage == Some(current[0].page)
      invariant i > 0 ==> grouped + CombineAll(ChunksFrom(current, sorted[i..], SameLine)) == target
    {
      var span := sorted[i];
      var sameLine := currentPage == Some(span.page) && currentY.Some?
        && Abs(span.y - currentY.value) < 2.0;
      if sameLine && |current| > 0 {
        JoinStep(grouped, current, sorted, i, target);
        current := current + [span];
      } else {
        if |current| > 0 {
          BreakStep(grouped, current, sorted, i, target);
          var line := CombineSpansOnLine(current);
          grouped := grouped + [line];
        } else {
          FirstStep(sorted);
        }
        current := [span];
        currentY := Some(span.y);
        currentPage := Some(span.page);
      }
    }
    assert sorted[|sorted|..] == [];
    var line := CombineSpansOnLine(current);
    grouped := grouped + [line];
  }

  function TextsOf(s: seq<Span>): (r: seq<string>)
    ensures |r| == |s| && forall i :: 0 <= i < |s| ==> r[i] == s[i].text
  {
    seq(|s|, i requires 0 <= i < |s| => s[i].text)
  }

  /** Neighbouring spans (in x order) that touch or overlap: `gap <= 1`. */
  ghost predicate Touching(s: seq<Span>) {
    forall i :: 1 <= i < |s| ==> s[i].x - RightEdge(s[i - 1]) <= 1.0
  }

  /** Neighbouring spans (in x order) more than a word space apart: `gap > 8`. */
  ghost predicate WideApart(s: seq<Span>) {
    forall i :: 1 <= i < |s| ==> s[i].x - RightEdge(s[i - 1]) > 8.0
  }

  lemma {:induction false} JoinLineTouching(s: seq<Span>)
    requires Touching(s)
    ensures JoinLine(s) == Concat(TextsOf(s))
    decreases |s|
  {
    if |s| == 1 {
      assert Concat(TextsOf(s)) == s[0].text + Concat(TextsOf(s)[1..]);
    } else if |s| > 1 {
      var init := s[..|s| - 1];
      JoinLineTouching(init);
      assert TextsOf(s) == TextsOf(init) + [s[|s| - 1].text];
      ConcatAppend(TextsOf(init), s[|s| - 1].text);
    }
  }

  lemma {:induction false} JoinLineWide(s: seq<Span>)
    requires WideApart(s)
    ensures JoinLine(s) == JoinWith(" ", TextsOf(s))
    decreases |s|
  {
    if |s| > 1 {
      var init := s[..|s| - 1];
      JoinLineWide(init);
      assert TextsOf(s) == TextsOf(init) + [s[|s| - 1].text];
      JoinWithAppend(" ", TextsOf(init), s[|s| - 1].text);
    }
  }

  /** Spans that touch are merged without any space between them. */
  lemma CombineTouching(group: seq<Span>)
    requires |group| > 1 && Touching(SortBy(group, XKey))
    ensures CombineLine(group).text == Strip(Concat(TextsOf(SortBy(group, XKey))))
  {
    JoinLineTouching(SortBy(group, XKey));
  }

  /** Spans far apart are merged with one space between neighbours. */
  lemma CombineWideApart(group: seq<Span>)
    requires |group| > 1 && WideApart(SortBy(group, XKey))
    ensures CombineLine(group).text == Strip(JoinWith(" ", TextsOf(SortBy(group, XKey))))
  {
    JoinLineWide(SortBy(group, XKey));
  }

  /**
   * A merged line keeps the position, page and font of its leftmost span
   * (the first of those with the smallest x) and spans to the right edge of
   * its rightmost one.
   */
  lemma CombineLeftmost(group: seq<Span>)
    requires |group| > 1
    ensures var m := FirstMin(group, XKey); var r := CombineLine(group);
      r.x == group[m].x && r.y == group[m].y && r.page == group[m].page
      && r.fontSize == group[m].fontSize && r.flags == group[m].flags
      && r.x + r.width == RightEdge(SortBy(group, XKey)[|group| - 1])
  {
    SortByHead(group, XKey);
  }

  /** Every span of a line has the page of the line's first span; so has the merged span. */
  lemma CombinePage(group: seq<Span>)
    requires |group| > 0
    requires forall j :: 1 <= j < |group| ==> SameLine(group[0], group[j])
    ensures CombineLine(group).page == group[0].page
  {
    if |group| > 1 {
      var m := FirstMin(group, XKey);
      SortByHead(group, XKey);
      assert m == 0 || SameLine(group[0], group[m]);
    }
  }

  /** A merged line is the merge of one of the groups. */
  lemma {:induction false} CombineAllMember(groups: seq<seq<Span>>, x: Span) returns (k: nat)
    requires forall k :: 0 <= k < |groups| ==> |groups[k]| > 0
    requires x in CombineAll(groups)
    ensures k < |groups| && x == CombineLine(groups[k])
    decreases |groups|
  {
    if x == CombineLine(groups[0]) {
      k := 0;
    } else {
      var k' := CombineAllMember(groups[1..], x);
      k := k' + 1;
    }
  }

  /** Every merged line is on the page of one of the spans. */
  lemma GroupLinesPages(spans: seq<Span>)
    ensures SpanPages(GroupLines(spans)) <= SpanPages(spans)
  {
    var sorted := SortBy(spans, LineKey);
    var groups := Chunks(sorted, SameLine);
    ChunksClustering(sorted, SameLine);
    forall x | x in GroupLines(spans)
      ensures x.page in SpanPages(spans)
    {
      var k := CombineAllMember(groups, x);
      CombinePage(groups[k]);
      FlattenMember(groups, k, 0);
      assert groups[k][0] in multiset(spans);
    }
  }

  /**
   * The lines are a clustering of the spans taken in (page, y, x) order, one
   * merged span per cluster: fewer lines than spans, and none only when
   * there are no spans.
   */
  lemma GroupLinesClusters(spans: seq<Span>)
    ensures var sorted := SortBy(spans, LineKey);
      var groups := Chunks(sorted, SameLine);
      IsClustering(groups, sorted, SameLine)
      && |GroupLines(spans)| == |groups| <= |spans|
      && (|GroupLines(spans)| == 0 <==> |spans| == 0)
  {
    var sorted := SortBy(spans, LineKey);
    ChunksClustering(sorted, SameLine);
    FlattenLength(Chunks(sorted, SameLine));
  }
}
