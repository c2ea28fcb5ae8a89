/**
 * The invitation path (`_extract_invitation_headings`): an invitation gets a
 * single H1, the longest line that mentions "hope", "see" or "there".
 */
module InvitationHeadings {
  import opened Text
  import opened Sorting
  import opened Records
  import opened HeadingText
  import opened Lists

  const InvitationWords: seq<string> := ["hope", "see", "there"]

  /** A line the invitation path considers: it mentions an invitation word and has at least ten characters once stripped. */
  predicate Qualifies(s: Span) {
    ContainsAny(Lower(s.text), InvitationWords) && |Strip(s.text)| >= 10
  }

  /** `_normalize_heading_text(' '.join(text.split()))` at level H1 on the span's page. */
  function InvitationEntry(s: Span): Entry {
    Entry(H1, NormalizeAsWritten(JoinWith(" ", Words(s.text))), s.page)
  }

  /** The candidate list the source builds. */
  function InvitationCandidates(spans: seq<Span>): seq<Entry> {
    FilterMap(spans, Qualifies, InvitationEntry)
  }

  /** `reverse=True` on `len(text.strip())`: the negated length, sorted ascending and stably. */
  function LengthKey(e: Entry): seq<real> { [-(|Strip(e.text)| as real)] }

  /** The outline of an invitation: the head of the stable descending sort, if any. */
  function InvitationOutline(spans: seq<Span>): seq<Entry> {
    var candidates := InvitationCandidates(spans);
    if |candidates| == 0 then [] else [SortBy(candidates, LengthKey)[0]]
  }

  /** `_extract_invitation_headings` */
  method ExtractInvitationHeadings(spans: seq<Span>) returns (headings: seq<Entry>)
    ensures headings == InvitationOutline(spans)
  {
    var candidates: seq<Entry> := [];
    for i := 0 to |spans|
      invariant candidates == FilterMap(spans[..i], Qualifies, InvitationEntry)
    {
      FilterMapSnoc(spans, i, Qualifies, InvitationEntry);
      var text := spans[i].text;
      if ContainsAny(Lower(text), InvitationWords) {
        if |Strip(text)| >= 10 {
          var normalizedText := JoinWith(" ", Words(text));
          var finalText := NormalizeAsWritten(normalizedText);
          candidates := candidates + [Entry(H1, finalText, spans[i].page)];
        }
      }
    }
    assert spans[..|spans|] == spans;
    if |candidates| > 0 {
      candidates := SortBy(candidates, LengthKey);
      return [candidates[0]];
    }
    return [];
  }

  /**
   * An invitation's outline is a single H1 exactly when some line
   * qualifies, and it is then the normalized text of a qualifying line on
   * that line's page.
   */
  lemma InvitationSingleH1(spans: seq<Span>)
    ensures |InvitationOutline(spans)| <= 1
    ensures |InvitationOutline(spans)| == 1 <==> exists i :: 0 <= i < |spans| && Qualifies(spans[i])
    ensures |InvitationOutline(spans)| == 1 ==>
      InvitationOutline(spans)[0].level == H1
      && exists i :: 0 <= i < |spans| && Qualifies(spans[i]) && InvitationOutline(spans)[0] == InvitationEntry(spans[i])
  {
    SortedHead(spans, Qualifies, InvitationEntry, LengthKey);
  }

  /** The head of the stable descending sort is the earliest of the longest candidates. */
  lemma LongestFirst(candidates: seq<Entry>)
    requires |candidates| > 0
    ensures var best := SortBy(candidates, LengthKey)[0];
      exists m :: 0 <= m < |candidates| && candidates[m] == best
        && (forall j :: 0 <= j < |candidates| ==> |Strip(candidates[j].text)| <= |Strip(best.text)|)
        && (forall j :: 0 <= j < m ==> |Strip(candidates[j].text)| < |Strip(best.text)|)
  {
    var m := FirstMin(candidates, LengthKey);
    SortByHead(candidates, LengthKey);
    FirstMinIsFirstMin(candidates, LengthKey);
    var best := candidates[m];
    forall j | 0 <= j < |candidates|
      ensures |Strip(candidates[j].text)| <= |Strip(best.text)|
      ensures j < m ==> |Strip(candidates[j].text)| < |Strip(best.text)|
    {
      LengthKeyOrder(best, candidates[j]);
      LengthKeyOrder(candidates[j], best);
    }
    assert SortBy(candidates, LengthKey)[0] == best;
  }

  /** Ascending on the key is descending on the stripped length. */
  lemma LengthKeyOrder(a: Entry, b: Entry)
    ensures LexLe(LengthKey(a), LengthKey(b)) <==> |Strip(b.text)| <= |Strip(a.text)|
  {
    LexLeSingle(-(|Strip(a.text)| as real), -(|Strip(b.text)| as real));
  }

  /** The heading of an invitation is on the page of the line it was made from. */
  lemma InvitationPages(filtered: seq<Span>)
    ensures forall e :: e in InvitationOutline(filtered) ==> e.page in SpanPages(filtered)
  {
    var r := InvitationOutline(filtered);
    InvitationSingleH1(filtered);
    forall e | e in r
      ensures e.page in SpanPages(filtered)
    {
      SingleMember(r, e);
      var i :| 0 <= i < |filtered| && Qualifies(filtered[i]) && r[0] == InvitationEntry(filtered[i]);
      assert e.page == filtered[i].page;
      SpanPage(filtered, filtered[i]);
    }
  }
}
