/**
 * The records the extractor passes between its stages: text spans read
 * from the PDF, heading candidates and outline entries.
 */
module Records {

  /**
   * One span of text as the page reader produces it. The source's span
   * dictionaries carry exactly these keys (plus the unused `font`, `bbox`
   * and `original_text`); in particular they carry no `x0`, `y0` or `size`.
   */
  datatype Span = Span(
    text: string,
    fontSize: real,
    flags: nat,
    x: real,
    y: real,
    width: real,
    height: real,
    page: int)

  /** `span.get("x0", 0)` and `span.get("y0", 0)`: the keys are absent, so the default. */
  function AbsentX0(s: Span): real { 0.0 }
  function AbsentY0(s: Span): real { 0.0 }

  /** PyMuPDF's bold flag, `flags & 16`. */
  predicate IsBold(s: Span) { (s.flags / 16) % 2 == 1 }

  /** One entry of the emitted outline. */
  datatype Entry = Entry(level: string, text: string, page: int)

  /**
   * A heading candidate: a level, the span's original text, its page and
   * the `x0`/`y0` copied from the span (always the absent-key default).
   */
  datatype Candidate = Candidate(level: string, text: string, page: int, x0: real, y0: real)

  const H1: string := "H1"
  const H2: string := "H2"
  const H3: string := "H3"
  const H4: string := "H4"

  predicate IsLevel(l: string) { l == H1 || l == H2 || l == H3 || l == H4 }

  lemma LevelsDistinct()
    ensures H1 != H2 && H1 != H3 && H1 != H4 && H2 != H3 && H2 != H4 && H3 != H4
  {
    assert H1[1] != H2[1] && H1[1] != H3[1] && H1[1] != H4[1];
    assert H2[1] != H3[1] && H2[1] != H4[1] && H3[1] != H4[1];
  }

  /** Sort key `(page,)`. */
  function EntryPageKey(e: Entry): seq<real> { [e.page as real] }

  /** The pages the spans are on. */
  ghost function SpanPages(spans: seq<Span>): set<int> {
    set s | s in spans :: s.page
  }

  lemma SpanPage(spans: seq<Span>, x: Span)
    requires x in spans
    ensures x.page in SpanPages(spans)
  {
  }

  /** Spans drawn from another list are on its pages. */
  lemma SpanPagesSubset(a: seq<Span>, b: seq<Span>)
    requires forall x :: x in a ==> x in b
    ensures SpanPages(a) <= SpanPages(b)
  {
  }

  /** Outline entries ordered by page. */
  ghost predicate PagesSorted(o: seq<Entry>) {
    forall i, j :: 0 <= i < j < |o| ==> o[i].page <= o[j].page
  }
}
