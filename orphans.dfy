/**
 * Why the finalizing pass of `_classify_headings` must be followed by the
 * strict-hierarchy pass: finalizing drops short headings after the
 * hierarchy has been decided, and their children are left orphaned.
 */
module Orphans {
  import opened Text
  import opened Sorting
  import opened Records
  import opened HeadingText
  import opened Hierarchy
  import opened Finalize

  /** A heading text with no surrounding space, no leading digit and every appendix label already spaced once. */
  predicate Plain(t: string) {
    0 < |t| && !IsDigit(t[0]) && !IsSpace(t[0]) && !IsSpace(t[|t| - 1]) && AppendixNormal(t)
  }

  /** An H1 candidate on page 1 followed by an H2 candidate on page 2. */
  function Pair(a: string, b: string): seq<Candidate> {
    [Candidate(H1, a, 1, 0.0, 0.0), Candidate(H2, b, 2, 0.0, 0.0)]
  }

  lemma PairSorted(cs: seq<Candidate>)
    requires |cs| == 2 && cs[0].page == 1 && cs[1].page == 2
    ensures SortBy(cs, CandidateKey) == cs
  {
    assert LexLe(CandidateKey(cs[0]), CandidateKey(cs[1]));
    SortByIdentity(cs, CandidateKey);
  }

  lemma PairKept(cs: seq<Candidate>)
    requires |cs| == 2 && cs[0].level == H1 && cs[1].level == H2
    ensures Keep(cs, CandidateLevel) == cs
  {
    var ls := Levels(cs, CandidateLevel);
    assert ls == [H1, H2];
    assert ls[..1] == [H1] && Last([H1], H1) == 0;
    KeepIdentityIff(cs, CandidateLevel);
  }

  /** Candidates already in position order and well nested come out of the strict-hierarchy pass as they went in. */
  lemma EnforceOfNested(cs: seq<Candidate>)
    requires SortBy(cs, CandidateKey) == cs && Keep(cs, CandidateLevel) == cs
    ensures Enforce(cs) == Entries(cs)
  {
  }

  lemma PairEnforced(a: string, b: string)
    requires Plain(a) && Plain(b)
    ensures Enforce(Pair(a, b)) == [Entry(H1, a + " ", 1), Entry(H2, b + " ", 2)]
  {
    var cs := Pair(a, b);
    PairSorted(cs);
    PairKept(cs);
    EnforceOfNested(cs);
    PlainNormalized(a);
    PlainNormalized(b);
  }

  /** Of two elements, the loop keeps only the second when the first fails `keep`. */
  lemma DedupDropsFirst<T, K>(cs: seq<T>, key: T -> K, keep: T -> bool)
    requires |cs| == 2 && !keep(cs[0]) && keep(cs[1])
    ensures Dedup({}, cs, key, keep) == [cs[1]]
  {
    assert cs[1..][1..] == [];
  }

  lemma CleanedFixed(hs: seq<Entry>)
    requires forall e :: e in hs ==> LStrip(e.text) == e.text
    ensures Cleaned(hs) == hs
  {
  }

  /** Finalizing a short heading followed by a long one keeps only the long one. */
  lemma FinalizedDropsFirst(e0: Entry, e1: Entry)
    requires LStrip(e0.text) == e0.text && LStrip(e1.text) == e1.text
    requires !LongEnough(e0) && LongEnough(e1)
    ensures Finalized([e0, e1]) == [e1]
  {
    CleanedFixed([e0, e1]);
    DedupDropsFirst([e0, e1], KeyOf, LongEnough);
    SortByIdentity([e1], EntryPageKey);
  }

  lemma PairFinalized(a: string, b: string)
    requires Plain(a) && Plain(b) && |a| < 3 && |b| >= 3
    ensures Finalized([Entry(H1, a + " ", 1), Entry(H2, b + " ", 2)]) == [Entry(H2, b + " ", 2)]
  {
    LStripOfStripped(a + " ");
    LStripOfStripped(b + " ");
    StripOneTrailingOf(a);
    StripOneTrailingOf(b);
    FinalizedDropsFirst(Entry(H1, a + " ", 1), Entry(H2, b + " ", 2));
  }

  /** An outline that opens with an H2 is not well nested. */
  lemma OrphanedH2(s: seq<Entry>)
    requires |s| > 0 && s[0].level == H2
    ensures !WellNested(Levels(s, EntryLevel))
  {
    var ls := Levels(s, EntryLevel);
    assert !Nested(ls[..0], ls[0]);
  }

  /**
   * Finalizing after the strict-hierarchy pass orphans headings: an H1
   * whose text is shorter than three characters, followed by an H2, passes
   * the strict-hierarchy pass, but the finalized outline is the H2 alone,
   * which has no H1 above it.
   */
  lemma FinalizeOrphansHeading(a: string, b: string)
    requires Plain(a) && Plain(b) && |a| < 3 && |b| >= 3
    ensures WellNested(Levels(Enforce(Pair(a, b)), EntryLevel))
    ensures !WellNested(Levels(Finalized(Enforce(Pair(a, b))), EntryLevel))
  {
    EnforceWellNested(Pair(a, b));
    PairEnforced(a, b);
    PairFinalized(a, b);
    OrphanedH2(Finalized(Enforce(Pair(a, b))));
  }
}
