/**
 * `_enforce_strict_hierarchy`: the candidates, in page order, pass a state
 * machine with three "active" flags. An H1 is always emitted; an H2 only
 * after some H1; an H3 only while an H2 is active; an H4 only while an H3
 * is active. Emitted headings keep their level, and their text is
 * normalized.
 */
module Hierarchy {
  import opened Options
  import opened Sorting
  import opened Records
  import opened HeadingText

  /** `current_h1_active`, `current_h2_active`, `current_h3_active`. */
  datatype Active = Active(h1: bool, h2: bool, h3: bool)

  const Closed := Active(false, false, false)

  /** One step of the state machine: the flags after a heading of `level` is emitted, or None when it is skipped. */
  function Admit(a: Active, level: string): Option<Active> {
    if level == H1 then Some(Active(true, false, false))
    else if level == H2 then (if a.h1 then Some(Active(a.h1, true, false)) else None)
    else if level == H3 then (if a.h2 then Some(a.(h3 := true)) else None)
    else if level == H4 then (if a.h3 then Some(a) else None)
    else None
  }

  /** The elements of `s` the state machine emits, starting from the flags `a`. */
  function KeepFrom<T>(a: Active, s: seq<T>, level: T -> string): (r: seq<T>)
    ensures |r| <= |s|
    decreases |s|
  {
    if |s| == 0 then []
    else match Admit(a, level(s[0]))
      case Some(next) => [s[0]] + KeepFrom(next, s[1..], level)
      case None => KeepFrom(a, s[1..], level)
  }

  function Keep<T>(s: seq<T>, level: T -> string): seq<T> {
    KeepFrom(Closed, s, level)
  }

  // ----- An independent description of a well-nested outline -----

  function Levels<T>(s: seq<T>, level: T -> string): (r: seq<string>)
    ensures |r| == |s| && forall i :: 0 <= i < |s| ==> r[i] == level(s[i])
  {
    seq(|s|, i requires 0 <= i < |s| => level(s[i]))
  }

  /** The index of the last `l` in `p`, or -1. */
  function Last(p: seq<string>, l: string): (r: int)
    ensures -1 <= r < |p| && (r >= 0 ==> p[r] == l)
    ensures forall j :: r < j < |p| ==> p[j] != l
  {
    if |p| == 0 then -1
    else if p[|p| - 1] == l then |p| - 1
    else Last(p[..|p| - 1], l)
  }

  /**
   * A heading of level `l` may follow the levels `p`: an H2 needs an
   * earlier H1, an H3 an H2 since the last H1, an H4 an H3 since the last
   * H1 or H2. Nothing but H1 to H4 is allowed.
   */
  predicate Nested(p: seq<string>, l: string) {
    if l == H1 then true
    else if l == H2 then Last(p, H1) >= 0
    else if l == H3 then Last(p, H2) > Last(p, H1)
    else if l == H4 then Last(p, H3) > Last(p, H1) && Last(p, H3) > Last(p, H2)
    else false
  }

  ghost predicate WellNested(ls: seq<string>) {
    forall i :: 0 <= i < |ls| ==> Nested(ls[..i], ls[i])
  }

  /** The flags describe the levels emitted so far. */
  predicate Consistent(a: Active, p: seq<string>) {
    a.h1 == (Last(p, H1) >= 0)
    && a.h2 == (Last(p, H2) > Last(p, H1))
    && a.h3 == (Last(p, H3) > Last(p, H1) && Last(p, H3) > Last(p, H2))
  }

  /** `s` is obtained from `t` by deleting elements (greedy matching decides it). */
  predicate IsSubsequence<T(==)>(s: seq<T>, t: seq<T>)
    decreases |t|
  {
    if |s| == 0 then true
    else if |t| == 0 then false
    else if s[0] == t[0] then IsSubsequence(s[1..], t[1..])
    else IsSubsequence(s, t[1..])
  }

  /** The elements of `s` whose level is `l`, in order. */
  function Only<T>(s: seq<T>, level: T -> string, l: string): seq<T>
    decreases |s|
  {
    if |s| == 0 then []
    else (if level(s[0]) == l then [s[0]] else []) + Only(s[1..], level, l)
  }

  // ----- The state machine against the description -----

  lemma LastSnoc(p: seq<string>, l: string, x: string)
    ensures Last(p + [l], x) == if l == x then |p| else Last(p, x)
  {
    assert (p + [l])[..|p|] == p;
  }

  /** The flags say exactly which levels may come next, and emitting one keeps them in step. */
  lemma AdmitNested(a: Active, p: seq<string>, l: string)
    requires Consistent(a, p)
    ensures Admit(a, l).Some? <==> Nested(p, l)
    ensures Admit(a, l).Some? ==> Consistent(Admit(a, l).value, p + [l])
  {
    LastSnoc(p, l, H1);
    LastSnoc(p, l, H2);
    LastSnoc(p, l, H3);
  }

  lemma WellNestedSnoc(p: seq<string>, l: string)
    requires WellNested(p) && Nested(p, l)
    ensures WellNested(p + [l])
  {
    var q := p + [l];
    forall i | 0 <= i < |q|
      ensures Nested(q[..i], q[i])
    {
      if i < |p| {
        assert q[..i] == p[..i];
      } else {
        assert q[..i] == p;
      }
    }
  }

  lemma LevelsCons<T>(x: T, s: seq<T>, level: T -> string)
    ensures Levels([x] + s, level) == [level(x)] + Levels(s, level)
  {
  }

  lemma LevelsPrepend<T>(p: seq<string>, x: T, rest: seq<T>, level: T -> string)
    ensures p + Levels([x] + rest, level) == p + [level(x)] + Levels(rest, level)
  {
    LevelsCons(x, rest, level);
  }

  lemma {:induction false} KeepFromNested<T>(a: Active, p: seq<string>, s: seq<T>, level: T -> string)
    requires Consistent(a, p) && WellNested(p)
    ensures WellNested(p + Levels(KeepFrom(a, s, level), level))
    decreases |s|
  {
    if |s| == 0 {
      assert p + Levels([], level) == p;
    } else {
      var l := level(s[0]);
      AdmitNested(a, p, l);
      match Admit(a, l)
      case Some(next) =>
        var rest := KeepFrom(next, s[1..], level);
        assert KeepFrom(a, s, level) == [s[0]] + rest;
        WellNestedSnoc(p, l);
        KeepFromNested(next, p + [l], s[1..], level);
        LevelsPrepend(p, s[0], rest, level);
      case None =>
        assert KeepFrom(a, s, level) == KeepFrom(a, s[1..], level);
        KeepFromNested(a, p, s[1..], level);
    }
  }

  /** Whatever comes in, what the state machine emits is well nested. */
  lemma KeepWellNested<T>(s: seq<T>, level: T -> string)
    ensures WellNested(Levels(Keep(s, level), level))
  {
    KeepFromNested(Closed, [], s, level);
    assert [] + Levels(Keep(s, level), level) == Levels(Keep(s, level), level);
  }

  /** In a well-nested `p + ls`, the first level of `ls` may follow `p`. */
  lemma WellNestedNext(p: seq<string>, ls: seq<string>)
    requires |ls| > 0 && WellNested(p + ls)
    ensures Nested(p, ls[0])
  {
    var q := p + ls;
    assert q[..|p|] == p && q[|p|] == ls[0];
  }

  lemma {:induction false} KeepFromIdentity<T>(a: Active, p: seq<string>, s: seq<T>, level: T -> string)
    requires Consistent(a, p) && WellNested(p + Levels(s, level))
    ensures KeepFrom(a, s, level) == s
    decreases |s|
  {
    if |s| > 0 {
      var l := level(s[0]);
      WellNestedNext(p, Levels(s, level));
      AdmitNested(a, p, l);
      var next := Admit(a, l).value;
      assert s == [s[0]] + s[1..];
      LevelsPrepend(p, s[0], s[1..], level);
      KeepFromIdentity(next, p + [l], s[1..], level);
      assert KeepFrom(a, s, level) == [s[0]] + KeepFrom(next, s[1..], level);
    }
  }

  /** The state machine leaves a sequence unchanged exactly when its levels are well nested. */
  lemma KeepIdentityIff<T>(s: seq<T>, level: T -> string)
    ensures Keep(s, level) == s <==> WellNested(Levels(s, level))
  {
    if WellNested(Levels(s, level)) {
      assert [] + Levels(s, level) == Levels(s, level);
      KeepFromIdentity(Closed, [], s, level);
    } else {
      KeepWellNested(s, level);
    }
  }

  /** Running the state machine a second time changes nothing. */
  lemma KeepIdempotent<T>(s: seq<T>, level: T -> string)
    ensures Keep(Keep(s, level), level) == Keep(s, level)
  {
    KeepWellNested(s, level);
    KeepIdentityIff(Keep(s, level), level);
  }

  /** A well-nested outline starts with an H1. */
  lemma WellNestedStartsWithH1(ls: seq<string>)
    requires WellNested(ls) && |ls| > 0
    ensures ls[0] == H1
  {
    assert Nested(ls[..0], ls[0]);
  }

  /** An H1 is always emitted: the H1s of the output are those of the input. */
  lemma {:induction false} KeepFromKeepsH1<T>(a: Active, s: seq<T>, level: T -> string)
    ensures Only(KeepFrom(a, s, level), level, H1) == Only(s, level, H1)
    decreases |s|
  {
    if |s| > 0 {
      match Admit(a, level(s[0]))
      case Some(next) =>
        KeepFromKeepsH1(next, s[1..], level);
        assert ([s[0]] + KeepFrom(next, s[1..], level))[1..] == KeepFrom(next, s[1..], level);
      case None =>
        KeepFromKeepsH1(a, s[1..], level);
    }
  }

  lemma {:induction false} SubsequenceCons<T>(s: seq<T>, x: T, t: seq<T>)
    requires IsSubsequence(s, t)
    ensures IsSubsequence(s, [x] + t)
    decreases |t|, 1
  {
    assert ([x] + t)[1..] == t;
    if |s| > 0 && s[0] == x {
      SubsequenceTail(s, t);
    }
  }

  lemma {:induction false} SubsequenceTail<T>(s: seq<T>, t: seq<T>)
    requires |s| > 0 && IsSubsequence(s, t)
    ensures IsSubsequence(s[1..], t)
    decreases |t|, 0
  {
    if s[0] == t[0] {
      SubsequenceCons(s[1..], t[0], t[1..]);
    } else {
      SubsequenceTail(s, t[1..]);
      SubsequenceCons(s[1..], t[0], t[1..]);
    }
    assert t == [t[0]] + t[1..];
  }

  /** The output is the input with some elements deleted. */
  lemma {:induction false} KeepFromSubsequence<T>(a: Active, s: seq<T>, level: T -> string)
    ensures IsSubsequence(KeepFrom(a, s, level), s)
    decreases |s|
  {
    if |s| > 0 {
      match Admit(a, level(s[0]))
      case Some(next) =>
        KeepFromSubsequence(next, s[1..], level);
        assert ([s[0]] + KeepFrom(next, s[1..], level))[1..] == KeepFrom(next, s[1..], level);
      case None =>
        KeepFromSubsequence(a, s[1..], level);
        SubsequenceCons(KeepFrom(a, s[1..], level), s[0], s[1..]);
        assert s == [s[0]] + s[1..];
    }
  }

  lemma {:induction false} SubsequenceMembers<T>(s: seq<T>, t: seq<T>)
    requires IsSubsequence(s, t)
    ensures forall x :: x in s ==> x in t
    decreases |t|
  {
    if |s| > 0 {
      if s[0] == t[0] {
        SubsequenceMembers(s[1..], t[1..]);
        assert forall x :: x in s ==> x == s[0] || x in s[1..];
      } else {
        SubsequenceMembers(s, t[1..]);
      }
    }
  }

  /** An order that holds between every earlier and later element of `t` holds in any subsequence of it. */
  lemma {:induction false} SubsequenceKeepsOrder<T>(s: seq<T>, t: seq<T>, le: (T, T) -> bool)
    requires IsSubsequence(s, t)
    requires forall i, j :: 0 <= i < j < |t| ==> le(t[i], t[j])
    ensures forall i, j :: 0 <= i < j < |s| ==> le(s[i], s[j])
    decreases |t|
  {
    if |s| > 0 {
      if s[0] == t[0] {
        SubsequenceKeepsOrder(s[1..], t[1..], le);
        SubsequenceMembers(s[1..], t[1..]);
        forall i, j | 0 <= i < j < |s|
          ensures le(s[i], s[j])
        {
          if i == 0 {
            assert s[j] in s[1..];
            var k :| 0 <= k < |t[1..]| && t[1..][k] == s[j];
            assert le(t[0], t[k + 1]);
          } else {
            assert s[i] == s[1..][i - 1] && s[j] == s[1..][j - 1];
          }
        }
      } else {
        SubsequenceKeepsOrder(s, t[1..], le);
      }
    }
  }

  // ----- `_enforce_strict_hierarchy` on candidates -----

  /** Sort key `(page, y0, x0)`; the candidates carry the absent-key default for both coordinates. */
  function CandidateKey(c: Candidate): seq<real> { [c.page as real, c.y0, c.x0] }

  function CandidateLevel(c: Candidate): string { c.level }

  function EntryLevel(e: Entry): string { e.level }

  /** The heading emitted for a candidate: its own level, the normalized text and its page. */
  function ToEntry(c: Candidate): Entry {
    Entry(c.level, NormalizeAsWritten(c.text), c.page)
  }

  function Entries(cs: seq<Candidate>): (r: seq<Entry>)
    ensures |r| == |cs| && forall i :: 0 <= i < |cs| ==> r[i] == ToEntry(cs[i])
  {
    seq(|cs|, i requires 0 <= i < |cs| => ToEntry(cs[i]))
  }

  lemma EntriesSnoc(cs: seq<Candidate>, c: Candidate)
    ensures Entries(cs + [c]) == Entries(cs) + [ToEntry(c)]
  {
  }

  /** What `_enforce_strict_hierarchy` returns. */
  function Enforce(cs: seq<Candidate>): seq<Entry> {
    Entries(Keep(SortBy(cs, CandidateKey), CandidateLevel))
  }

  lemma EntriesLevels(cs: seq<Candidate>)
    ensures Levels(Entries(cs), EntryLevel) == Levels(cs, CandidateLevel)
  {
  }

  /** The emitted outline is well nested, so it starts with an H1. */
  lemma EnforceWellNested(cs: seq<Candidate>)
    ensures WellNested(Levels(Enforce(cs), EntryLevel))
    ensures |Enforce(cs)| > 0 ==> Enforce(cs)[0].level == H1
  {
    var kept := Keep(SortBy(cs, CandidateKey), CandidateLevel);
    KeepWellNested(SortBy(cs, CandidateKey), CandidateLevel);
    EntriesLevels(kept);
    if |Enforce(cs)| > 0 {
      WellNestedStartsWithH1(Levels(Enforce(cs), EntryLevel));
    }
  }

  /** The emitted outline is in page order. */
  lemma EnforcePagesSorted(cs: seq<Candidate>)
    ensures PagesSorted(Enforce(cs))
  {
    var sorted := SortBy(cs, CandidateKey);
    SortBySorted(cs, CandidateKey);
    forall i, j | 0 <= i < j < |sorted|
      ensures sorted[i].page <= sorted[j].page
    {
      assert LexLe(CandidateKey(sorted[i]), CandidateKey(sorted[j]));
    }
    var le := (x: Candidate, y: Candidate) => x.page <= y.page;
    var kept := Keep(sorted, CandidateLevel);
    KeepFromSubsequence(Closed, sorted, CandidateLevel);
    SubsequenceKeepsOrder(kept, sorted, le);
  }

  /** Every emitted heading is on the page of a candidate. */
  lemma EnforcePages(cs: seq<Candidate>)
    ensures forall e :: e in Enforce(cs) ==> exists c :: c in cs && c.page == e.page
  {
    var sorted := SortBy(cs, CandidateKey);
    var kept := Keep(sorted, CandidateLevel);
    var es := Entries(kept);
    KeepFromSubsequence(Closed, sorted, CandidateLevel);
    SubsequenceMembers(kept, sorted);
    forall e | e in es
      ensures exists c :: c in cs && c.page == e.page
    {
      var k := EntryIndex(kept, e);
      assert kept[k] in sorted;
      assert kept[k] in multiset(cs);
    }
  }

  /** An emitted heading is the heading of the candidate at its position, on that candidate's page. */
  lemma EntryIndex(cs: seq<Candidate>, e: Entry) returns (k: nat)
    requires e in Entries(cs)
    ensures k < |cs| && e.page == cs[k].page
  {
    k :| 0 <= k < |Entries(cs)| && Entries(cs)[k] == e;
  }

  /** Every H1 candidate reaches the outline. */
  lemma EnforceKeepsH1(cs: seq<Candidate>, c: Candidate)
    requires c in cs && c.level == H1
    ensures ToEntry(c) in Enforce(cs)
  {
    var sorted := SortBy(cs, CandidateKey);
    assert c in multiset(sorted);
    var kept := Keep(sorted, CandidateLevel);
    KeepFromKeepsH1(Closed, sorted, CandidateLevel);
    OnlyMembers(sorted, CandidateLevel, H1, c);
    OnlyMembers(kept, CandidateLevel, H1, c);
    var k :| 0 <= k < |kept| && kept[k] == c;
    assert Enforce(cs)[k] == ToEntry(c);
  }

  lemma {:induction false} OnlyMembers<T>(s: seq<T>, level: T -> string, l: string, x: T)
    ensures x in Only(s, level, l) <==> x in s && level(x) == l
    decreases |s|
  {
    if |s| > 0 {
      OnlyMembers(s[1..], level, l, x);
      assert x in s <==> x == s[0] || x in s[1..];
    }
  }

  /** Every emitted heading text is the normalized text of a candidate, so it ends in one space. */
  lemma EnforceTexts(cs: seq<Candidate>)
    ensures forall e :: e in Enforce(cs) ==> |e.text| > 0 && e.text[|e.text| - 1] == ' '
  {
    forall e | e in Enforce(cs)
      ensures |e.text| > 0 && e.text[|e.text| - 1] == ' '
    {
      var k :| 0 <= k < |Enforce(cs)| && Enforce(cs)[k] == e;
      var kept := Keep(SortBy(cs, CandidateKey), CandidateLevel);
      NormalizedShape(kept[k].text);
    }
  }

  /** One step of the pass: the first element is emitted with the new flags, or skipped with the old ones. */
  lemma KeepAdvance<T>(kept: seq<T>, a: Active, s: seq<T>, level: T -> string, target: seq<T>)
    requires |s| > 0 && kept + KeepFrom(a, s, level) == target
    ensures Admit(a, level(s[0])).Some? ==>
      (kept + [s[0]]) + KeepFrom(Admit(a, level(s[0])).value, s[1..], level) == target
    ensures Admit(a, level(s[0])).None? ==> kept + KeepFrom(a, s[1..], level) == target
  {
  }

  /** The step of the pass spelled out on the three flags, one case per branch of the loop. */
  lemma FlagStep<T>(kept: seq<T>, h1: bool, h2: bool, h3: bool, s: seq<T>, level: T -> string, target: seq<T>)
    requires |s| > 0 && kept + KeepFrom(Active(h1, h2, h3), s, level) == target
    ensures level(s[0]) == H1 ==> (kept + [s[0]]) + KeepFrom(Active(true, false, false), s[1..], level) == target
    ensures level(s[0]) == H2 && h1 ==> (kept + [s[0]]) + KeepFrom(Active(h1, true, false), s[1..], level) == target
    ensures level(s[0]) == H3 && h2 ==> (kept + [s[0]]) + KeepFrom(Active(h1, h2, true), s[1..], level) == target
    ensures level(s[0]) == H4 && h3 ==> (kept + [s[0]]) + KeepFrom(Active(h1, h2, h3), s[1..], level) == target
    ensures (level(s[0]) == H2 && !h1) || (level(s[0]) == H3 && !h2) || (level(s[0]) == H4 && !h3)
      || (level(s[0]) != H1 && level(s[0]) != H2 && level(s[0]) != H3 && level(s[0]) != H4)
      ==> kept + KeepFrom(Active(h1, h2, h3), s[1..], level) == target
  {
    LevelsDistinct();
    KeepAdvance(kept, Active(h1, h2, h3), s, level, target);
  }

  /** `_enforce_strict_hierarchy`: sort by `(page, y0, x0)`, then one pass with the three flags. */
  method EnforceStrictHierarchy(candidates: seq<Candidate>) returns (headings: seq<Entry>)
    ensures headings == Enforce(candidates)
  {
    if |candidates| == 0 {
      return [];
    }
    var sorted := SortBy(candidates, CandidateKey);
    headings := [];
    ghost var kept: seq<Candidate> := [];
    var h1Active, h2Active, h3Active := false, false, false;
    for i := 0 to |sorted|
      invariant headings == Entries(kept)
      invariant kept + KeepFrom(Active(h1Active, h2Active, h3Active), sorted[i..], CandidateLevel)
        == Keep(sorted, CandidateLevel)
    {
      var candidate := sorted[i];
      var level := candidate.level;
      assert sorted[i..][0] == candidate && sorted[i..][1..] == sorted[i + 1..];
      FlagStep(kept, h1Active, h2Active, h3Active, sorted[i..], CandidateLevel, Keep(sorted, CandidateLevel));
      if level == H1 {
        h1Active, h2Active, h3Active := true, false, false;
      } else if level == H2 {
        if h1Active {
          h2Active, h3Active := true, false;
        } else {
          continue;
        }
      } else if level == H3 {
        if h2Active {
          h3Active := true;
        } else {
          continue;
        }
      } else if level == H4 {
        if !h3Active {
          continue;
        }
      } else {
        continue;
      }
      var heading := Entry(level, NormalizeAsWritten(candidate.text), candidate.page);
      EntriesSnoc(kept, candidate);
      headings := headings + [heading];
      kept := kept + [candidate];
    }
  }
}
