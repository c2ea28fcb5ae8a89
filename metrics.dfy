/**
 * Outline scoring against a ground truth, as the first writer's
 * `_calculate_metrics` (`json_writer.py`) and the command line's
 * `calculate_metrics` (`cli_clean.py`) both compute it: the outlines
 * become sets of (level, stripped text, page) and the counts of the set
 * intersection and differences give precision, recall and F1.
 */
module Metrics {
  import opened Options
  import opened Text
  import opened Records
  import opened Ratios

  /** The tuple `(level, text.strip(), page)` an entry is matched by. */
  function MatchKey(e: Entry): Entry { Entry(e.level, Strip(e.text), e.page) }

  /** The set the add-loop builds from an outline, each entry turned into its tuple by `key`. */
  function KeySet(outline: seq<Entry>, key: Entry -> Entry): set<Entry> {
    set i | 0 <= i < |outline| :: key(outline[i])
  }

  /** The add-loop over one outline. */
  method CollectKeys(outline: seq<Entry>, key: Entry -> Entry) returns (keys: set<Entry>)
    ensures keys == KeySet(outline, key)
  {
    keys := {};
    for i := 0 to |outline|
      invariant keys == KeySet(outline[..i], key)
    {
      assert forall j :: 0 <= j < i ==> outline[..i + 1][j] == outline[..i][j];
      keys := keys + {key(outline[i])};
    }
    assert outline[..|outline|] == outline;
  }

  datatype Scores = Scores(precision: real, recall: real, f1: real, truePositives: nat, falsePositives: nat, falseNegatives: nat)

  /** `n / d if d > 0 else 0` */
  function Ratio(n: nat, d: nat): real {
    if d > 0 then n as real / d as real else 0.0
  }

  /** `2 * p * r / (p + r) if p + r > 0 else 0` */
  function F1(p: real, r: real): real {
    if p + r > 0.0 then 2.0 * p * r / (p + r) else 0.0
  }

  /** The metrics of two key sets. */
  function ScoresOf(predicted: set<Entry>, gold: set<Entry>): Scores {
    var tp := |predicted * gold|;
    var fp := |predicted - gold|;
    var fn := |gold - predicted|;
    var precision := Ratio(tp, tp + fp);
    var recall := Ratio(tp, tp + fn);
    Scores(precision, recall, F1(precision, recall), tp, fp, fn)
  }

  /** `_calculate_metrics` and `calculate_metrics` */
  function OutlineMetrics(predicted: seq<Entry>, gold: seq<Entry>): Scores {
    ScoresOf(KeySet(predicted, MatchKey), KeySet(gold, MatchKey))
  }

  /** `_calculate_metrics` */
  method CalculateMetrics(predicted: seq<Entry>, gold: seq<Entry>) returns (scores: Scores)
    ensures scores == OutlineMetrics(predicted, gold)
  {
    var predSet := CollectKeys(predicted, MatchKey);
    var goldSet := CollectKeys(gold, MatchKey);
    scores := ScoreSets(predSet, goldSet);
  }

  /** The arithmetic of `_calculate_metrics` on the two sets. */
  method ScoreSets(predSet: set<Entry>, goldSet: set<Entry>) returns (scores: Scores)
    ensures scores == ScoresOf(predSet, goldSet)
  {
    var tp := |predSet * goldSet|;
    var fp := |predSet - goldSet|;
    var fn := |goldSet - predSet|;
    var precision := if tp + fp > 0 then tp as real / (tp + fp) as real else 0.0;
    var recall := if tp + fn > 0 then tp as real / (tp + fn) as real else 0.0;
    var f1 := if precision + recall > 0.0 then 2.0 * precision * recall / (precision + recall) else 0.0;
    scores := Scores(precision, recall, f1, tp, fp, fn);
  }

  /** `calculate_metrics` of the command line: outlines read with `.get('outline', [])`. */
  method CliCalculateMetrics(predicted: Option<seq<Entry>>, gold: Option<seq<Entry>>) returns (scores: Scores)
    ensures scores == OutlineMetrics(GetOr(predicted, []), GetOr(gold, []))
  {
    scores := CalculateMetrics(GetOr(predicted, []), GetOr(gold, []));
  }

  /** A ratio of a part to a whole lies in [0, 1]. */
  lemma RatioBounds(n: nat, d: nat)
    requires n <= d
    ensures 0.0 <= Ratio(n, d) <= 1.0
    ensures d > 0 && n == d ==> Ratio(n, d) == 1.0
  {
    if d > 0 {
      assert n as real / d as real <= d as real / d as real;
    }
  }

  /** The harmonic mean of two numbers in [0, 1] lies in [0, 1], and is 1 for two ones. */
  lemma F1Bounds(p: real, r: real)
    requires 0.0 <= p <= 1.0 && 0.0 <= r <= 1.0
    ensures 0.0 <= F1(p, r) <= 1.0
    ensures p == 1.0 && r == 1.0 ==> F1(p, r) == 1.0
    ensures p == 0.0 && r == 0.0 ==> F1(p, r) == 0.0
  {
    if p + r > 0.0 {
      ProductBelow(p, r);
      QuotientAtMostOne(2.0 * p * r, p + r);
    }
  }

  /** Twice the product of two numbers in [0, 1] lies between 0 and their sum. */
  lemma ProductBelow(p: real, r: real)
    requires 0.0 <= p <= 1.0 && 0.0 <= r <= 1.0
    ensures 0.0 <= 2.0 * p * r <= p + r
  {
    ProductNonNegative(p, r);
    ProductNonNegative(p, 1.0 - r);
    ProductNonNegative(1.0 - p, r);
  }

  lemma QuotientAtMostOne(a: real, b: real)
    requires 0.0 <= a <= b && b > 0.0
    ensures 0.0 <= a / b <= 1.0
    ensures a == b ==> a / b == 1.0
  {
    QuotientOrder(a, b, b);
    QuotientOrder(0.0, a, b);
    var one := b / b;
    assert one * b == b;
    assert (one - 1.0) * b == 0.0;
  }

  /** The intersection and the two differences split both key sets. */
  lemma SetSplit(a: set<Entry>, b: set<Entry>)
    ensures |a * b| + |a - b| == |a|
  {
    assert a == (a * b) + (a - b);
    assert (a * b) * (a - b) == {};
  }

  /**
   * The counts partition the two key sets (tp + fp = |P|, tp + fn = |G|),
   * precision is tp / |P| and recall tp / |G| when those are not empty,
   * and all three scores lie in [0, 1].
   */
  lemma MetricsProperties(predicted: seq<Entry>, gold: seq<Entry>)
    ensures var s := OutlineMetrics(predicted, gold);
      var p := KeySet(predicted, MatchKey);
      var g := KeySet(gold, MatchKey);
      s.truePositives == |p * g| && s.falsePositives == |p - g| && s.falseNegatives == |g - p|
      && s.truePositives + s.falsePositives == |p|
      && s.truePositives + s.falseNegatives == |g|
      && (|p| > 0 ==> s.precision == s.truePositives as real / |p| as real)
      && (|g| > 0 ==> s.recall == s.truePositives as real / |g| as real)
      && 0.0 <= s.precision <= 1.0 && 0.0 <= s.recall <= 1.0 && 0.0 <= s.f1 <= 1.0
  {
    ScoreCounts(KeySet(predicted, MatchKey), KeySet(gold, MatchKey));
    ScoreBounds(KeySet(predicted, MatchKey), KeySet(gold, MatchKey));
  }

  /** The counts of two key sets partition both sets. */
  lemma ScoreCounts(p: set<Entry>, g: set<Entry>)
    ensures ScoresOf(p, g).truePositives == |p * g| && ScoresOf(p, g).falsePositives == |p - g|
    ensures ScoresOf(p, g).falseNegatives == |g - p|
    ensures ScoresOf(p, g).truePositives + ScoresOf(p, g).falsePositives == |p|
    ensures ScoresOf(p, g).truePositives + ScoresOf(p, g).falseNegatives == |g|
  {
    SetSplit(p, g);
    SetSplit(g, p);
    assert g * p == p * g;
  }

  /** Precision is tp / |P|, recall tp / |G|, and the three scores lie in [0, 1]. */
  lemma ScoreBounds(p: set<Entry>, g: set<Entry>)
    ensures |p| > 0 ==> ScoresOf(p, g).precision == ScoresOf(p, g).truePositives as real / |p| as real
    ensures |g| > 0 ==> ScoresOf(p, g).recall == ScoresOf(p, g).truePositives as real / |g| as real
    ensures 0.0 <= ScoresOf(p, g).precision <= 1.0 && 0.0 <= ScoresOf(p, g).recall <= 1.0
    ensures 0.0 <= ScoresOf(p, g).f1 <= 1.0
  {
    ScoreCounts(p, g);
    var tp := |p * g|;
    RatioBounds(tp, |p|);
    RatioBounds(tp, |g|);
    F1Bounds(Ratio(tp, |p|), Ratio(tp, |g|));
  }


  /** An outline with an entry has a key. */
  lemma KeySetNonEmpty(outline: seq<Entry>)
    requires |outline| > 0
    ensures |KeySet(outline, MatchKey)| > 0
  {
    assert MatchKey(outline[0]) in KeySet(outline, MatchKey);
  }

  /** Identical non-empty outlines score 1 throughout, with no false positives or negatives. */
  lemma IdenticalOutlines(outline: seq<Entry>)
    requires |outline| > 0
    ensures var s := OutlineMetrics(outline, outline);
      s.precision == 1.0 && s.recall == 1.0 && s.f1 == 1.0 && s.falsePositives == 0 && s.falseNegatives == 0
  {
    KeySetNonEmpty(outline);
    SameSets(KeySet(outline, MatchKey));
  }

  /** A non-empty key set scored against itself is perfect. */
  lemma SameSets(p: set<Entry>)
    requires |p| > 0
    ensures var s := ScoresOf(p, p);
      s.precision == 1.0 && s.recall == 1.0 && s.f1 == 1.0 && s.falsePositives == 0 && s.falseNegatives == 0
  {
    assert p * p == p && p - p == {};
    var tp := |p|;
    assert Ratio(tp, tp + 0) == 1.0;
    F1Bounds(1.0, 1.0);
  }

  /** Key sets with nothing in common score 0, with every key a false positive or a false negative. */
  lemma DisjointSets(p: set<Entry>, g: set<Entry>)
    requires p * g == {}
    ensures var s := ScoresOf(p, g);
      s.precision == 0.0 && s.recall == 0.0 && s.f1 == 0.0 && s.falsePositives == |p| && s.falseNegatives == |g|
  {
    forall x | x in p ensures x !in g { assert x !in p * g; }
    assert p - g == p;
    assert g - p == g;
  }

  /** Outlines with no entry in common score 0, every predicted entry a false positive and every gold one a false negative. */
  lemma DisjointOutlines(predicted: seq<Entry>, gold: seq<Entry>)
    requires forall i, j :: 0 <= i < |predicted| && 0 <= j < |gold| ==> MatchKey(predicted[i]) != MatchKey(gold[j])
    ensures var s := OutlineMetrics(predicted, gold);
      s.precision == 0.0 && s.recall == 0.0 && s.f1 == 0.0
      && s.falsePositives == |KeySet(predicted, MatchKey)| && s.falseNegatives == |KeySet(gold, MatchKey)|
  {
    var p := KeySet(predicted, MatchKey);
    var g := KeySet(gold, MatchKey);
    KeySetsApart(predicted, gold, MatchKey);
    DisjointSets(p, g);
  }

  /** Lists whose keys never meet have disjoint key sets. */
  lemma KeySetsApart(a: seq<Entry>, b: seq<Entry>, key: Entry -> Entry)
    requires forall i, j :: 0 <= i < |a| && 0 <= j < |b| ==> key(a[i]) != key(b[j])
    ensures KeySet(a, key) * KeySet(b, key) == {}
  {
    forall x | x in KeySet(a, key)
      ensures x !in KeySet(b, key)
    {
      var i :| 0 <= i < |a| && x == key(a[i]);
    }
  }

  /** Two empty outlines score 0 throughout (unlike `compare_outlines`, which answers 1). */
  lemma EmptyOutlines()
    ensures var s := OutlineMetrics([], []);
      s.precision == 0.0 && s.recall == 0.0 && s.f1 == 0.0
  {
    assert KeySet([], MatchKey) == {};
  }

  /** Repeating an entry of a list does not change its key set. */
  lemma KeySetRepeat(s: seq<Entry>, i: nat, key: Entry -> Entry)
    requires i < |s|
    ensures KeySet(s + [s[i]], key) == KeySet(s, key)
  {
    var longer := s + [s[i]];
    forall x | x in KeySet(longer, key)
      ensures x in KeySet(s, key)
    {
      var j :| 0 <= j < |longer| && x == key(longer[j]);
      if j < |s| {
        assert longer[j] == s[j];
      } else {
        assert longer[j] == s[i];
      }
    }
    forall x | x in KeySet(s, key)
      ensures x in KeySet(longer, key)
    {
      var j :| 0 <= j < |s| && x == key(s[j]);
      assert longer[j] == s[j];
    }
  }

  /** A key set has at most one key per entry. */
  lemma {:induction false} KeySetSize(s: seq<Entry>, key: Entry -> Entry)
    ensures |KeySet(s, key)| <= |s|
  {
    if |s| > 0 {
      var init := s[..|s| - 1];
      KeySetSize(init, key);
      assert KeySet(s, key) <= KeySet(init, key) + {key(s[|s| - 1])} by {
        forall x | x in KeySet(s, key)
          ensures x in KeySet(init, key) + {key(s[|s| - 1])}
        {
          var j :| 0 <= j < |s| && x == key(s[j]);
          if j < |s| - 1 {
            assert init[j] == s[j];
          }
        }
      }
      SubsetSize(KeySet(s, key), KeySet(init, key) + {key(s[|s| - 1])});
    }
  }

  lemma SubsetSize(a: set<Entry>, b: set<Entry>)
    requires a <= b
    ensures |a| <= |b|
  {
    assert b == a + (b - a);
  }

  /** A repeated entry adds nothing: the outlines are compared as sets. */
  lemma DuplicatesCollapse(predicted: seq<Entry>, i: nat, gold: seq<Entry>)
    requires i < |predicted|
    ensures OutlineMetrics(predicted + [predicted[i]], gold) == OutlineMetrics(predicted, gold)
  {
    KeySetRepeat(predicted, i, MatchKey);
  }

  /** One-entry outlines whose keys differ: one false positive, one false negative, nothing matched. */
  lemma SingleEntryMiss(a: Entry, b: Entry)
    requires MatchKey(a) != MatchKey(b)
    ensures var s := OutlineMetrics([a], [b]);
      s.truePositives == 0 && s.falsePositives == 1 && s.falseNegatives == 1
  {
    SingleKeySet(a, MatchKey);
    SingleKeySet(b, MatchKey);
    DisjointSets({MatchKey(a)}, {MatchKey(b)});
  }

  /** The match is case-sensitive: a heading differing only in case is a miss both ways. */
  lemma CaseSensitiveMatch()
    ensures var s := OutlineMetrics([Entry(H1, "Intro", 0)], [Entry(H1, "intro", 0)]);
      s.truePositives == 0 && s.falsePositives == 1 && s.falseNegatives == 1
  {
    StrippedKeysDiffer(H1, "Intro", "intro", 0);
    SingleEntryMiss(Entry(H1, "Intro", 0), Entry(H1, "intro", 0));
  }

  /** Entries whose texts have no outer whitespace and differ have different keys. */
  lemma StrippedKeysDiffer(level: string, t: string, u: string, page: int)
    requires |t| > 0 && !IsSpace(t[0]) && !IsSpace(t[|t| - 1])
    requires |u| > 0 && !IsSpace(u[0]) && !IsSpace(u[|u| - 1])
    requires t != u
    ensures MatchKey(Entry(level, t, page)) != MatchKey(Entry(level, u, page))
  {
    StripOfStripped(t);
    StripOfStripped(u);
  }

  lemma SingleKeySet(e: Entry, key: Entry -> Entry)
    ensures KeySet([e], key) == {key(e)}
  {
    assert key([e][0]) in KeySet([e], key);
  }
}
