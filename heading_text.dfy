/**
 * `_normalize_heading_text`: the text an outline entry carries. The
 * spacing after a section number ("1.  Introduction") and after an
 * appendix label ("Appendix B:  ODL") is reduced to one space, the text is
 * stripped and one trailing space is added.
 */
module HeadingText {
  import opened Text
  import opened Patterns
  import opened Options

  /** `re.sub(r'^(\d+)\.\s+', r'\1. ', t)` */
  function NumberedRewrite(t: string): string {
    if NumberedPrefix(t) then
      var n := LeadingCount(t, IsDigit);
      var w := LeadingCount(t[n + 1..], IsSpace);
      t[..n] + ". " + t[n + 1 + w..]
    else t
  }

  /** `re.sub(r'^(\d+\.\d+)\s+', r'\1 ', t)` */
  function DecimalRewrite(t: string): string {
    if SubsectionPrefix(t) then
      var u := AfterDecimal(t).value;
      var w := LeadingCount(u, IsSpace);
      t[..|t| - |u|] + " " + u[w..]
    else t
  }

  /** "Appendix A:", "Appendix B:" or "Appendix C:" followed by whitespace starts `t`. */
  predicate AppendixLabelAt(t: string) {
    |t| > 11 && t[0] == 'A' && t[1] == 'p' && t[2] == 'p' && t[3] == 'e' && t[4] == 'n' && t[5] == 'd' && t[6] == 'i'
    && t[7] == 'x' && t[8] == ' ' && LabelLetter(t[9]) && t[10] == ':' && IsSpace(t[11])
  }

  predicate LabelLetter(c: char) {
    c == 'A' || c == 'B' || c == 'C'
  }

  /** `re.sub(r'(Appendix [ABC]):\s+', r'\1: ', t)`: a left-to-right scan that resumes after each match. */
  function AppendixRewrite(t: string): (r: string)
    decreases |t|
  {
    if |t| == 0 then ""
    else if AppendixLabelAt(t) then
      var w := LeadingCount(t[11..], IsSpace);
      t[..11] + " " + AppendixRewrite(t[11 + w..])
    else [t[0]] + AppendixRewrite(t[1..])
  }

  /** The three rewrites in the source's order. */
  function Rewrites(t: string): string {
    AppendixRewrite(DecimalRewrite(NumberedRewrite(t)))
  }

  /**
   * `_normalize_heading_text` as written: the rewrites run on the raw text
   * and the strip comes after them, although the code's comment says to
   * strip first. The hierarchy pass and the invitation path use this one.
   */
  function NormalizeAsWritten(t: string): string {
    Strip(Rewrites(t)) + " "
  }

  /** `_normalize_heading_text` with the strip done first, as its comment intends. */
  function NormalizeHeadingText(t: string): string {
    Strip(Rewrites(Strip(t))) + " "
  }

  // ----- The appendix rewrite -----

  /**
   * Every appendix label in `t` is followed by exactly one blank space and
   * then by a non-blank or the end: the form the appendix rewrite leaves.
   */
  predicate AppendixNormal(t: string) {
    forall i :: 0 <= i < |t| && AppendixLabelAt(t[i..]) ==>
      t[i + 11] == ' ' && (i + 12 == |t| || !IsSpace(t[i + 12]))
  }

  lemma AppendixRewriteFirst(t: string)
    requires |t| > 0
    ensures |AppendixRewrite(t)| > 0 && AppendixRewrite(t)[0] == t[0]
  {
  }

  /** A prefix with no letter `A` in it cannot hold the start of a match, so the scan copies it. */
  lemma {:induction false} AppendixRewriteKeepsPrefix(t: string, k: nat)
    requires k <= |t| && forall j :: 0 <= j < k ==> t[j] != 'A'
    ensures AppendixRewrite(t) == t[..k] + AppendixRewrite(t[k..])
    decreases k
  {
    if k > 0 {
      assert !AppendixLabelAt(t);
      assert AppendixRewrite(t) == [t[0]] + AppendixRewrite(t[1..]);
      AppendixRewriteKeepsPrefix(t[1..], k - 1);
      TailSlices(t, k);
      Assoc([t[0]], t[1..][..k - 1], AppendixRewrite(t[k..]));
    }
  }

  /** The same for a prefix at none of whose positions a label starts. */
  lemma {:induction false} AppendixRewriteKeepsUnlabelled(t: string, k: nat)
    requires k <= |t| && forall j :: 0 <= j < k ==> !AppendixLabelAt(t[j..])
    ensures AppendixRewrite(t) == t[..k] + AppendixRewrite(t[k..])
    decreases k
  {
    if k > 0 {
      assert t[0..] == t;
      forall j | 0 <= j < k - 1
        ensures !AppendixLabelAt(t[1..][j..])
      {
        assert t[1..][j..] == t[j + 1..];
      }
      AppendixRewriteKeepsUnlabelled(t[1..], k - 1);
      TailSlices(t, k);
      Assoc([t[0]], t[1..][..k - 1], AppendixRewrite(t[k..]));
    }
  }

  /** The characters up to the first letter `A` and the one after them pass through the rewrite. */
  lemma AppendixRewriteKeepsHead(s: string, k: nat)
    requires k < |s| && forall j :: 0 <= j < k ==> s[j] != 'A'
    ensures |AppendixRewrite(s)| > k && forall i :: 0 <= i <= k ==> AppendixRewrite(s)[i] == s[i]
  {
    AppendixRewriteKeepsPrefix(s, k);
    AppendixRewriteFirst(s[k..]);
  }

  /** Whether a label starts a text depends on its first twelve characters only. */
  lemma LabelHead(x: string, y: string)
    requires |x| > 11 && |y| > 11 && x[..12] == y[..12]
    ensures AppendixLabelAt(x) == AppendixLabelAt(y)
  {
    assert x[..9] == x[..12][..9] && y[..9] == y[..12][..9];
    assert forall i :: 0 <= i < 12 ==> x[i] == x[..12][i] == y[..12][i] == y[i];
  }

  /** A space added at the end changes no label at the head of a text of twelve characters or more. */
  lemma LabelOfSnoc(t: string)
    requires |t| > 11
    ensures AppendixLabelAt(t + " ") == AppendixLabelAt(t)
  {
    assert forall i :: 0 <= i < |t| ==> (t + " ")[i] == t[i];
  }

  /** A label at the head of a text is still there after the rewrite, followed by a single space. */
  lemma LabelSurvives(t: string)
    requires AppendixLabelAt(t)
    ensures |AppendixRewrite(t)| > 11 && AppendixRewrite(t)[..11] == t[..11] && AppendixRewrite(t)[11] == ' '
    ensures AppendixLabelAt(AppendixRewrite(t))
  {
    var w := LeadingCount(t[11..], IsSpace);
    var r := AppendixRewrite(t);
    assert r == t[..11] + " " + AppendixRewrite(t[11 + w..]);
    assert r[..9] == t[..9];
  }

  /** No label starts within eleven characters after another one. */
  lemma LabelsApart(x: string, i: nat)
    requires 0 < i < 12 && i < |x|
    ensures !(AppendixLabelAt(x) && AppendixLabelAt(x[i..]))
  {
    if i < 9 && AppendixLabelAt(x) {
      assert x[..9][i] == x[i];
      assert forall k :: 1 <= k < 9 ==> "Appendix "[k] != 'A';
    } else if i == 9 && AppendixLabelAt(x[i..]) {
      assert x[i..][..9][1] == x[10];
    }
  }

  /** The rewrite never creates a label at the head of a text that had none there. */
  lemma {:induction false} NoNewLabelFrom(t: string, j: nat)
    requires 1 <= j <= 12 && !AppendixLabelAt(t)
    requires forall i :: 0 < i < j && i < |t| ==> !AppendixLabelAt(t[i..])
    ensures !AppendixLabelAt(AppendixRewrite(t))
    decreases 12 - j
  {
    assert t[0..] == t;
    if j < 12 && j < |t| && AppendixLabelAt(t[j..]) {
      AppendixRewriteKeepsUnlabelled(t, j);
      var r := AppendixRewrite(t);
      LabelSurvives(t[j..]);
      assert r[j..] == AppendixRewrite(t[j..]);
      LabelsApart(r, j);
    } else if j < 12 && j < |t| {
      NoNewLabelFrom(t, j + 1);
    } else if |t| < 12 {
      AppendixRewriteKeepsUnlabelled(t, |t|);
      assert t[|t|..] == [];
    } else {
      AppendixRewriteKeepsUnlabelled(t, 12);
      var r := AppendixRewrite(t);
      assert r[..12] == t[..12];
      LabelHead(r, t);
    }
  }

  /** Whatever the input, the rewrite leaves every label followed by exactly one space. */
  lemma {:induction false} AppendixRewriteIsNormal(t: string)
    ensures AppendixNormal(AppendixRewrite(t))
    decreases |t|
  {
    if |t| == 0 {
    } else if AppendixLabelAt(t) {
      var w := LeadingCount(t[11..], IsSpace);
      AppendixRewriteIsNormal(t[11 + w..]);
      IsNormalLabelStep(t, w);
    } else {
      AppendixRewriteIsNormal(t[1..]);
      IsNormalPlainStep(t);
    }
  }

  /** A label, its whitespace run rewritten to one space, then a rewritten rest that is already settled. */
  lemma IsNormalLabelStep(t: string, w: nat)
    requires AppendixLabelAt(t) && w == LeadingCount(t[11..], IsSpace)
    requires AppendixNormal(AppendixRewrite(t[11 + w..]))
    ensures AppendixNormal(AppendixRewrite(t))
  {
    var v := AppendixRewrite(t[11 + w..]);
    assert AppendixRewrite(t) == t[..11] + " " + v;
    SuffixOfConcat(t[..11] + " ", v, 12);
    LabelHeadNormal(t, w);
    NormalOf(AppendixRewrite(t), 12);
  }

  /** After the rewrite, the label at the head is followed by one blank and a non-blank, and no other label starts within it. */
  lemma LabelHeadNormal(t: string, w: nat)
    requires AppendixLabelAt(t) && w == LeadingCount(t[11..], IsSpace)
    ensures HeadNormal(AppendixRewrite(t), 12)
  {
    var r := AppendixRewrite(t);
    var u := t[11 + w..];
    var v := AppendixRewrite(u);
    assert r == t[..11] + " " + v;
    LabelSurvives(t);
    if |v| > 0 {
      AppendixRewriteFirst(u);
      assert u[0] == t[11..][w];
      assert r[12] == v[0];
    }
    forall i | 0 < i < 12 && i < |r|
      ensures !AppendixLabelAt(r[i..])
    {
      LabelsApart(r, i);
    }
    SliceAll(r);
  }

  /** No label at the head: one character, then a rewritten rest that is already settled. */
  lemma IsNormalPlainStep(t: string)
    requires |t| > 0 && !AppendixLabelAt(t) && AppendixNormal(AppendixRewrite(t[1..]))
    ensures AppendixNormal(AppendixRewrite(t))
  {
    var r := AppendixRewrite(t);
    var v := AppendixRewrite(t[1..]);
    assert r == [t[0]] + v;
    DropHead([t[0]], v);
    assert HeadNormal(r, 1) by {
      NoNewLabelFrom(t, 1);
      SliceAll(r);
    }
    NormalOf(r, 1);
  }

  /** Every label that starts before position `k` is followed by one blank and then a non-blank or the end. */
  predicate HeadNormal(r: string, k: nat) {
    forall i :: 0 <= i < k && i < |r| && AppendixLabelAt(r[i..]) ==> r[i + 11] == ' ' && (i + 12 == |r| || !IsSpace(r[i + 12]))
  }

  /** Settled before `k` and settled from `k` on: settled. */
  lemma NormalOf(r: string, k: nat)
    requires k <= |r| && HeadNormal(r, k) && AppendixNormal(r[k..])
    ensures AppendixNormal(r)
  {
    forall i | k <= i < |r| && AppendixLabelAt(r[i..])
      ensures r[i + 11] == ' ' && (i + 12 == |r| || !IsSpace(r[i + 12]))
    {
      assert r[k..][i - k..] == r[i..];
    }
  }

  lemma NormalSuffix(t: string, k: nat)
    requires AppendixNormal(t) && k <= |t|
    ensures AppendixNormal(t[k..])
  {
    forall i | 0 <= i < |t[k..]| && AppendixLabelAt(t[k..][i..])
      ensures t[k..][i + 11] == ' ' && (i + 12 == |t[k..]| || !IsSpace(t[k..][i + 12]))
    {
      assert t[k..][i..] == t[k + i..];
    }
  }

  /** A text already in that form is left alone by the rewrite. */
  lemma {:induction false} AppendixRewriteNormal(t: string)
    requires AppendixNormal(t)
    ensures AppendixRewrite(t) == t
    decreases |t|
  {
    if |t| > 0 {
      assert t[0..] == t;
      if AppendixLabelAt(t) {
        LeadingCountOf(t[11..], IsSpace, 1);
        NormalSuffix(t, 12);
        AppendixRewriteNormal(t[12..]);
        Cuts(t, 11, 12);
        assert t[11..12] == " ";
      } else {
        NormalSuffix(t, 1);
        AppendixRewriteNormal(t[1..]);
        Cuts(t, 0, 1);
      }
    }
  }

  /** Rewriting twice is rewriting once. */
  lemma AppendixRewriteIdempotent(t: string)
    ensures AppendixRewrite(AppendixRewrite(t)) == AppendixRewrite(t)
  {
    AppendixRewriteIsNormal(t);
    AppendixRewriteNormal(AppendixRewrite(t));
  }

  /** A text ending in a non-blank keeps its last character through the rewrite. */
  lemma {:induction false} AppendixRewriteLast(t: string)
    requires |t| > 0 && !IsSpace(t[|t| - 1])
    ensures |AppendixRewrite(t)| > 0 && AppendixRewrite(t)[|AppendixRewrite(t)| - 1] == t[|t| - 1]
    decreases |t|
  {
    if AppendixLabelAt(t) {
      var w := LeadingCount(t[11..], IsSpace);
      assert !IsSpace(t[11..][|t| - 12]);
      AppendixRewriteLast(t[11 + w..]);
    } else if |t| > 1 {
      AppendixRewriteLast(t[1..]);
    }
  }

  /** A space added after a text that ends in a non-blank passes through the rewrite. */
  lemma {:induction false} AppendixRewriteSnocSpace(t: string)
    requires |t| > 0 && !IsSpace(t[|t| - 1])
    ensures AppendixRewrite(t + " ") == AppendixRewrite(t) + " "
    decreases |t|
  {
    if AppendixLabelAt(t + " ") && |t| == 11 {
      SnocSpaceShortLabel(t);
    } else if AppendixLabelAt(t + " ") {
      var w := LeadingCount(t[11..], IsSpace);
      SnocSpaceLabelStep(t, w);
      var u := t[11 + w..];
      AppendixRewriteSnocSpace(u);
      Regroup(t[..11], " ", AppendixRewrite(u), " ");
    } else {
      SnocSpacePlainStep(t);
      if |t| > 1 {
        AppendixRewriteSnocSpace(t[1..]);
      }
      Assoc([t[0]], AppendixRewrite(t[1..]), " ");
    }
  }

  /** A label that the added space completes is rewritten to itself. */
  lemma SnocSpaceShortLabel(t: string)
    requires |t| == 11 && AppendixLabelAt(t + " ")
    ensures AppendixRewrite(t + " ") == AppendixRewrite(t) + " "
  {
    var x := t + " ";
    LeadingCountOf(x[11..], IsSpace, 1);
    assert x[12..] == [];
    AppendixRewriteNormal(t);
    assert x[..11] == t;
  }

  /** A label before the end: the added space passes to the text after the label's whitespace run. */
  lemma SnocSpaceLabelStep(t: string, w: nat)
    requires |t| > 11 && AppendixLabelAt(t + " ") && !IsSpace(t[|t| - 1]) && w == LeadingCount(t[11..], IsSpace)
    ensures 11 + w < |t| && AppendixRewrite(t) == t[..11] + " " + AppendixRewrite(t[11 + w..])
    ensures AppendixRewrite(t + " ") == t[..11] + " " + AppendixRewrite(t[11 + w..] + " ")
  {
    LabelOfSnoc(t);
    LabelStep(t, w);
    SnocLabelStep(t, w);
  }

  /** One label step of the scan on a text that does not end in a blank. */
  lemma LabelStep(t: string, w: nat)
    requires AppendixLabelAt(t) && !IsSpace(t[|t| - 1]) && w == LeadingCount(t[11..], IsSpace)
    ensures 11 + w < |t| && AppendixRewrite(t) == t[..11] + " " + AppendixRewrite(t[11 + w..])
  {
    LabelRunBound(t, w);
  }

  /** The blanks after a label end before the text does when the text ends in a non-blank. */
  lemma LabelRunBound(t: string, w: nat)
    requires AppendixLabelAt(t) && !IsSpace(t[|t| - 1]) && w == LeadingCount(t[11..], IsSpace)
    ensures 11 + w < |t|
  {
    assert t[11..][|t| - 12] == t[|t| - 1];
    StrippedAfterRun(t[11..]);
  }

  /** The same label step with one blank added at the end. */
  lemma SnocLabelStep(t: string, w: nat)
    requires AppendixLabelAt(t + " ") && 11 + w < |t| && w == LeadingCount(t[11..], IsSpace)
    ensures AppendixRewrite(t + " ") == t[..11] + " " + AppendixRewrite(t[11 + w..] + " ")
  {
    SliceConcat(t, " ", 11);
    assert (t + " ")[11..][w] == t[11 + w];
    LeadingCountOf((t + " ")[11..], IsSpace, w);
    SliceConcat(t, " ", 11 + w);
  }


  /** No label at the head: the first character passes and the added space goes on with the rest. */
  lemma SnocSpacePlainStep(t: string)
    requires |t| > 0 && !AppendixLabelAt(t + " ")
    ensures AppendixRewrite(t) == [t[0]] + AppendixRewrite(t[1..])
    ensures AppendixRewrite(t + " ") == [t[0]] + AppendixRewrite(t[1..] + " ")
    ensures |t| == 1 ==> AppendixRewrite(t[1..] + " ") == AppendixRewrite(t[1..]) + " "
  {
    if |t| > 11 {
      LabelOfSnoc(t);
    }
    SliceConcat(t, " ", 1);
    if |t| == 1 {
      assert t[1..] + " " == " ";
      assert AppendixRewrite(" ") == " ";
    }
  }

  // ----- The numbered and decimal rewrites -----

  /** `^\d+\.\s+` with a non-blank somewhere after the whitespace: a numbered heading with a title. */
  predicate TitledNumber(s: string) {
    NumberedPrefix(s) && !All(s[LeadingCount(s, IsDigit) + 1..], IsSpace)
  }

  /** `r` starts with the first `n` characters of `t`, then ". " and a non-blank. */
  predicate SingleSpaced(r: string, t: string, n: nat) {
    n < |t| && n + 2 < |r| && (forall i :: 0 <= i < n ==> r[i] == t[i]) && r[n] == '.' && r[n + 1] == ' ' && !IsSpace(r[n + 2])
  }

  /** `strip()` keeps the characters up to a non-whitespace one when the text starts with one. */
  lemma StripKeepsHead(v: string, k: nat)
    requires k < |v| && !IsSpace(v[0]) && !IsSpace(v[k])
    ensures |Strip(v)| > k && forall i :: 0 <= i <= k ==> Strip(v)[i] == v[i]
  {
    LStripOfStripped(v);
    var r := RStrip(v);
    assert r == v[..|r|];
    assert forall i :: 0 <= i < |r| ==> r[i] == v[i];
  }

  /** A number followed by a full stop and spaces, and then a title, ends up followed by one space and the title. */
  lemma NumberedRewriteShape(s: string)
    requires TitledNumber(s)
    ensures SingleSpaced(NumberedRewrite(s), s, NumberLength(s))
  {
    var n := NumberLength(s);
    var w := LeadingCount(s[n + 1..], IsSpace);
    assert s[n + 1..][w] == s[n + 1 + w];
  }

  /** The decimal rewrite leaves "1. Title" alone: after the number comes a space, not a digit. */
  lemma DecimalSkipsNumbered(a: string, n: nat)
    requires 0 < n && n + 1 < |a| && (forall i :: 0 <= i < n ==> IsDigit(a[i])) && a[n] == '.' && a[n + 1] == ' '
    ensures DecimalRewrite(a) == a
  {
    LeadingCountOf(a, IsDigit, n);
    assert LeadingCount(a[n + 1..], IsDigit) == 0;
  }

  /** The three rewrites on a numbered heading with a title: number, full stop, one space, then the title. */
  lemma RewritesNumbered(s: string)
    requires TitledNumber(s)
    ensures SingleSpaced(Rewrites(s), s, NumberLength(s))
  {
    var k := NumberedTitleStart(s);
    TitledStart(s);
    AppendixRewriteFirst(s[k..]);
    RewritesNumberedCore(s);
    SingleSpacedOf(s, AppendixRewrite(s[k..]), NumberLength(s));
  }

  /** A numbered heading with a title: the title starts with a non-blank. */
  lemma TitledStart(s: string)
    requires TitledNumber(s)
    ensures NumberedTitleStart(s) < |s| && !IsSpace(s[NumberedTitleStart(s)])
  {
    var n := NumberLength(s);
    var w := LeadingCount(s[n + 1..], IsSpace);
    assert s[n + 1..][w] == s[n + 1 + w];
  }

  /** The first `n` characters of `t`, ". " and a text that starts with a non-blank. */
  lemma SingleSpacedOf(t: string, v: string, n: nat)
    requires n < |t| && |v| > 0 && !IsSpace(v[0])
    ensures SingleSpaced(t[..n] + ". " + v, t, n)
  {
    ThreeParts(t[..n], ". ", v);
  }

  /** A number, a full stop, one space and a non-blank at the head of `b` survive the strip and the added blank. */
  lemma NumberedHeadSurvives(b: string, t: string, n: nat)
    requires 0 < n && SingleSpaced(b, t, n) && forall i :: 0 <= i < n ==> IsDigit(t[i])
    ensures SingleSpaced(Strip(b) + " ", t, n)
  {
    assert !IsSpace(b[0]) by {
      assert IsDigit(t[0]);
    }
    StripKeepsHead(b, n + 2);
  }

  /**
   * A numbered heading that starts with its number has exactly one space
   * between the number and the title once normalized, whatever whitespace
   * followed the number or follows the title.
   */
  lemma NumberedSpacing(t: string)
    requires TitledNumber(t)
    ensures SingleSpaced(NormalizeAsWritten(t), t, NumberLength(t))
  {
    RewritesNumbered(t);
    NumberedHeadSurvives(Rewrites(t), t, NumberLength(t));
  }

  /** As written, a leading blank hides a section number from both number rewrites; only the appendix rewrite applies. */
  lemma LeadingBlankSkipsNumbering(t: string)
    requires |t| > 0 && IsSpace(t[0])
    ensures Rewrites(t) == AppendixRewrite(t)
  {
    LeadingCountOf(t, IsDigit, 0);
  }

  /** The length of the leading number. */
  function NumberLength(t: string): (n: nat)
    ensures n <= |t|
  {
    LeadingCount(t, IsDigit)
  }

  /** Where the title starts after "N." and its whitespace run. */
  function NumberedTitleStart(t: string): (k: nat)
    requires NumberedPrefix(t)
    ensures NumberLength(t) + 2 <= k <= |t|
  {
    var n := NumberLength(t);
    n + 1 + LeadingCount(t[n + 1..], IsSpace)
  }

  /** The three rewrites on "N." and a whitespace run: the run becomes one space and the appendix rewrite applies to the rest. */
  lemma RewritesNumberedCore(t: string)
    requires NumberedPrefix(t)
    ensures Rewrites(t) == t[..NumberLength(t)] + ". " + AppendixRewrite(t[NumberedTitleStart(t)..])
  {
    var n := NumberLength(t);
    var h := t[..n];
    var rest := t[NumberedTitleStart(t)..];
    assert NumberedRewrite(t) == h + ". " + rest;
    forall i | 0 <= i < n
      ensures IsDigit(h[i])
    {
      assert h[i] == t[i];
    }
    NumberHeadSkipsDecimal(h, rest);
    NumberHeadSkipsLabel(h, rest);
  }

  /** "N. " leaves no "N.M" for the decimal rewrite. */
  lemma NumberHeadSkipsDecimal(h: string, rest: string)
    requires 0 < |h| && forall i :: 0 <= i < |h| ==> IsDigit(h[i])
    ensures DecimalRewrite(h + ". " + rest) == h + ". " + rest
  {
    var a := h + ". " + rest;
    assert forall i :: 0 <= i < |h| ==> a[i] == h[i];
    DecimalSkipsNumbered(a, |h|);
  }

  /** "N. " holds no letter `A`, so the appendix rewrite only sees what follows it. */
  lemma NumberHeadSkipsLabel(h: string, rest: string)
    requires forall i :: 0 <= i < |h| ==> IsDigit(h[i])
    ensures AppendixRewrite(h + ". " + rest) == h + ". " + AppendixRewrite(rest)
  {
    var a := h + ". " + rest;
    forall j | 0 <= j < |h| + 2
      ensures a[j] != 'A'
    {
      if j < |h| {
        assert a[j] == h[j];
      }
    }
    AppendixRewriteKeepsPrefix(a, |h| + 2);
    ThreeParts(h, ". ", rest);
  }


  /** Where the title starts after "N.M" and its whitespace run. */
  function DecimalTitleStart(t: string): (k: nat)
    requires SubsectionPrefix(t)
    ensures k <= |t|
  {
    var u := AfterDecimal(t).value;
    |t| - |u| + LeadingCount(u, IsSpace)
  }

  /** The length of the leading "N.M". */
  function DecimalLength(t: string): (k: nat)
    requires SubsectionPrefix(t)
    ensures k < |t|
  {
    |t| - |AfterDecimal(t).value|
  }

  /** The three rewrites on "N.M" and a whitespace run: the run becomes one space and the appendix rewrite applies to the rest. */
  lemma RewritesDecimalCore(t: string)
    requires !NumberedPrefix(t) && SubsectionPrefix(t)
    ensures Rewrites(t) == t[..DecimalLength(t)] + " " + AppendixRewrite(t[DecimalTitleStart(t)..])
  {
    assert NumberedRewrite(t) == t;
    DecimalRewriteOf(t);
    AppendixAfterDecimal(t, t[DecimalTitleStart(t)..]);
  }

  /** The decimal rewrite on "N.M" and a whitespace run: the run becomes one space. */
  lemma DecimalRewriteOf(t: string)
    requires SubsectionPrefix(t)
    ensures DecimalRewrite(t) == t[..DecimalLength(t)] + " " + t[DecimalTitleStart(t)..]
  {
    DecimalTitleSuffix(t);
  }

  /** The title after "N.M" is what follows the number with its leading blanks dropped. */
  lemma DecimalTitleSuffix(t: string)
    requires SubsectionPrefix(t)
    ensures t[DecimalTitleStart(t)..] == AfterDecimal(t).value[LeadingCount(AfterDecimal(t).value, IsSpace)..]
  {
    AfterDecimalSuffix(t);
    TitleAfterRun(t, AfterDecimal(t).value, DecimalTitleStart(t));
  }

  /** Dropping a suffix's leading blanks, counted from the start of the whole text. */
  lemma TitleAfterRun(t: string, u: string, k: nat)
    requires |u| <= |t| && u == t[|t| - |u|..] && k == |t| - |u| + LeadingCount(u, IsSpace)
    ensures t[k..] == u[LeadingCount(u, IsSpace)..]
  {
    SuffixDrop(t, u, LeadingCount(u, IsSpace));
  }

  /** What follows "N.M" ends where the text ends. */
  lemma AfterDecimalLast(t: string)
    requires SubsectionPrefix(t)
    ensures AfterDecimal(t).value[|AfterDecimal(t).value| - 1] == t[|t| - 1]
  {
    AfterDecimalSuffix(t);
  }



  /** What follows "N.M" is a suffix of the text. */
  lemma AfterDecimalSuffix(t: string)
    requires AfterDecimal(t).Some?
    ensures AfterDecimal(t).value == t[|t| - |AfterDecimal(t).value|..]
  {
  }



  /** The appendix rewrite passes over "N.M" and a space, on to the title. */
  lemma AppendixAfterDecimal(t: string, rest: string)
    requires SubsectionPrefix(t)
    ensures AppendixRewrite(t[..DecimalLength(t)] + " " + rest) == t[..DecimalLength(t)] + " " + AppendixRewrite(rest)
  {
    var n := LeadingCount(t, IsDigit);
    var m := LeadingCount(t[n + 1..], IsDigit);
    AfterDecimalAt(t, n, m);
    var p := t[..DecimalLength(t)];
    var b := p + " " + rest;
    ThreeParts(p, " ", rest);
    forall j | 0 <= j < n + 2 + m
      ensures b[j] != 'A'
    {
      if j < n {
        assert IsDigit(t[j]);
      } else if n < j < n + 1 + m {
        assert IsDigit(t[n + 1..][j - n - 1]);
      }
    }
    AppendixRewriteKeepsPrefix(b, n + 2 + m);
  }

  /** "N." followed by a run of digits: what follows the run is what `AfterDecimal` gives. */
  lemma AfterDecimalAt(c: string, n: nat, m: nat)
    requires n == LeadingCount(c, IsDigit) && 0 < n < |c| && c[n] == '.'
    requires m == LeadingCount(c[n + 1..], IsDigit) && m > 0
    ensures AfterDecimal(c) == Some(c[n + 1 + m..])
  {
  }

  /** After "N" comes a non-blank: no "N.<blank>" head. */
  lemma NotNumberedAt(c: string, n: nat)
    requires n == LeadingCount(c, IsDigit) && n + 1 < |c| && !IsSpace(c[n + 1])
    ensures !NumberedPrefix(c)
  {
  }

  /** After "N." come no digits, or digits and a non-blank: no "N.M<blank>" head. */
  lemma NotDecimalAt(c: string, n: nat, m: nat)
    requires n == LeadingCount(c, IsDigit) && n < |c| && c[n] == '.'
    requires m == LeadingCount(c[n + 1..], IsDigit) && n + 1 + m < |c| && (m > 0 ==> !IsSpace(c[n + 1 + m]))
    ensures !SubsectionPrefix(c)
  {
    if n > 0 && m > 0 {
      AfterDecimalAt(c, n, m);
    }
  }

  /** A text that is neither "N.<blank>" nor "N.M<blank>" at its head is not one after the appendix rewrite either. */
  lemma UnnumberedHeadKept(s: string)
    requires !NumberedPrefix(s) && !SubsectionPrefix(s)
    ensures !NumberedPrefix(AppendixRewrite(s)) && !SubsectionPrefix(AppendixRewrite(s))
  {
    var n := LeadingCount(s, IsDigit);
    if n == 0 || n == |s| || s[n] != '.' {
      NoDotHeadKept(s, n);
    } else {
      var m := LeadingCount(s[n + 1..], IsDigit);
      forall j | 0 <= j < n + 1 + m
        ensures s[j] != 'A'
      {
        if j > n {
          assert IsDigit(s[n + 1..][j - n - 1]);
        }
      }
      if n + 1 + m == |s| {
        AppendixRewriteKeepsPrefix(s, |s|);
        assert AppendixRewrite(s) == s;
      } else {
        assert !IsSpace(s[n + 1]);
        assert m > 0 ==> !IsSpace(s[n + 1 + m]) by {
          if m > 0 {
            AfterDecimalAt(s, n, m);
          }
        }
        DecimalHeadKept(s, n, m);
      }
    }
  }

  /** No digits at the head, only digits, or digits and then no full stop: the appendix rewrite keeps that head. */
  lemma NoDotHeadKept(s: string, n: nat)
    requires n == LeadingCount(s, IsDigit) && (n == 0 || n == |s| || s[n] != '.')
    ensures !NumberedPrefix(AppendixRewrite(s)) && !SubsectionPrefix(AppendixRewrite(s))
  {
    var c := AppendixRewrite(s);
    if n == |s| {
      AppendixRewriteKeepsPrefix(s, n);
      assert c == s;
    } else if n == 0 {
      AppendixRewriteFirst(s);
      LeadingCountOf(c, IsDigit, 0);
    } else {
      AppendixRewriteKeepsHead(s, n);
      LeadingCountOf(c, IsDigit, n);
    }
  }

  /** "N." and digits, with no blank after "N." and no blank after the digits: the appendix rewrite keeps that head. */
  lemma DecimalHeadKept(s: string, n: nat, m: nat)
    requires n == LeadingCount(s, IsDigit) && 0 < n && n + 1 + m < |s| && s[n] == '.'
    requires m == LeadingCount(s[n + 1..], IsDigit)
    requires !IsSpace(s[n + 1]) && (m > 0 ==> !IsSpace(s[n + 1 + m]))
    requires forall j :: 0 <= j < n + 1 + m ==> s[j] != 'A'
    ensures !NumberedPrefix(AppendixRewrite(s)) && !SubsectionPrefix(AppendixRewrite(s))
  {
    AppendixRewriteKeepsHead(s, n + 1 + m);
    HeadCopied(s, AppendixRewrite(s), n, m);
    NotNumberedAt(AppendixRewrite(s), n);
    NotDecimalAt(AppendixRewrite(s), n, m);
  }

  /** A text that copies "N.M" and the character after it from `s` reads the same digit runs as `s`. */
  lemma HeadCopied(s: string, c: string, n: nat, m: nat)
    requires n == LeadingCount(s, IsDigit) && n + 1 + m < |s| && s[n] == '.'
    requires m == LeadingCount(s[n + 1..], IsDigit)
    requires n + 1 + m < |c| && forall i :: 0 <= i <= n + 1 + m ==> c[i] == s[i]
    ensures n == LeadingCount(c, IsDigit) && c[n] == '.' && m == LeadingCount(c[n + 1..], IsDigit)
    ensures c[n + 1] == s[n + 1] && c[n + 1 + m] == s[n + 1 + m]
  {
    FirstRunCopied(s, c, n, n + 1 + m);
    LeadingRunAgree(s, c, IsDigit, n + 1, m);
  }

  /** A text that copies the leading digit run of `s` and the character after it has the same leading run. */
  lemma FirstRunCopied(s: string, c: string, n: nat, k: nat)
    requires n == LeadingCount(s, IsDigit) && n <= k < |s| && k < |c| && forall i :: 0 <= i <= k ==> c[i] == s[i]
    ensures n == LeadingCount(c, IsDigit)
  {
    SliceAll(s);
    SliceAll(c);
    LeadingRunAgree(s, c, IsDigit, 0, n);
  }



  /** Non-empty, and neither starts nor ends with whitespace. */
  predicate Stripped(c: string) {
    |c| > 0 && !IsSpace(c[0]) && !IsSpace(c[|c| - 1])
  }

  /** A stripped text stays stripped through the rewrites, and rewriting it again changes nothing. */
  lemma RewritesStable(s: string)
    requires Stripped(s)
    ensures Stripped(Rewrites(s)) && Rewrites(Rewrites(s)) == Rewrites(s)
  {
    if NumberedPrefix(s) {
      NumberedStable(s);
    } else if SubsectionPrefix(s) {
      DecimalStable(s);
    } else {
      var c := AppendixRewrite(s);
      assert Rewrites(s) == c;
      AppendixRewriteFirst(s);
      AppendixRewriteLast(s);
      UnnumberedHeadKept(s);
      AppendixRewriteIdempotent(s);
    }
  }

  lemma NumberedStable(s: string)
    requires NumberedPrefix(s) && !IsSpace(s[|s| - 1])
    ensures Stripped(Rewrites(s)) && Rewrites(Rewrites(s)) == Rewrites(s)
  {
    RewritesNumberedCore(s);
    SingleSpacedStripped(s);
    NumberedSettled(s);
  }

  /** The digits, ". " and the rewritten title are left alone by the rewrites. */
  lemma NumberedSettled(s: string)
    requires NumberedPrefix(s) && !IsSpace(s[|s| - 1])
    ensures var c := s[..NumberLength(s)] + ". " + AppendixRewrite(s[NumberedTitleStart(s)..]);
      Rewrites(c) == c
  {
    var title := s[NumberedTitleStart(s)..];
    var v := AppendixRewrite(title);
    var c := s[..NumberLength(s)] + ". " + v;
    NumberedTitle(s);
    AppendixRewriteFirst(title);
    NumberedAgain(s, c, v);
    RewritesNumberedCore(c);
    AppendixRewriteIdempotent(title);
  }

  /** A numbered text ending in a non-blank has a title after the whitespace run. */
  lemma NumberedTitle(s: string)
    requires NumberedPrefix(s) && !IsSpace(s[|s| - 1])
    ensures NumberedTitleStart(s) < |s| && Stripped(s[NumberedTitleStart(s)..])
  {
    var n := NumberLength(s);
    assert !IsSpace(s[n + 1..][|s| - n - 2]);
    var w := LeadingCount(s[n + 1..], IsSpace);
    assert s[n + 1..][w] == s[n + 1 + w];
  }

  /** "N", ". " and a rewritten title: the head is still "N.<blank>" with a run of one. */
  lemma NumberedAgain(s: string, c: string, v: string)
    requires NumberedPrefix(s) && c == s[..NumberLength(s)] + ". " + v && (|v| == 0 || !IsSpace(v[0]))
    ensures NumberedPrefix(c) && NumberLength(c) == NumberLength(s) && NumberedTitleStart(c) == NumberLength(s) + 2
    ensures c[..NumberLength(c)] == s[..NumberLength(s)] && c[NumberedTitleStart(c)..] == v
  {
    var n := NumberLength(s);
    var p := s[..n];
    ThreeParts(p, ". ", v);
    assert NumberLength(c) == n by {
      assert forall i :: 0 <= i < n ==> c[i] == p[i] == s[i];
      assert c[n] == '.';
      LeadingCountOf(c, IsDigit, n);
    }
    assert c[n + 1..] == " " + v;
    LeadingCountOf(" " + v, IsSpace, 1);
  }

  lemma DecimalStable(s: string)
    requires !NumberedPrefix(s) && SubsectionPrefix(s) && !IsSpace(s[|s| - 1])
    ensures Stripped(Rewrites(s)) && Rewrites(Rewrites(s)) == Rewrites(s)
  {
    RewritesDecimalCore(s);
    DecimalSettled(s, Rewrites(s));
  }

  /** "N.M", one space and the rewritten title form a stripped text that the rewrites leave alone. */
  lemma DecimalSettled(s: string, c: string)
    requires SubsectionPrefix(s) && !IsSpace(s[|s| - 1])
    requires c == s[..DecimalLength(s)] + " " + AppendixRewrite(s[DecimalTitleStart(s)..])
    ensures Stripped(c) && Rewrites(c) == c
  {
    var v := AppendixRewrite(s[DecimalTitleStart(s)..]);
    DecimalSettledParts(s, c);
    DecimalAgain(s, c, v);
    RewritesDecimalCore(c);
  }

  /** The pieces of `DecimalSettled`: the text is stripped and its rewritten title is settled and starts with a non-blank. */
  lemma DecimalSettledParts(s: string, c: string)
    requires SubsectionPrefix(s) && !IsSpace(s[|s| - 1])
    requires c == s[..DecimalLength(s)] + " " + AppendixRewrite(s[DecimalTitleStart(s)..])
    ensures var v := AppendixRewrite(s[DecimalTitleStart(s)..]);
      Stripped(c) && AppendixRewrite(v) == v && |v| > 0 && !IsSpace(v[0])
  {
    var d := DecimalLength(s);
    var title := s[DecimalTitleStart(s)..];
    var v := AppendixRewrite(title);
    DecimalTitle(s);
    AppendixRewriteFirst(title);
    AppendixRewriteLast(title);
    AppendixRewriteIdempotent(title);
    ThreeParts(s[..d], " ", v);
    assert c[0] == s[0] && c[|c| - 1] == v[|v| - 1];
  }

  /** A "N.M" text ending in a non-blank has a title after the whitespace run. */
  lemma DecimalTitle(s: string)
    requires SubsectionPrefix(s) && !IsSpace(s[|s| - 1])
    ensures DecimalTitleStart(s) < |s| && Stripped(s[DecimalTitleStart(s)..])
  {
    DecimalTitleSuffix(s);
    AfterDecimalLast(s);
    StrippedAfterRun(AfterDecimal(s).value);
  }


  /** A text that ends in a non-blank is stripped once its leading blanks are dropped. */
  lemma StrippedAfterRun(u: string)
    requires |u| > 0 && !IsSpace(u[|u| - 1])
    ensures LeadingCount(u, IsSpace) < |u| && Stripped(u[LeadingCount(u, IsSpace)..])
  {
  }



  /** A text that agrees with `s` on "N.M" and has a non-digit after it has the same "N.M" head. */
  lemma DecimalHeadAgree(s: string, c: string, n: nat, m: nat)
    requires n == LeadingCount(s, IsDigit) && 0 < n < |s| && s[n] == '.'
    requires m == LeadingCount(s[n + 1..], IsDigit) && m > 0
    requires n + 1 + m < |c| && n + 1 + m <= |s| && c[..n + 1 + m] == s[..n + 1 + m] && !IsDigit(c[n + 1 + m])
    ensures LeadingCount(c, IsDigit) == n && IsDigit(c[n + 1]) && AfterDecimal(c) == Some(c[n + 1 + m..])
  {
    forall i | 0 <= i < n + 1 + m
      ensures c[i] == s[i]
    {
      assert c[i] == c[..n + 1 + m][i];
    }
    FirstRunCopied(s, c, n, n);
    assert LeadingCount(c[n + 1..], IsDigit) == m by {
      LeadingRunAgree(s, c, IsDigit, n + 1, m);
    }
    AfterDecimalAt(c, n, m);
  }


  /** "N.M", one space and a rewritten title: the head is still "N.M<blank>" with a run of one. */
  lemma DecimalAgain(s: string, c: string, v: string)
    requires SubsectionPrefix(s)
    requires c == s[..DecimalLength(s)] + " " + v && (|v| == 0 || !IsSpace(v[0]))
    ensures !NumberedPrefix(c) && SubsectionPrefix(c)
    ensures DecimalLength(c) == DecimalLength(s) && DecimalTitleStart(c) == DecimalLength(s) + 1
    ensures c[..DecimalLength(c)] == s[..DecimalLength(s)] && c[DecimalTitleStart(c)..] == v
  {
    var k := DecimalLength(s);
    assert c[..k] == s[..k] && c[k..] == " " + v && c[k + 1..] == v by {
      ThreeParts(s[..k], " ", v);
    }
    DecimalAgainHead(s, c, v);
    DecimalSpaceAfter(c, v);
  }

  /** "N.M" followed by one blank and a title that does not start with a blank. */
  lemma DecimalSpaceAfter(c: string, v: string)
    requires AfterDecimal(c) == Some(" " + v) && (|v| == 0 || !IsSpace(v[0]))
    ensures SubsectionPrefix(c) && DecimalTitleStart(c) == DecimalLength(c) + 1 && DecimalLength(c) + 1 + |v| == |c|
  {
    LeadingCountOf(" " + v, IsSpace, 1);
  }


  /** A text that starts with the "N.M" of `s` and goes on with a space: no "N.<blank>" head, and the rest follows "N.M". */
  lemma DecimalAgainHead(s: string, c: string, v: string)
    requires SubsectionPrefix(s) && DecimalLength(s) < |c|
    requires c[..DecimalLength(s)] == s[..DecimalLength(s)] && c[DecimalLength(s)..] == " " + v
    ensures !NumberedPrefix(c) && AfterDecimal(c) == Some(" " + v)
  {
    var n := LeadingCount(s, IsDigit);
    var m := LeadingCount(s[n + 1..], IsDigit);
    assert DecimalLength(s) == n + 1 + m by {
      AfterDecimalAt(s, n, m);
    }
    DecimalAgainAt(s, c, v, n, m);
  }

  /** `DecimalAgainHead` with the two digit runs of `s` named. */
  lemma DecimalAgainAt(s: string, c: string, v: string, n: nat, m: nat)
    requires n == LeadingCount(s, IsDigit) && 0 < n < |s| && s[n] == '.'
    requires m == LeadingCount(s[n + 1..], IsDigit) && m > 0
    requires n + 1 + m < |c| && n + 1 + m <= |s| && c[..n + 1 + m] == s[..n + 1 + m] && c[n + 1 + m..] == " " + v
    ensures !NumberedPrefix(c) && AfterDecimal(c) == Some(" " + v)
  {
    assert c[n + 1 + m] == ' ' by {
      assert c[n + 1 + m..][0] == ' ';
    }
    DecimalHeadAgree(s, c, n, m);
    NotNumberedAt(c, n);
  }


  // ----- Properties of the two orders -----

  /** Ends in one space with no blank before it, unless that space is all there is. */
  predicate OneTrailingSpace(r: string) {
    |r| > 0 && r[|r| - 1] == ' ' && (|r| == 1 || !IsSpace(r[|r| - 2]))
  }

  lemma ShapeOf(s: string)
    requires |s| > 0 ==> !IsSpace(s[|s| - 1])
    ensures OneTrailingSpace(s + " ")
  {
  }

  /** Both orders end the text in exactly one space, with no blank before it unless the heading was blank. */
  lemma NormalizedShape(t: string)
    ensures OneTrailingSpace(NormalizeAsWritten(t)) && OneTrailingSpace(NormalizeHeadingText(t))
  {
    ShapeOf(Strip(Rewrites(t)));
    ShapeOf(Strip(Rewrites(Strip(t))));
  }

  /** No leading digit and every appendix label already settled: the three rewrites change nothing. */
  lemma RewritesUnnumbered(t: string)
    requires (|t| == 0 || !IsDigit(t[0])) && AppendixNormal(t)
    ensures Rewrites(t) == t
  {
    LeadingCountOf(t, IsDigit, 0);
    AppendixRewriteNormal(t);
  }

  /** A stripped heading of that kind comes out as itself and one trailing space, by either order. */
  lemma PlainNormalized(t: string)
    requires |t| > 0 && !IsDigit(t[0]) && !IsSpace(t[0]) && !IsSpace(t[|t| - 1]) && AppendixNormal(t)
    ensures NormalizeAsWritten(t) == NormalizeHeadingText(t) == t + " "
  {
    StripOfStripped(t);
    RewritesUnnumbered(t);
  }

  /** The strip-first order does not depend on whitespace around the text. */
  lemma NormalizeIgnoresSurroundingSpace(t: string)
    ensures NormalizeHeadingText(t) == NormalizeHeadingText(Strip(t))
  {
    StripIdempotent(t);
  }

  /** One leading blank before a text that ends in a non-blank is all `strip()` removes. */
  lemma StripOneLeading(t: string)
    requires |t| > 1 && IsSpace(t[0]) && !IsSpace(t[1]) && !IsSpace(t[|t| - 1])
    ensures Strip(t) == t[1..]
  {
    assert LStrip(t) == t[1..];
    StripOfStripped(t[1..]);
    StripOfLStrip(t);
  }

  /** One trailing blank after a text that starts with a non-blank is all `strip()` removes. */
  lemma StripOneTrailing(t: string)
    requires |t| > 1 && !IsSpace(t[0]) && IsSpace(t[|t| - 1]) && !IsSpace(t[|t| - 2])
    ensures Strip(t) == t[..|t| - 1]
  {
    LStripOfStripped(t);
    var u := t[..|t| - 1];
    assert RStrip(t) == RStrip(u);
    RStripOfStripped(u);
  }

  lemma StripOneTrailingOf(u: string)
    requires |u| > 0 && !IsSpace(u[0]) && !IsSpace(u[|u| - 1])
    ensures Strip(u + " ") == u
  {
    StripOneTrailing(u + " ");
    assert (u + " ")[..|u|] == u;
  }

  /**
   * The strip-first order is idempotent: normalizing a normalized heading
   * text gives it back.
   */
  lemma NormalizeIdempotent(t: string)
    ensures NormalizeHeadingText(NormalizeHeadingText(t)) == NormalizeHeadingText(t)
  {
    var s := Strip(t);
    if |s| == 0 {
      assert Rewrites(s) == s;
      assert Strip(" ") == "";
    } else {
      StrippedNormalized(t);
      var c := Rewrites(s);
      StripOneTrailingOf(c);
      StrippedNormalized(c + " ");
    }
  }

  /** A text with some non-blank normalizes, with the strip done first, to its settled rewrite plus one space. */
  lemma StrippedNormalized(t: string)
    requires |Strip(t)| > 0
    ensures Stripped(Rewrites(Strip(t))) && Rewrites(Rewrites(Strip(t))) == Rewrites(Strip(t))
    ensures NormalizeHeadingText(t) == Rewrites(Strip(t)) + " "
  {
    StripIdempotent(t);
    StripOfStripped(Strip(t));
    RewritesStable(Strip(t));
    StripOfStripped(Rewrites(Strip(t)));
  }

  /** "N." and a whitespace run, then a non-blank: the appendix rewrite keeps the head up to the title. */
  lemma AppendixKeepsNumberedRun(s: string)
    requires NumberedPrefix(s) && !IsSpace(s[|s| - 1])
    ensures AppendixRewrite(s) == s[..NumberedTitleStart(s)] + AppendixRewrite(s[NumberedTitleStart(s)..])
  {
    var n := NumberLength(s);
    var k := NumberedTitleStart(s);
    NumberedTitle(s);
    forall j | 0 <= j < k
      ensures s[j] != 'A'
    {
      if j < n {
        assert IsDigit(s[j]);
      } else if j > n {
        assert IsSpace(s[n + 1..][j - n - 1]);
      }
    }
    AppendixRewriteKeepsPrefix(s, k);
  }

  /** As written, a numbered text with its title ends up as "N. " and the rewritten title, and one space. */
  lemma AsWrittenNumbered(s: string)
    requires NumberedPrefix(s) && !IsSpace(s[|s| - 1])
    ensures NormalizeAsWritten(s) == s[..NumberLength(s)] + ". " + AppendixRewrite(s[NumberedTitleStart(s)..]) + " "
  {
    RewritesNumberedCore(s);
    SingleSpacedStripped(s);
    StripOfStripped(s[..NumberLength(s)] + ". " + AppendixRewrite(s[NumberedTitleStart(s)..]));
  }

  /** The head "N." and its whitespace run, followed by another title: still that head and that run. */
  lemma NumberedRunKept(s: string, c: string)
    requires NumberedPrefix(s) && NumberedTitleStart(s) < |c| && !IsSpace(c[NumberedTitleStart(s)])
    requires c[..NumberedTitleStart(s)] == s[..NumberedTitleStart(s)]
    ensures NumberedPrefix(c) && NumberLength(c) == NumberLength(s) && NumberedTitleStart(c) == NumberedTitleStart(s)
    ensures c[..NumberLength(c)] == s[..NumberLength(s)]
  {
    var n := NumberLength(s);
    var k := NumberedTitleStart(s);
    forall i | 0 <= i < k
      ensures c[i] == s[i]
    {
      assert c[i] == c[..k][i];
    }
    assert LeadingCount(c, IsDigit) == n by {
      assert s[0..] == s && c[0..] == c;
      LeadingRunAgree(s, c, IsDigit, 0, n);
    }
    LeadingRunAgree(s, c, IsSpace, n + 1, k - n - 1);
    PrefixAgree(c, s, k, n);
  }

  /** The title after "N." and its run, once rewritten, is stripped and a trailing space leaves it alone. */
  lemma RewrittenTitle(s: string)
    requires NumberedPrefix(s) && !IsSpace(s[|s| - 1])
    ensures Stripped(AppendixRewrite(s[NumberedTitleStart(s)..]))
    ensures AppendixRewrite(AppendixRewrite(s[NumberedTitleStart(s)..]) + " ") == AppendixRewrite(s[NumberedTitleStart(s)..]) + " "
  {
    var title := s[NumberedTitleStart(s)..];
    NumberedTitle(s);
    var v := AppendixRewrite(title);
    AppendixRewriteFirst(title);
    AppendixRewriteLast(title);
    AppendixRewriteSnocSpace(v);
    AppendixRewriteIdempotent(title);
  }

  /** As written, the result of normalizing " N." and blanks before a title normalizes to the single-spaced text. */
  lemma AsWrittenAgain(s: string)
    requires NumberedPrefix(s) && !IsSpace(s[|s| - 1])
    ensures NormalizeAsWritten(AppendixRewrite(s) + " ") == NormalizeAsWritten(s)
  {
    var single := s[..NumberLength(s)] + ". " + AppendixRewrite(s[NumberedTitleStart(s)..]);
    RewritesSpacedAgain(s);
    SingleSpacedStripped(s);
    StripOneTrailingOf(single);
    AsWrittenNumbered(s);
  }

  /** The digits, ". " and the rewritten title form a stripped text. */
  lemma SingleSpacedStripped(s: string)
    requires NumberedPrefix(s) && !IsSpace(s[|s| - 1])
    ensures Stripped(s[..NumberLength(s)] + ". " + AppendixRewrite(s[NumberedTitleStart(s)..]))
  {
    var title := s[NumberedTitleStart(s)..];
    var v := AppendixRewrite(title);
    var single := s[..NumberLength(s)] + ". " + v;
    NumberedTitle(s);
    AppendixRewriteFirst(title);
    AppendixRewriteLast(title);
    assert single[0] == s[0] && single[|single| - 1] == v[|v| - 1];
  }

  /** The rewrites on "N.", the whitespace run and the rewritten title, with a space after: the run becomes one space. */
  lemma RewritesSpacedAgain(s: string)
    requires NumberedPrefix(s) && !IsSpace(s[|s| - 1])
    ensures Rewrites(AppendixRewrite(s) + " ") == s[..NumberLength(s)] + ". " + AppendixRewrite(s[NumberedTitleStart(s)..]) + " "
  {
    var n := NumberLength(s);
    var k := NumberedTitleStart(s);
    var v := AppendixRewrite(s[k..]);
    RewrittenTitle(s);
    var tail := v + " ";
    var once := AppendixRewrite(s) + " ";
    assert once == s[..k] + tail by {
      AppendixKeepsNumberedRun(s);
      Assoc(s[..k], v, " ");
    }
    SliceConcat(s[..k], tail, k);
    NumberedRunKept(s, once);
    RewritesNumberedCore(once);
    Regroup(s[..n], ". ", v, " ");
  }

  /**
   * The source as written: a leading blank hides the section number from
   * the numbered rewrite, so " N." followed by two or more blanks keeps
   * them all while "N." followed by them gets one, and normalizing the
   * first result again changes it.
   */
  lemma AsWrittenLeadingSpace(s: string)
    requires NumberedPrefix(s) && !IsSpace(s[|s| - 1]) && NumberedTitleStart(s) > NumberLength(s) + 2
    ensures NormalizeAsWritten(" " + s) == AppendixRewrite(s) + " "
    ensures s[..NumberedTitleStart(s)] <= NormalizeAsWritten(" " + s)
    ensures NormalizeAsWritten(s) == s[..NumberLength(s)] + ". " + AppendixRewrite(s[NumberedTitleStart(s)..]) + " "
    ensures NormalizeAsWritten(NormalizeAsWritten(" " + s)) == NormalizeAsWritten(s)
    ensures NormalizeAsWritten(NormalizeAsWritten(" " + s)) != NormalizeAsWritten(" " + s)
  {
    SpacedOnce(s);
    AsWrittenNumbered(s);
    AsWrittenAgain(s);
    SpacedKeepsRun(s);
  }

  /** As written, " N." and two or more blanks before a title keep every blank, so the result is longer than the single-spaced one. */
  lemma SpacedKeepsRun(s: string)
    requires NumberedPrefix(s) && !IsSpace(s[|s| - 1]) && NumberedTitleStart(s) > NumberLength(s) + 2
    ensures s[..NumberedTitleStart(s)] <= AppendixRewrite(s) + " "
    ensures |NormalizeAsWritten(s)| < |AppendixRewrite(s) + " "|
  {
    var k := NumberedTitleStart(s);
    var v := AppendixRewrite(s[k..]);
    assert AppendixRewrite(s) + " " == s[..k] + (v + " ") by {
      AppendixKeepsNumberedRun(s);
      Assoc(s[..k], v, " ");
    }
    AsWrittenNumbered(s);
  }

  /** " N." and blanks before a title: no number rewrite applies and the strip removes the leading blank only. */
  lemma SpacedOnce(s: string)
    requires |s| > 1 && IsDigit(s[0]) && !IsSpace(s[|s| - 1])
    ensures NormalizeAsWritten(" " + s) == AppendixRewrite(s) + " "
  {
    SpacedRewrites(s);
    SpacedStrip(AppendixRewrite(s), s);
  }

  /** A leading blank is neither a number nor the start of a label, so the rewrites copy it. */
  lemma SpacedRewrites(s: string)
    ensures Rewrites(" " + s) == " " + AppendixRewrite(s)
  {
    LeadingBlankSkipsNumbering(" " + s);
    AppendixRewriteKeepsPrefix(" " + s, 1);
    DropHead(" ", s);
  }

  /** Stripping a rewritten text behind one blank gives the rewritten text back. */
  lemma SpacedStrip(x: string, s: string)
    requires |s| > 1 && IsDigit(s[0]) && !IsSpace(s[|s| - 1]) && x == AppendixRewrite(s)
    ensures Strip(" " + x) == x
  {
    AppendixRewriteFirst(s);
    AppendixRewriteLast(s);
    StripOneLeading(" " + x);
    DropHead(" ", x);
  }

  /** The strip-first order gives " N." and "N." followed by blanks the same single space. */
  lemma CorrectedLeadingSpace(s: string)
    requires NumberedPrefix(s) && !IsSpace(s[|s| - 1])
    ensures NormalizeHeadingText(" " + s) == NormalizeHeadingText(s)
    ensures NormalizeHeadingText(s) == s[..NumberLength(s)] + ". " + AppendixRewrite(s[NumberedTitleStart(s)..]) + " "
  {
    assert IsDigit(s[0]);
    StripOneLeading(" " + s);
    assert (" " + s)[1..] == s;
    StripOfStripped(s);
    AsWrittenNumbered(s);
  }
}
