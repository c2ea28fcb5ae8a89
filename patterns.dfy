/**
 * The regular expressions of the extractor, each written as the predicate
 * (or prefix decomposition) it matches. `re.match` anchors at the start;
 * `$` is taken as the end of an already stripped text.
 */
module Patterns {
  import opened Options
  import opened Text

  /** `t[j..]` is one or more digits up to the end (`\d+$` on a stripped text). */
  predicate DigitsToEnd(t: string, j: nat) {
    j < |t| && All(t[j..], IsDigit)
  }

  predicate NoNewline(t: string) { forall i :: 0 <= i < |t| ==> t[i] != '\n' }

  /** `re.match(r'.+\s\.\s\d+$', t)`: "Revision History . 3". */
  predicate TocDotLeader(t: string) {
    exists k :: 1 <= k && k + 2 < |t| && NoNewline(t[..k]) && IsSpace(t[k]) && t[k + 1] == '.'
      && IsSpace(t[k + 2]) && DigitsToEnd(t, k + 3)
  }

  /** `re.match(r'.+\.\s\d+$', t)`: "2.5 Structure and Course Duration. 8". */
  predicate TocPageSuffix(t: string) {
    exists k :: 1 <= k && k + 1 < |t| && NoNewline(t[..k]) && t[k] == '.' && IsSpace(t[k + 1])
      && DigitsToEnd(t, k + 2)
  }

  /** `^\d+\.\s+` */
  predicate NumberedPrefix(t: string) {
    var n := LeadingCount(t, IsDigit);
    n > 0 && n + 1 < |t| && t[n] == '.' && IsSpace(t[n + 1])
  }

  /** `^\d+\.\d+` followed by the rest `u` of the text. */
  function AfterDecimal(t: string): Option<string> {
    var n := LeadingCount(t, IsDigit);
    if n > 0 && n < |t| && t[n] == '.' then
      var m := LeadingCount(t[n + 1..], IsDigit);
      if m > 0 then Some(t[n + 1 + m..]) else None
    else None
  }

  /** `^\d+\.\d+\s+` */
  predicate SubsectionPrefix(t: string) {
    var u := AfterDecimal(t);
    u.Some? && |u.value| > 0 && IsSpace(u.value[0])
  }

  const Months: seq<string> := ["jan", "feb", "mar", "apr", "may", "jun", "jul", "aug", "sep", "oct", "nov", "dec"]

  /** `^\d+\.\d+\s+\d+\s+(jan|feb|...|dec)` on the lower-cased text: a revision-history row. */
  predicate VersionDatePrefix(tl: string) {
    var u := AfterDecimal(tl);
    u.Some? &&
    var a := LeadingCount(u.value, IsSpace);
    var v := u.value[a..];
    var d := LeadingCount(v, IsDigit);
    var w := v[d..];
    var b := LeadingCount(w, IsSpace);
    a > 0 && d > 0 && b > 0 && exists k :: 0 <= k < |Months| && StartsWith(w[b..], Months[k])
  }

  /** `^\w+\s+\d+,\s+\d{4}`: "March 21, 2003". */
  predicate DatePrefix(t: string) {
    var a := LeadingCount(t, IsWordChar);
    var u := t[a..];
    var b := LeadingCount(u, IsSpace);
    var v := u[b..];
    var c := LeadingCount(v, IsDigit);
    var w := v[c..];
    a > 0 && b > 0 && c > 0 && |w| > 0 && w[0] == ',' &&
    var e := LeadingCount(w[1..], IsSpace);
    e > 0 && LeadingCount(w[1 + e..], IsDigit) >= 4
  }

  /** `^appendix [abc]:` */
  predicate AppendixPrefix(tl: string) {
    StartsWith(tl, "appendix a:") || StartsWith(tl, "appendix b:") || StartsWith(tl, "appendix c:")
  }

  /** `^phase [ivx]+` */
  predicate PhasePrefix(tl: string) {
    StartsWith(tl, "phase ") && |tl| > 6 && (tl[6] == 'i' || tl[6] == 'v' || tl[6] == 'x')
  }

  /** `^3\.\s+` */
  predicate SectionThreePrefix(t: string) {
    StartsWith(t, "3.") && |t| > 2 && IsSpace(t[2])
  }
}
