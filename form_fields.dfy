/**
 * The extractor's text tests for form labels (`_is_form_field`) and for
 * title-like lines (`_looks_like_title`). The regular expressions of the
 * source are written out as predicates on the stripped, lower-cased text.
 */
module FormFields {
  import opened Text

  const FormIndicators: seq<string> := [
    "name", "designation", "date", "service", "pay", "whether",
    "home town", "employed", "signature", "place", "stamp",
    "office", "department", "employee", "id", "number", "s.no",
    "serial", "amount", "rupees", "advance", "purpose", "from",
    "to", "duration", "period", "remarks", "recommendation",
    "approved", "sanctioned", "certified", "checked"]

  const DecorativeWords: seq<string> := ["hope", "see", "you", "there", "welcome", "party", "event"]
  const FormTitlePhrases: seq<string> := ["application form", "request form", "form for"]

  /** `s` is whitespace followed by digits only (`\s*\d*$`). */
  predicate SpacesThenDigits(s: string) {
    All(s[LeadingCount(s, IsSpace)..], IsDigit)
  }

  /** Drops one leading `.` if there is one (`\.?`). */
  function OptDot(s: string): string {
    if |s| > 0 && s[0] == '.' then s[1..] else s
  }

  /** `^s\.?\s*no\.?$` */
  predicate SerialNoLabel(t: string) {
    |t| > 0 && t[0] == 's'
    && var u := OptDot(t[1..]);
       var v := u[LeadingCount(u, IsSpace)..];
       v == "no" || v == "no."
  }

  /** `^\d+\.?$` */
  predicate NumberLabel(t: string) {
    var n := LeadingCount(t, IsDigit);
    n > 0 && (n == |t| || (n == |t| - 1 && t[n] == '.'))
  }

  /** `^[a-z]\)$` and `^\([a-z]\)$` */
  predicate LetterItem(t: string) {
    (|t| == 2 && IsAsciiLetter(t[0]) && t[1] == ')')
    || (|t| == 3 && t[0] == '(' && IsAsciiLetter(t[1]) && t[2] == ')')
  }

  /** `^rs\.?\s*\d*$` and `^\$\s*\d*$` */
  predicate AmountLabel(t: string) {
    (StartsWith(t, "rs") && SpacesThenDigits(OptDot(t[2..])))
    || (StartsWith(t, "$") && SpacesThenDigits(t[1..]))
  }

  /** `^<word>\s*:` */
  predicate WordColon(t: string, word: string) {
    StartsWith(t, word)
    && var k := LeadingCount(t[|word|..], IsSpace);
       |word| + k < |t| && t[|word| + k] == ':'
  }

  /** Any of the eight `form_patterns`. */
  predicate MatchesFormPattern(t: string) {
    SerialNoLabel(t) || NumberLabel(t) || LetterItem(t) || AmountLabel(t)
    || WordColon(t, "date") || WordColon(t, "time")
  }

  /** `_is_form_field` */
  predicate IsFormField(text: string) {
    var t := Lower(Strip(text));
    (|t| <= 3 && IsDigitStr(t))
    || (|t| <= 5 && (EndsWith(t, ".") || IsDigitStr(t)))
    || InList(t, FormIndicators)
    || (ContainsAny(t, FormIndicators) && |t| <= 30
        && !ContainsAny(t, DecorativeWords) && !ContainsAny(t, FormTitlePhrases))
    || MatchesFormPattern(t)
  }

  const TitleWords: seq<string> := [
    "application", "form", "report", "guide", "manual",
    "overview", "introduction", "plan", "proposal", "request"]

  /** Number of words whose first character is an upper-case letter. */
  function CapitalisedCount(words: seq<string>): (n: nat)
    ensures n <= |words|
  {
    if |words| == 0 then 0
    else (if |words[0]| > 0 && IsUpperChar(words[0][0]) then 1 else 0) + CapitalisedCount(words[1..])
  }

  /** `_looks_like_title` */
  predicate LooksLikeTitle(text: string) {
    var t := Strip(text);
    5 <= |t| <= 150
    && !IsFormField(t)
    && CountChar(t, '.') <= 2 && CountChar(t, ',') <= 3
    && (ContainsAny(Lower(t), TitleWords)
        || (var words := Words(t);
            |words| >= 2 && 2 * CapitalisedCount(words) >= |words|))
  }

  /** The form-label test ignores letter case. */
  lemma FormFieldIgnoresCase(text: string)
    ensures IsFormField(Lower(text)) == IsFormField(text)
  {
    LowerStrip(text);
    LowerIdempotent(Strip(text));
  }

  /** Stripping the text first changes nothing. */
  lemma FormFieldOfStripped(text: string)
    ensures IsFormField(Strip(text)) == IsFormField(text)
  {
    StripIdempotent(text);
  }

  /** Every listed label, in any letter case and with surrounding blanks, is a form field. */
  lemma IndicatorIsFormField(text: string, k: nat)
    requires k < |FormIndicators| && Lower(Strip(text)) == FormIndicators[k]
    ensures IsFormField(text)
  {
  }

  /** Short numbers and numbered labels ("12", "3.", "1234.") are form fields. */
  lemma NumbersAreFormFields(text: string)
    requires NumberLabel(Lower(Strip(text)))
    ensures IsFormField(text)
  {
  }

  /** A title candidate is never a form field, has 5 to 150 characters and few sentence marks. */
  lemma TitleIsNotFormField(text: string)
    requires LooksLikeTitle(text)
    ensures !IsFormField(text)
    ensures 5 <= |Strip(text)| <= 150
    ensures CountChar(Strip(text), '.') <= 2
  {
    FormFieldOfStripped(text);
  }
}
