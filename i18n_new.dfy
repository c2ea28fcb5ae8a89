/**
 * The dependency-free text utilities of the second extractor
 * (`i18n_utils_new.py`): a character-set language guess, right-to-left
 * language codes, text cleaning for analysis, text features, control
 * character removal and heading-text validation. NFC normalisation, the
 * Unicode category lookup and `\w` are arguments (`UnicodeData.Unicode`).
 */
module I18nNew {
  import opened Options
  import opened Text
  import opened Lists
  import opened Normalize
  import opened UnicodeData
  import opened Ratios

  // ----- detect_language -----

  /** The keys of `char_counts` other than 'total', in their order. */
  datatype CharSet = LatinSet | ArabicSet | HebrewSet | CyrillicSet | CjkSet | GreekSet

  const CharSets: seq<CharSet> := [LatinSet, ArabicSet, HebrewSet, CyrillicSet, CjkSet, GreekSet]

  /** The `if`/`elif` chain of the counting loop: the character set a code point is counted in, if any. */
  function CharSetOf(n: int): Option<CharSet> {
    if (0x0000 <= n <= 0x024F) || (0x1E00 <= n <= 0x1EFF) then Some(LatinSet)
    else if (0x0600 <= n <= 0x06FF) || (0x0750 <= n <= 0x077F) then Some(ArabicSet)
    else if 0x0590 <= n <= 0x05FF then Some(HebrewSet)
    else if 0x0400 <= n <= 0x04FF then Some(CyrillicSet)
    else if (0x4E00 <= n <= 0x9FFF) || (0x3400 <= n <= 0x4DBF) then Some(CjkSet)
    else if 0x0370 <= n <= 0x03FF then Some(GreekSet)
    else None
  }

  /** `script_to_lang`; Latin maps to English. */
  function SetLanguage(s: CharSet): string {
    match s
    case LatinSet => "en"
    case ArabicSet => "ar"
    case HebrewSet => "he"
    case CyrillicSet => "ru"
    case CjkSet => "zh"
    case GreekSet => "el"
  }

  /** Every character set has its place in the key order. */
  function SetIndex(s: CharSet): (i: nat)
    ensures i < |CharSets| && CharSets[i] == s
  {
    match s
    case LatinSet => 0
    case ArabicSet => 1
    case HebrewSet => 2
    case CyrillicSet => 3
    case CjkSet => 4
    case GreekSet => 5
  }

  function InSet(s: CharSet): char -> bool {
    (c: char) => CharSetOf(c as int) == Some(s)
  }

  /** `char_counts[s]` after the loop: the characters counted in `s`. */
  function SetCount(text: string, s: CharSet): nat {
    Count(text, InSet(s))
  }

  /** `script_ratios[s]` (the text is not empty, so `total` is not zero). */
  function SetRatio(text: string, s: CharSet): real
    requires |text| > 0
  {
    SetCount(text, s) as real / |text| as real
  }

  /** `detect_language` */
  function DetectLanguage(text: string): string {
    if |text| == 0 || |Strip(text)| < 3 then "en"
    else
      var dominant := FirstMaxBy(CharSets, (s: CharSet) => SetRatio(text, s)).value;
      if SetRatio(text, dominant) > 0.3 then SetLanguage(dominant) else "en"
  }

  /** The counting loop of `detect_language`. */
  method CountCharSets(text: string) returns (counts: map<CharSet, nat>, total: nat)
    ensures total == |text|
    ensures forall s :: s in counts && counts[s] == SetCount(text, s)
  {
    counts := map[LatinSet := 0, ArabicSet := 0, HebrewSet := 0, CyrillicSet := 0, CjkSet := 0, GreekSet := 0];
    total := 0;
    forall s: CharSet
      ensures s in counts && counts[s] == SetCount(text[..0], s)
    {
      match s
      case LatinSet =>
      case ArabicSet =>
      case HebrewSet =>
      case CyrillicSet =>
      case CjkSet =>
      case GreekSet =>
    }
    for i := 0 to |text|
      invariant total == i
      invariant forall s :: s in counts && counts[s] == SetCount(text[..i], s)
    {
      forall s: CharSet
        ensures SetCount(text[..i + 1], s) == SetCount(text[..i], s) + (if InSet(s)(text[i]) then 1 else 0)
      {
        CountSnoc(text, i, InSet(s));
      }
      total := total + 1;
      var charSet := CharSetOf(text[i] as int);
      if charSet.Some? {
        counts := counts[charSet.value := counts[charSet.value] + 1];
      }
    }
    assert text[..|text|] == text;
  }

  /** `detect_language` */
  method DetectLanguageOf(text: string) returns (language: string)
    ensures language == DetectLanguage(text)
  {
    if |text| == 0 || |Strip(text)| < 3 {
      return "en";
    }
    var counts, total := CountCharSets(text);
    var ratio := (s: CharSet) => if s in counts then counts[s] as real / total as real else 0.0;
    var dominant := MaxBy(CharSets, ratio);
    FirstMaxByCongruent(CharSets, ratio, (s: CharSet) => SetRatio(text, s));
    FirstMaxByIsMax(CharSets, ratio);
    if counts[dominant.value] as real / total as real > 0.3 {
      language := SetLanguage(dominant.value);
    } else {
      language := "en";
    }
  }

  /** A ratio exceeds 0.3 exactly when ten times the count exceeds three times the total. */
  lemma RatioAboveThreshold(a: nat, total: nat)
    requires total > 0
    ensures a as real / total as real > 0.3 <==> 10 * a > 3 * total
  {
    QuotientAbove(a as real, total as real, 0.3);
  }

  /** The guess is one of six languages, and English for empty or very short text. */
  lemma DetectLanguageRange(text: string)
    ensures DetectLanguage(text) in {"ar", "he", "ru", "zh", "el", "en"}
    ensures |Strip(text)| < 3 ==> DetectLanguage(text) == "en"
  {
  }

  /**
   * A language other than English is answered only for a non-Latin set
   * that holds more than 30% of all characters and at least as many as
   * any other set; conversely a non-Latin set with more than 30% of the
   * characters and strictly more than every other set decides the guess.
   */
  lemma DetectLanguageDominant(text: string, s: CharSet)
    requires |Strip(text)| >= 3
    ensures DetectLanguage(text) == SetLanguage(s) && s != LatinSet ==>
      10 * SetCount(text, s) > 3 * |text| && forall t :: SetCount(text, t) <= SetCount(text, s)
    ensures (10 * SetCount(text, s) > 3 * |text| && forall t :: t != s ==> SetCount(text, t) < SetCount(text, s))
      ==> DetectLanguage(text) == SetLanguage(s)
  {
    var dominant := DominantAnswer(text);
    if DetectLanguage(text) == SetLanguage(s) && s != LatinSet {
      AnswerNames(text, dominant, s);
    }
    if forall t :: t != s ==> SetCount(text, t) < SetCount(text, s) {
      assert SetCount(text, s) <= SetCount(text, dominant);
      assert dominant == s;
    }
  }

  /** Only the dominant set's language can be answered, English apart. */
  lemma AnswerNames(text: string, dominant: CharSet, s: CharSet)
    requires DetectLanguage(text) == if 10 * SetCount(text, dominant) > 3 * |text| then SetLanguage(dominant) else "en"
    requires DetectLanguage(text) == SetLanguage(s) && s != LatinSet
    ensures dominant == s && 10 * SetCount(text, s) > 3 * |text|
  {
  }

  /** `detect_language` on a text long enough to be analysed, with the threshold in integers. */
  lemma DominantAnswer(text: string) returns (dominant: CharSet)
    requires |Strip(text)| >= 3
    ensures forall t :: SetCount(text, t) <= SetCount(text, dominant)
    ensures DetectLanguage(text) == if 10 * SetCount(text, dominant) > 3 * |text| then SetLanguage(dominant) else "en"
  {
    assert |text| > 0;
    dominant := DominantSet(text);
    RatioAboveThreshold(SetCount(text, dominant), |text|);
  }

  /** `max(script_ratios.items(), ...)` picks a set with the largest count. */
  lemma DominantSet(text: string) returns (dominant: CharSet)
    requires |text| > 0
    ensures FirstMaxBy(CharSets, (t: CharSet) => SetRatio(text, t)) == Some(dominant)
    ensures forall t :: SetCount(text, t) <= SetCount(text, dominant)
  {
    var key := (t: CharSet) => SetRatio(text, t);
    FirstMaxByIsMax(CharSets, key);
    dominant := FirstMaxBy(CharSets, key).value;
    var k :| 0 <= k < |CharSets| && CharSets[k] == dominant
      && (forall j :: 0 <= j < |CharSets| ==> key(CharSets[j]) <= key(CharSets[k]));
    forall t
      ensures SetCount(text, t) <= SetCount(text, dominant)
    {
      var j := SetIndex(t);
      assert key(CharSets[j]) <= key(CharSets[k]);
      QuotientOrder(SetCount(text, t) as real, SetCount(text, dominant) as real, |text| as real);
    }
  }

  // ----- is_rtl_language -----

  const RtlCodes: set<string> := {"ar", "he", "fa", "ur", "yi", "ji"}

  /** `is_rtl_language`: membership of the lower-cased code. */
  predicate IsRtlLanguage(code: string) { Lower(code) in RtlCodes }

  /** The check ignores case, and the listed codes are right-to-left. */
  lemma RtlIgnoresCase(code: string)
    ensures IsRtlLanguage(Lower(code)) == IsRtlLanguage(code)
    ensures code in RtlCodes ==> IsRtlLanguage(code)
  {
    LowerIdempotent(code);
    if code in RtlCodes {
      assert Lower(code) == code;
    }
  }

  lemma EnglishNotRtl()
    ensures !IsRtlLanguage("en")
  {
    assert Lower("en") == "en";
  }

  // ----- clean_text_for_analysis -----

  /** `[\u200B-\u200D\uFEFF]` */
  predicate IsZeroWidth(c: char) { '\U{200B}' <= c <= '\U{200D}' || c == '\U{FEFF}' }

  predicate Visible(c: char) { !IsZeroWidth(c) }

  /** `clean_text_for_analysis`: NFC, zero-width characters removed, runs of spaces to one space. */
  function CleanTextForAnalysis(text: string, u: Unicode): string {
    if |text| == 0 then "" else CollapseRuns(Filter(u.nfc(text), Visible), IsBlank)
  }

  /**
   * The cleaned text holds no zero-width character and no two
   * neighbouring spaces, and every character of it is a space or comes
   * from the NFC form of the input.
   */
  lemma CleanTextShape(text: string, u: Unicode)
    ensures |text| == 0 ==> CleanTextForAnalysis(text, u) == ""
    ensures var r := CleanTextForAnalysis(text, u);
      NoAdjacent(r, IsBlank) && forall i :: 0 <= i < |r| ==> !IsZeroWidth(r[i]) && (r[i] == ' ' || r[i] in u.nfc(text))
  {
    if |text| > 0 {
      var visible := Filter(u.nfc(text), Visible);
      var r := CollapseRuns(visible, IsBlank);
      CollapseRunsNoAdjacent(visible, IsBlank);
      FilterMapMembers(u.nfc(text), Visible, Identity);
      forall i | 0 <= i < |r|
        ensures !IsZeroWidth(r[i]) && (r[i] == ' ' || r[i] in u.nfc(text))
      {
        CollapseRunsChars(visible, IsBlank, i);
        if r[i] != ' ' {
          assert r[i] in visible;
        }
      }
    }
  }

  // ----- extract_text_features -----

  datatype TextFeatures = TextFeatures(
    length: nat,
    charCount: nat,
    wordCount: nat,
    hasDigits: bool,
    hasPunctuation: bool,
    isCaps: bool,
    isTitleCase: bool,
    language: string,
    isRtl: bool)

  /** `[^\w\s]` */
  predicate IsPunctuation(c: char, u: Unicode) { !u.isWord(c) && !IsSpace(c) }

  /** `extract_text_features` */
  function ExtractTextFeatures(text: string, u: Unicode): TextFeatures {
    if |text| == 0 then TextFeatures(0, 0, 0, false, false, false, false, "en", false)
    else
      var charCount := |Strip(text)|;
      var language := DetectLanguage(text);
      TextFeatures(|text|, charCount, |Words(text)|,
                   exists i :: 0 <= i < |text| && IsDigit(text[i]),
                   exists i :: 0 <= i < |text| && IsPunctuation(text[i], u),
                   IsUpperStr(text) && charCount > 3,
                   IsTitleStr(text), language, IsRtlLanguage(language))
  }

  /** Words are separated by whitespace, so there are at most half as many (rounded up) as characters. */
  lemma {:induction false} WordsBound(s: string)
    ensures 2 * |Words(s)| <= |s| + 1
    decreases |s|
  {
    var t := LStrip(s);
    if |t| > 0 {
      var n := WordLength(t);
      var rest := t[n..];
      assert Words(s) == [t[..n]] + Words(rest);
      if |rest| > 0 {
        assert IsSpace(rest[0]);
        assert LStrip(rest) == LStrip(rest[1..]);
        assert Words(rest) == Words(rest[1..]);
        WordsBound(rest[1..]);
      }
    }
  }

  /** A text has no word exactly when it is all whitespace. */
  lemma WordsNone(s: string)
    ensures |Words(s)| == 0 <==> forall i :: 0 <= i < |s| ==> IsSpace(s[i])
  {
    var t := LStrip(s);
    if |t| > 0 {
      assert !IsSpace(s[|s| - |t|]);
    }
  }

  /**
   * An empty text gets the zero record; otherwise the counts are bounded
   * by the length, a text counts as capitals only with more than three
   * characters after stripping, and `is_rtl` agrees with the guessed
   * language.
   */
  lemma TextFeaturesShape(text: string, u: Unicode)
    ensures var f := ExtractTextFeatures(text, u);
      (|text| == 0 ==> f == TextFeatures(0, 0, 0, false, false, false, false, "en", false))
      && f.length == |text| && f.charCount <= f.length && 2 * f.wordCount <= f.length + 1
      && (f.wordCount == 0 <==> forall i :: 0 <= i < |text| ==> IsSpace(text[i]))
      && (f.isCaps ==> f.charCount > 3)
      && f.isRtl == IsRtlLanguage(f.language)
      && f.language in {"ar", "he", "ru", "zh", "el", "en"}
  {
    WordsBound(text);
    WordsNone(text);
    DetectLanguageRange(text);
    EnglishNotRtl();
  }

  // ----- handle_special_characters -----

  /** The category test of the loop: control-category characters other than tab, newline and carriage return go. */
  function KeepCharacter(u: Unicode): char -> bool {
    (c: char) => !u.isControl(c) || c == '\t' || c == '\n' || c == '\r'
  }

  /** `handle_special_characters` */
  function HandleSpecialCharacters(text: string, u: Unicode): string {
    if |text| == 0 then "" else Filter(u.nfc(text), KeepCharacter(u))
  }

  /** `handle_special_characters` */
  method ProcessSpecialCharacters(text: string, u: Unicode) returns (processed: string)
    ensures processed == HandleSpecialCharacters(text, u)
  {
    if |text| == 0 {
      return "";
    }
    var normalized := u.nfc(text);
    processed := [];
    for i := 0 to |normalized|
      invariant processed == Filter(normalized[..i], KeepCharacter(u))
    {
      FilterMapSnoc(normalized, i, KeepCharacter(u), Identity);
      var c := normalized[i];
      if !u.isControl(c) || c == '\t' || c == '\n' || c == '\r' {
        processed := processed + [c];
      }
    }
    assert normalized[..|normalized|] == normalized;
  }

  /**
   * The output holds exactly the characters of the NFC form that are not
   * control characters, together with its tabs, newlines and carriage
   * returns.
   */
  lemma SpecialCharactersKept(text: string, u: Unicode, c: char)
    requires |text| > 0
    ensures c in HandleSpecialCharacters(text, u) <==>
      c in u.nfc(text) && (!u.isControl(c) || c == '\t' || c == '\n' || c == '\r')
  {
    var normalized := u.nfc(text);
    FilterMapMembers(normalized, KeepCharacter(u), Identity);
    if c in normalized && KeepCharacter(u)(c) {
      var i :| 0 <= i < |normalized| && normalized[i] == c;
      assert Identity(normalized[i]) in HandleSpecialCharacters(text, u);
    }
  }

  // ----- validate_heading_text -----

  /** `[a-zA-Z0-9\u00C0-\u024F\u0400-\u04FF\u0590-\u05FF\u0600-\u06FF\u4E00-\u9FFF]` */
  predicate IsHeadingAlnum(c: char) {
    var n := c as int;
    IsAsciiLetter(c) || IsDigit(c)
    || (0x00C0 <= n <= 0x024F) || (0x0400 <= n <= 0x04FF) || (0x0590 <= n <= 0x05FF)
    || (0x0600 <= n <= 0x06FF) || (0x4E00 <= n <= 0x9FFF)
  }

  /** `validate_heading_text` */
  predicate ValidateHeadingText(text: string, minLength: int, maxLength: int) {
    if |text| == 0 then false
    else
      var cleaned := Strip(text);
      if |cleaned| < minLength || |cleaned| > maxLength then false
      else if !(exists i :: 0 <= i < |cleaned| && IsHeadingAlnum(cleaned[i])) then false
      else
        var alnum := Count(cleaned, IsHeadingAlnum);
        !(alnum as real < |cleaned| as real * 0.3)
  }

  /**
   * A heading text is valid exactly when it is not empty, its stripped
   * length is within the bounds, and letters and digits of the listed
   * ranges are present and make up at least 30% of the stripped text.
   */
  lemma ValidateHeadingTextIff(text: string, minLength: int, maxLength: int)
    ensures ValidateHeadingText(text, minLength, maxLength) <==>
      var cleaned := Strip(text);
      var alnum := Count(cleaned, IsHeadingAlnum);
      |text| > 0 && minLength <= |cleaned| <= maxLength && alnum > 0 && 10 * alnum >= 3 * |cleaned|
  {
    var cleaned := Strip(text);
    CountZero(cleaned, IsHeadingAlnum);
  }

  // ----- normalize_heading_text -----

  /** `normalize_text`: the NFC form of a non-empty text. */
  function NormalizeText(text: string, u: Unicode): string {
    if |text| == 0 then "" else u.nfc(text)
  }

  /**
   * `normalize_heading_text`: `normalize_text`, then
   * `handle_special_characters`, then `clean_text_for_analysis`, then a
   * strip. Each stage applies NFC again, as the source does.
   */
  function NormalizeHeadingText(text: string, u: Unicode): string {
    if |text| == 0 then ""
    else Strip(CleanTextForAnalysis(HandleSpecialCharacters(NormalizeText(text, u), u), u))
  }

  /**
   * The normalized heading is "" for "", has no whitespace at either end,
   * no zero-width character and no two neighbouring spaces.
   */
  lemma NormalizeHeadingShape(text: string, u: Unicode)
    ensures |text| == 0 ==> NormalizeHeadingText(text, u) == ""
    ensures var r := NormalizeHeadingText(text, u);
      Strip(r) == r && NoAdjacent(r, IsBlank) && forall i :: 0 <= i < |r| ==> !IsZeroWidth(r[i])
  {
    if |text| > 0 {
      var handled := HandleSpecialCharacters(NormalizeText(text, u), u);
      var cleaned := CleanTextForAnalysis(handled, u);
      CleanTextShape(handled, u);
      assert forall k :: 0 <= k < |cleaned| ==> Visible(cleaned[k]);
      StripIdempotent(cleaned);
      StripKeepsAll(cleaned, Visible);
      StripKeepsNoAdjacent(cleaned, IsBlank);
    }
  }
}
