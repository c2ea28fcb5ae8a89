/**
 * The text normalizer of the first extractor (`i18n_utils.py`): script
 * lookup by code point, language guesses from the dominant script and
 * from marker words, text direction, space normalisation, heading-text
 * cleaning and the multilingual summary of a text. The Unicode database
 * and `langdetect` are not modelled; they are arguments.
 */
module I18n {
  import opened Options
  import opened Text
  import opened Lists
  import opened Normalize
  import opened Heuristics
  import opened Layout
  import opened UnicodeData
  import opened Ratios

  // ----- _get_char_script -----

  datatype Script = Latin | Arabic | Hebrew | Cyrillic | Greek | Cjk | Devanagari | Thai

  /** The code point ranges of each script. */
  predicate InScript(s: Script, n: int) {
    match s
    case Latin => (0x0000 <= n <= 0x024F) || (0x1E00 <= n <= 0x1EFF)
    case Arabic => (0x0600 <= n <= 0x06FF) || (0x0750 <= n <= 0x077F) || (0x08A0 <= n <= 0x08FF)
    case Hebrew => 0x0590 <= n <= 0x05FF
    case Cyrillic => (0x0400 <= n <= 0x04FF) || (0x0500 <= n <= 0x052F)
    case Greek => 0x0370 <= n <= 0x03FF
    case Cjk =>
      (0x4E00 <= n <= 0x9FFF) || (0x3400 <= n <= 0x4DBF) || (0x3040 <= n <= 0x309F)
      || (0x30A0 <= n <= 0x30FF) || (0xAC00 <= n <= 0xD7AF)
    case Devanagari => 0x0900 <= n <= 0x097F
    case Thai => 0x0E00 <= n <= 0x0E7F
  }

  /** `_get_char_script`: the first script, in table order, whose ranges hold the code point. */
  function CharScript(n: int): Option<Script> {
    if InScript(Latin, n) then Some(Latin)
    else if InScript(Arabic, n) then Some(Arabic)
    else if InScript(Hebrew, n) then Some(Hebrew)
    else if InScript(Cyrillic, n) then Some(Cyrillic)
    else if InScript(Greek, n) then Some(Greek)
    else if InScript(Cjk, n) then Some(Cjk)
    else if InScript(Devanagari, n) then Some(Devanagari)
    else if InScript(Thai, n) then Some(Thai)
    else None
  }

  /** The ranges do not overlap, so the lookup answers exactly the script whose ranges hold the code point. */
  lemma CharScriptExact(n: int, s: Script)
    ensures CharScript(n) == Some(s) <==> InScript(s, n)
    ensures CharScript(n) == None <==> forall t: Script :: !InScript(t, n)
  {
  }

  function ScriptOf(c: char): Option<Script> { CharScript(c as int) }

  // ----- is_rtl_language -----

  const RtlLanguages: set<string> := {"ar", "he", "fa", "ur", "ps", "sd", "ku", "dv"}

  /** `is_rtl_language` */
  predicate IsRtlLanguage(code: string) { code in RtlLanguages }

  /** `script_to_lang` of `_detect_by_script`: Latin has no entry. */
  function ScriptLanguage(s: Script): Option<string> {
    match s
    case Latin => None
    case Arabic => Some("ar")
    case Hebrew => Some("he")
    case Cyrillic => Some("ru")
    case Greek => Some("el")
    case Cjk => Some("zh")
    case Devanagari => Some("hi")
    case Thai => Some("th")
  }

  /** The language guessed from a script is right-to-left exactly when the script is Arabic or Hebrew. */
  lemma ScriptLanguageDirection(s: Script)
    ensures ScriptLanguage(s).Some? ==> (IsRtlLanguage(ScriptLanguage(s).value) <==> s == Arabic || s == Hebrew)
  {
    assert "ru" != "ar" && "ru" != "he" && "ru" != "fa" && "ru" != "ur" && "ru" != "ps" && "ru" != "sd" && "ru" != "ku" && "ru" != "dv";
    assert "el" != "ar" && "el" != "he" && "el" != "fa" && "el" != "ur" && "el" != "ps" && "el" != "sd" && "el" != "ku" && "el" != "dv";
    assert "zh" != "ar" && "zh" != "he" && "zh" != "fa" && "zh" != "ur" && "zh" != "ps" && "zh" != "sd" && "zh" != "ku" && "zh" != "dv";
    assert "hi" != "ar" && "hi" != "he" && "hi" != "fa" && "hi" != "ur" && "hi" != "ps" && "hi" != "sd" && "hi" != "ku" && "hi" != "dv";
    assert "th" != "ar" && "th" != "he" && "th" != "fa" && "th" != "ur" && "th" != "ps" && "th" != "sd" && "th" != "ku" && "th" != "dv";
  }

  // ----- detect_text_direction -----

  datatype Direction = Ltr | Rtl | Mixed

  predicate IsRtlScript(o: Option<Script>) { o == Some(Arabic) || o == Some(Hebrew) }

  function AlphaCount(text: string, u: Unicode): nat { Count(text, u.isAlpha) }

  function RtlCount(text: string, u: Unicode): nat {
    Count(text, (c: char) => u.isAlpha(c) && IsRtlScript(ScriptOf(c)))
  }

  /** The thresholds on the share of right-to-left letters. */
  function DirectionOf(rtl: nat, total: nat): Direction {
    if total == 0 then Ltr
    else
      var ratio := rtl as real / total as real;
      if ratio > 0.7 then Rtl else if ratio > 0.3 then Mixed else Ltr
  }

  /** `detect_text_direction` */
  function TextDirection(text: string, u: Unicode): Direction {
    DirectionOf(RtlCount(text, u), AlphaCount(text, u))
  }

  /** `detect_text_direction` */
  method DetectTextDirection(text: string, u: Unicode) returns (direction: Direction)
    ensures direction == TextDirection(text, u)
  {
    var rtlChars := 0;
    var ltrChars := 0;
    for i := 0 to |text|
      invariant rtlChars == RtlCount(text[..i], u)
      invariant rtlChars + ltrChars == AlphaCount(text[..i], u)
    {
      CountSnoc(text, i, (c: char) => u.isAlpha(c) && IsRtlScript(ScriptOf(c)));
      CountSnoc(text, i, u.isAlpha);
      var c := text[i];
      if u.isAlpha(c) {
        var script := ScriptOf(c);
        if script == Some(Arabic) || script == Some(Hebrew) {
          rtlChars := rtlChars + 1;
        } else {
          ltrChars := ltrChars + 1;
        }
      }
    }
    assert text[..|text|] == text;
    direction := DirectionOf(rtlChars, rtlChars + ltrChars);
  }

  /**
   * The direction read from the counts: right-to-left when more than 70%
   * of the letters are Arabic or Hebrew, mixed when more than 30%, and
   * left-to-right otherwise and for a text without letters.
   */
  lemma DirectionByCounts(rtl: nat, total: nat)
    requires rtl <= total
    ensures DirectionOf(rtl, total) == Rtl <==> total > 0 && 10 * rtl > 7 * total
    ensures DirectionOf(rtl, total) == Mixed <==> total > 0 && 10 * rtl > 3 * total && 10 * rtl <= 7 * total
    ensures DirectionOf(rtl, total) == Ltr <==> 10 * rtl <= 3 * total
  {
    if total > 0 {
      QuotientAbove(rtl as real, total as real, 0.7);
      QuotientAbove(rtl as real, total as real, 0.3);
    }
  }

  lemma TextDirectionByCounts(text: string, u: Unicode)
    ensures var rtl := RtlCount(text, u);
      var total := AlphaCount(text, u);
      rtl <= total
      && (TextDirection(text, u) == Rtl <==> total > 0 && 10 * rtl > 7 * total)
      && (TextDirection(text, u) == Ltr <==> 10 * rtl <= 3 * total)
  {
    CountMonotone(text, (c: char) => u.isAlpha(c) && IsRtlScript(ScriptOf(c)), u.isAlpha);
    DirectionByCounts(RtlCount(text, u), AlphaCount(text, u));
  }

  // ----- _detect_by_script -----

  /** Letters of the text in script `s`. */
  function ScriptCount(text: string, u: Unicode, s: Script): nat {
    Count(text, (c: char) => u.isAlpha(c) && ScriptOf(c) == Some(s))
  }

  /** The scripts of the text's letters in order of first appearance: the key order of `char_counts`. */
  function SeenScripts(text: string, u: Unicode): seq<Script> {
    if |text| == 0 then []
    else
      var seen := SeenScripts(text[..|text| - 1], u);
      var c := text[|text| - 1];
      if u.isAlpha(c) && ScriptOf(c).Some? && ScriptOf(c).value !in seen then seen + [ScriptOf(c).value] else seen
  }

  /** `max(char_counts.items(), key=count)`: the first script of largest count, if any letter has a script. */
  function DominantScript(text: string, u: Unicode): Option<Script> {
    FirstMaxBy(SeenScripts(text, u), (s: Script) => ScriptCount(text, u, s) as real)
  }

  /** `_detect_by_script` */
  function DetectByScript(text: string, u: Unicode): Option<string> {
    if AlphaCount(text, u) == 0 then None
    else
      var dominant := DominantScript(text, u);
      if dominant.None? then None else ScriptLanguage(dominant.value)
  }

  /** A script is listed exactly when some letter is written in it. */
  lemma {:induction false} SeenIffCounted(text: string, u: Unicode, s: Script)
    ensures s in SeenScripts(text, u) <==> ScriptCount(text, u, s) > 0
  {
    if |text| > 0 {
      SeenIffCounted(text[..|text| - 1], u, s);
    }
  }

  /** The counting loop of `_detect_by_script`, leaving the counts and the key order. */
  method CountScripts(text: string, u: Unicode) returns (counts: map<Script, nat>, order: seq<Script>, total: nat)
    ensures order == SeenScripts(text, u) && total == AlphaCount(text, u)
    ensures forall s :: s in counts <==> s in order
    ensures forall s :: s in counts ==> counts[s] == ScriptCount(text, u, s)
  {
    counts := map[];
    order := [];
    total := 0;
    for i := 0 to |text|
      invariant order == SeenScripts(text[..i], u) && total == AlphaCount(text[..i], u)
      invariant forall s :: s in counts <==> s in order
      invariant forall s :: s in counts ==> counts[s] == ScriptCount(text[..i], u, s)
    {
      assert text[..i + 1][..i] == text[..i];
      CountSnoc(text, i, u.isAlpha);
      forall s: Script
        ensures ScriptCount(text[..i + 1], u, s)
          == ScriptCount(text[..i], u, s) + (if u.isAlpha(text[i]) && ScriptOf(text[i]) == Some(s) then 1 else 0)
      {
        CountSnoc(text, i, (c: char) => u.isAlpha(c) && ScriptOf(c) == Some(s));
      }
      var c := text[i];
      if u.isAlpha(c) {
        total := total + 1;
        var script := ScriptOf(c);
        if script.Some? {
          if script.value in counts {
            counts := counts[script.value := counts[script.value] + 1];
          } else {
            SeenIffCounted(text[..i], u, script.value);
            counts := counts[script.value := 1];
            order := order + [script.value];
          }
        }
      }
    }
    assert text[..|text|] == text;
  }

  /** `_detect_by_script` */
  method DetectLanguageByScript(text: string, u: Unicode) returns (language: Option<string>)
    ensures language == DetectByScript(text, u)
  {
    var counts, order, total := CountScripts(text, u);
    if total == 0 {
      return None;
    }
    var best := MaxBy(order, (s: Script) => if s in counts then counts[s] as real else 0.0);
    FirstMaxByCongruent(order, (s: Script) => if s in counts then counts[s] as real else 0.0,
                        (s: Script) => ScriptCount(text, u, s) as real);
    if best.None? {
      return None;
    }
    language := ScriptLanguage(best.value);
  }

  /**
   * The script guess names a language only for a text with letters whose
   * dominant script is not Latin; that script has letters, at least as
   * many as any other script.
   */
  lemma DetectByScriptDominant(text: string, u: Unicode)
    ensures AlphaCount(text, u) == 0 ==> DetectByScript(text, u) == None
    ensures DetectByScript(text, u).Some? ==>
      exists s :: ScriptLanguage(s) == DetectByScript(text, u) && s != Latin && ScriptCount(text, u, s) > 0
        && forall t :: ScriptCount(text, u, t) <= ScriptCount(text, u, s)
  {
    var order := SeenScripts(text, u);
    var key := (s: Script) => ScriptCount(text, u, s) as real;
    FirstMaxByIsMax(order, key);
    if DetectByScript(text, u).Some? {
      var s := DominantScript(text, u).value;
      var k :| 0 <= k < |order| && order[k] == s && forall j :: 0 <= j < |order| ==> key(order[j]) <= key(order[k]);
      SeenIffCounted(text, u, s);
      forall t
        ensures ScriptCount(text, u, t) <= ScriptCount(text, u, s)
      {
        SeenIffCounted(text, u, t);
        if t in order {
          var j :| 0 <= j < |order| && order[j] == t;
          assert key(order[j]) <= key(order[k]);
        }
      }
    }
  }

  // ----- _detect_by_markers -----

  /** `language_markers`, in its key order. */
  const MarkerTable: seq<(string, seq<string>)> := [
    ("en", ["the", "and", "of", "to", "in", "for", "with", "on"]),
    ("es", ["el", "la", "de", "que", "y", "en", "un", "es"]),
    ("fr", ["le", "de", "et", "à", "un", "il", "être", "et"]),
    ("de", ["der", "die", "und", "in", "den", "von", "zu", "das"]),
    ("it", ["il", "di", "che", "e", "la", "per", "in", "un"]),
    ("pt", ["o", "de", "que", "e", "do", "da", "em", "um"]),
    ("ru", ["в", "и", "не", "на", "с", "то", "что", "он"]),
    ("zh", ["的", "是", "在", "有", "我", "他", "这", "了"]),
    ("ja", ["の", "に", "は", "を", "た", "が", "で", "て"]),
    ("ar", ["في", "من", "إلى", "على", "هذا", "هذه", "التي", "الذي"]),
    ("he", ["של", "את", "על", "אל", "זה", "זו", "הוא", "היא"])]

  /** `re.findall(r'\b\w+\b', s)`: the maximal runs of word characters. */
  function WordRuns(s: string, isWord: char -> bool): (ws: seq<string>)
    ensures forall k :: 0 <= k < |ws| ==> |ws[k]| > 0
    decreases |s|
  {
    var skip := LeadingCount(s, (c: char) => !isWord(c));
    var t := s[skip..];
    if |t| == 0 then []
    else
      var n := LeadingCount(t, isWord);
      [t[..n]] + WordRuns(t[n..], isWord)
  }

  /** `sum(1 for marker in markers if marker in words)`: a repeated marker counts each time. */
  function Hits(markers: seq<string>, words: seq<string>): nat {
    Count(markers, (m: string) => m in words)
  }

  /** The share of a row's markers found among the words (every row of the table has eight markers). */
  function RowScore(row: (string, seq<string>), words: seq<string>): real {
    if |row.1| == 0 then 0.0 else Hits(row.1, words) as real / |row.1| as real
  }

  /** A row without hits scores nothing; no row scores below zero. */
  lemma RowScoreSign(row: (string, seq<string>), words: seq<string>)
    ensures RowScore(row, words) >= 0.0
    ensures Hits(row.1, words) == 0 ==> RowScore(row, words) == 0.0
  {
    if |row.1| > 0 {
      var q := RowScore(row, words);
      assert q * |row.1| as real == Hits(row.1, words) as real;
    }
  }

  function HasHit(words: seq<string>): ((string, seq<string>)) -> bool {
    (row: (string, seq<string>)) => Hits(row.1, words) > 0
  }

  function ScoreEntry(words: seq<string>): ((string, seq<string>)) -> (string, real) {
    (row: (string, seq<string>)) => (row.0, RowScore(row, words))
  }

  /** The entries of `scores`: the languages with a hit, with their share of markers found. */
  function Scores(table: seq<(string, seq<string>)>, words: seq<string>): seq<(string, real)> {
    FilterMap(table, HasHit(words), ScoreEntry(words))
  }

  function ScoreOf(entry: (string, real)): real { entry.1 }

  function MarkerWords(text: string, u: Unicode): seq<string> {
    WordRuns(u.lower(text), u.isWord)
  }

  /** `max(scores.items(), key=score)[0]`, or the default language when no row has a hit. */
  function BestLanguage(table: seq<(string, seq<string>)>, words: seq<string>, defaultLanguage: string): string {
    var best := FirstMaxBy(Scores(table, words), ScoreOf);
    if best.None? then defaultLanguage else best.value.0
  }

  /** `_detect_by_markers` */
  function DetectByMarkers(text: string, u: Unicode, defaultLanguage: string): string {
    BestLanguage(MarkerTable, MarkerWords(text, u), defaultLanguage)
  }

  /** `_detect_by_markers` */
  method DetectLanguageByMarkers(text: string, u: Unicode, defaultLanguage: string) returns (language: string)
    ensures language == DetectByMarkers(text, u, defaultLanguage)
  {
    var words := WordRuns(u.lower(text), u.isWord);
    var scores := ScoreTable(MarkerTable, words);
    var best := MaxBy(scores, ScoreOf);
    if best.None? {
      return defaultLanguage;
    }
    return best.value.0;
  }

  /** The outer loop of `_detect_by_markers`: the scores of the languages with a hit, in table order. */
  method ScoreTable(table: seq<(string, seq<string>)>, words: seq<string>) returns (scores: seq<(string, real)>)
    ensures scores == Scores(table, words)
  {
    scores := [];
    for i := 0 to |table|
      invariant scores == FilterMap(table[..i], HasHit(words), ScoreEntry(words))
    {
      FilterMapSnoc(table, i, HasHit(words), ScoreEntry(words));
      var (lang, markers) := table[i];
      var score := CountHits(markers, words);
      if score > 0 {
        assert |markers| > 0;
        scores := scores + [(lang, score as real / |markers| as real)];
      }
    }
    TakeAll(table);
  }

  /** The inner loop of `_detect_by_markers`: the markers of one language found among the words. */
  method CountHits(markers: seq<string>, words: seq<string>) returns (score: nat)
    ensures score == Hits(markers, words)
  {
    score := 0;
    for j := 0 to |markers|
      invariant score == Count(markers[..j], (m: string) => m in words)
    {
      CountSnoc(markers, j, (m: string) => m in words);
      if markers[j] in words {
        score := score + 1;
      }
    }
    TakeAll(markers);
  }

  /**
   * Without any marker word of a table the default language is answered;
   * otherwise the answer is a language of the table with a hit, whose
   * share of markers found is the largest.
   */
  lemma MarkersChoice(table: seq<(string, seq<string>)>, words: seq<string>, defaultLanguage: string)
    ensures (forall i :: 0 <= i < |table| ==> Hits(table[i].1, words) == 0)
      ==> BestLanguage(table, words, defaultLanguage) == defaultLanguage
    ensures (exists i :: 0 <= i < |table| && Hits(table[i].1, words) > 0) ==>
      exists i :: 0 <= i < |table| && table[i].0 == BestLanguage(table, words, defaultLanguage)
        && Hits(table[i].1, words) > 0
        && forall j :: 0 <= j < |table| ==> RowScore(table[j], words) <= RowScore(table[i], words)
  {
    FirstMaxByFilterMap(table, HasHit(words), ScoreEntry(words), ScoreOf);
    if exists i :: 0 <= i < |table| && Hits(table[i].1, words) > 0 {
      var i :| 0 <= i < |table| && HasHit(words)(table[i])
        && ScoreEntry(words)(table[i]) == FirstMaxBy(Scores(table, words), ScoreOf).value
        && forall j :: 0 <= j < |table| && HasHit(words)(table[j]) ==>
          ScoreOf(ScoreEntry(words)(table[j])) <= ScoreOf(ScoreEntry(words)(table[i]));
      forall j | 0 <= j < |table|
        ensures RowScore(table[j], words) <= RowScore(table[i], words)
      {
        if !HasHit(words)(table[j]) {
          RowScoreSign(table[j], words);
          RowScoreSign(table[i], words);
        }
      }
    }
  }

  // ----- normalize_text -----

  /** `normalize_text`: NFC, then every run of spaces to one space (tabs and newlines stay). */
  function NormalizeSpaces(text: string, u: Unicode): string {
    if |text| == 0 then text else CollapseRuns(u.nfc(text), IsBlank)
  }

  /**
   * An empty text comes back as it is; otherwise no two spaces are
   * neighbours and every other character occurs as often as in the NFC
   * form, so tabs and newlines are kept.
   */
  lemma NormalizeSpacesShape(text: string, u: Unicode)
    ensures |text| == 0 ==> NormalizeSpaces(text, u) == text
    ensures NoAdjacent(NormalizeSpaces(text, u), IsBlank)
    ensures |text| > 0 ==> forall c :: c != ' ' ==> CountChar(NormalizeSpaces(text, u), c) == CountChar(u.nfc(text), c)
  {
    if |text| > 0 {
      CollapseRunsNoAdjacent(u.nfc(text), IsBlank);
      forall c | c != ' '
        ensures CountChar(NormalizeSpaces(text, u), c) == CountChar(u.nfc(text), c)
      {
        CollapseKeepsChar(u.nfc(text), c);
      }
    }
  }

  // ----- extract_clean_heading_text -----

  /** `\.?`: drops one leading dot. */
  function SkipDot(t: string): (r: string)
    ensures |r| <= |t| && r == t[|t| - |r|..]
  {
    if |t| > 0 && t[0] == '.' then t[1..] else t
  }

  /** `re.sub(r'^\s*\d+\.?\s*', '', t)` and its two- and three-part forms (`n` runs of digits). */
  function StripNumberPrefix(t: string, n: nat): (r: string)
    requires 1 <= n <= 3
    ensures IsSuffix(r, t)
  {
    var v := LStrip(t);
    var e := NumberEnd(v, n);
    if e.None? then SuffixRefl(t); t else
      DropDotChain(t, v, e.value);
      LStrip(SkipDot(v[e.value..]))
  }

  /** `re.sub(r'^\s*[a-zA-Z]\.?\s*', '', t)`: one leading letter goes, whatever follows it. */
  function StripLetterPrefix(t: string): (r: string)
    ensures IsSuffix(r, t)
  {
    var v := LStrip(t);
    if |v| > 0 && IsAsciiLetter(v[0]) then
      DropDotChain(t, v, 1);
      LStrip(SkipDot(v[1..]))
    else SuffixRefl(t); t
  }

  /** `re.sub(r'^\s*[ivxlcdm]+\.?\s*', '', t, flags=re.IGNORECASE)` */
  function StripRomanPrefix(t: string): (r: string)
    ensures IsSuffix(r, t)
  {
    var v := LStrip(t);
    var k := LeadingCount(Lower(v), IsRomanDigit);
    if k > 0 then
      DropDotChain(t, v, k);
      LStrip(SkipDot(v[k..]))
    else SuffixRefl(t); t
  }

  /** `re.sub(r'^\s*[-•‣⁃▪▫◦‰‱\*\+»]\s*', '', t)` */
  function StripBulletPrefix(t: string): (r: string)
    ensures IsSuffix(r, t)
  {
    var v := LStrip(t);
    if |v| > 0 && IsLayoutBulletChar(v[0]) then
      DropBlankChain(t, v, 1);
      LStrip(v[1..])
    else SuffixRefl(t); t
  }

  /** `r` is what is left of `t` after a prefix is removed. */
  predicate IsSuffix(r: string, t: string) { |r| <= |t| && r == t[|t| - |r|..] }

  lemma SuffixTrans(a: string, b: string, c: string)
    requires IsSuffix(a, b) && IsSuffix(b, c)
    ensures IsSuffix(a, c)
  {
    assert c[|c| - |b|..][|b| - |a|..] == c[|c| - |a|..];
  }

  lemma SuffixRefl(t: string)
    ensures IsSuffix(t, t)
  {
  }

  lemma DropSuffix(v: string, k: nat)
    requires k <= |v|
    ensures IsSuffix(v[k..], v)
  {
  }

  /** Dropping `k` characters of a suffix `v` of `t`, then a dot, then blanks, leaves a suffix of `t`. */
  lemma DropDotChain(t: string, v: string, k: nat)
    requires IsSuffix(v, t) && k <= |v|
    ensures IsSuffix(LStrip(SkipDot(v[k..])), t)
  {
    var a := v[k..];
    DropSuffix(v, k);
    SuffixTrans(SkipDot(a), a, v);
    SuffixTrans(SkipDot(a), v, t);
    SuffixTrans(LStrip(SkipDot(a)), SkipDot(a), t);
  }

  /** Dropping `k` characters of a suffix `v` of `t`, then blanks, leaves a suffix of `t`. */
  lemma DropBlankChain(t: string, v: string, k: nat)
    requires IsSuffix(v, t) && k <= |v|
    ensures IsSuffix(LStrip(v[k..]), t)
  {
    DropSuffix(v, k);
    SuffixTrans(v[k..], v, t);
    SuffixTrans(LStrip(v[k..]), v[k..], t);
  }


  /** One entry of `patterns_to_remove`. */
  datatype MarkerPattern = NumberPattern(parts: nat) | LetterPattern | RomanPattern | BulletPattern

  /** `patterns_to_remove`, in order (the two roman-numeral patterns coincide under IGNORECASE). */
  const HeadingPatterns: seq<MarkerPattern> := [
    NumberPattern(1), NumberPattern(2), NumberPattern(3), LetterPattern, RomanPattern, RomanPattern, BulletPattern]

  /** `re.sub(pattern, '', t, flags=re.IGNORECASE)` for one pattern. */
  function RemovePattern(p: MarkerPattern, t: string): (r: string)
    ensures IsSuffix(r, t)
  {
    match p
    case NumberPattern(n) => if 1 <= n <= 3 then StripNumberPrefix(t, n) else t
    case LetterPattern => StripLetterPrefix(t)
    case RomanPattern => StripRomanPrefix(t)
    case BulletPattern => StripBulletPrefix(t)
  }

  /** The substitutions of `ps` applied one after the other. */
  function RemovePatterns(ps: seq<MarkerPattern>, t: string): (r: string)
    ensures IsSuffix(r, t)
  {
    if |ps| == 0 then t
    else
      var before := RemovePatterns(ps[..|ps| - 1], t);
      var r := RemovePattern(ps[|ps| - 1], before);
      SuffixTrans(r, before, t);
      r
  }

  /** One more substitution applied after the first `i`. */
  lemma RemovePatternsSnoc(ps: seq<MarkerPattern>, i: nat, t: string)
    requires i < |ps|
    ensures RemovePatterns(ps[..i + 1], t) == RemovePattern(ps[i], RemovePatterns(ps[..i], t))
  {
    assert ps[..i + 1][..i] == ps[..i];
  }

  /** The substitution loop of `extract_clean_heading_text`. */
  function StripMarkers(t: string): string {
    RemovePatterns(HeadingPatterns, t)
  }

  /** `extract_clean_heading_text` */
  function ExtractCleanHeadingText(text: string, u: Unicode): string {
    Strip(CollapseRuns(StripMarkers(NormalizeSpaces(text, u)), IsSpace))
  }

  /** `extract_clean_heading_text` */
  method CleanHeadingText(text: string, u: Unicode) returns (clean: string)
    ensures clean == ExtractCleanHeadingText(text, u)
  {
    clean := NormalizeSpaces(text, u);
    ghost var normalized := clean;
    for i := 0 to |HeadingPatterns|
      invariant clean == RemovePatterns(HeadingPatterns[..i], normalized)
    {
      RemovePatternsSnoc(HeadingPatterns, i, normalized);
      clean := RemovePattern(HeadingPatterns[i], clean);
    }
    TakeAll(HeadingPatterns);
    clean := Strip(CollapseRuns(clean, IsSpace));
  }

  /** Class characters of a text are all spaces, and so are those of any slice of it. */
  lemma OnlySpaceSlice(s: string, p: char -> bool, i: nat, j: nat)
    requires i <= j <= |s|
    requires forall k :: 0 <= k < |s| && p(s[k]) ==> s[k] == ' '
    ensures forall k :: 0 <= k < j - i && p(s[i..j][k]) ==> s[i..j][k] == ' '
  {
    assert forall k :: 0 <= k < j - i ==> s[i..j][k] == s[i + k];
  }

  /** After the collapse the only class character left is the space. */
  lemma CollapseRunsOnlySpace(s: string, p: char -> bool)
    ensures forall k :: 0 <= k < |CollapseRuns(s, p)| && p(CollapseRuns(s, p)[k]) ==> CollapseRuns(s, p)[k] == ' '
  {
    forall k | 0 <= k < |CollapseRuns(s, p)|
      ensures p(CollapseRuns(s, p)[k]) ==> CollapseRuns(s, p)[k] == ' '
    {
      CollapseRunsChars(s, p, k);
    }
  }

  /**
   * Collapsing every run of the class `p` (which holds the space) to one
   * space and stripping leaves no whitespace at either end, no two
   * neighbouring characters of the class, and none but the plain space.
   */
  lemma CollapseStripShape(m: string, p: char -> bool)
    requires p(' ')
    ensures var r := Strip(CollapseRuns(m, p));
      Strip(r) == r && NoAdjacent(r, p) && forall k :: 0 <= k < |r| && p(r[k]) ==> r[k] == ' '
  {
    var collapsed := CollapseRuns(m, p);
    CollapseRunsNoAdjacent(m, p);
    CollapseRunsOnlySpace(m, p);
    StripKeepsShape(collapsed, p);
    StripIdempotent(collapsed);
  }

  /** Stripping keeps both properties of the collapsed text. */
  lemma StripKeepsShape(s: string, p: char -> bool)
    requires NoAdjacent(s, p) && forall k :: 0 <= k < |s| && p(s[k]) ==> s[k] == ' '
    ensures NoAdjacent(Strip(s), p)
    ensures forall k :: 0 <= k < |Strip(s)| && p(Strip(s)[k]) ==> Strip(s)[k] == ' '
  {
    var i := StripSlice(s);
    NoAdjacentSlice(s, p, i, i + |Strip(s)|);
    OnlySpaceSlice(s, p, i, i + |Strip(s)|);
  }

  /** The cleaned heading is stripped, with single plain spaces between its words. */
  lemma CleanHeadingShape(text: string, u: Unicode)
    ensures var r := ExtractCleanHeadingText(text, u);
      Strip(r) == r && NoAdjacent(r, IsSpace) && forall k :: 0 <= k < |r| && IsSpace(r[k]) ==> r[k] == ' '
  {
    CollapseStripShape(StripMarkers(NormalizeSpaces(text, u)), IsSpace);
  }

  /**
   * The single-letter pattern removes the first letter of any word: a
   * text that opens with a letter followed by a character that is no
   * dot, space, roman digit or bullet loses exactly that letter.
   */
  lemma LeadingLetterDropped(t: string)
    requires |t| > 1 && IsAsciiLetter(t[0])
    requires t[1] != '.' && !IsSpace(t[1]) && !IsRomanDigit(LowerChar(t[1])) && !IsLayoutBulletChar(t[1])
    ensures StripMarkers(t) == t[1..]
  {
    var numbers := [NumberPattern(1), NumberPattern(2), NumberPattern(3)];
    var tail := [RomanPattern, RomanPattern, BulletPattern];
    assert HeadingPatterns == numbers + [LetterPattern] + tail;
    NumbersLeaveWord(t);
    RemovePatternsAppend(numbers, [LetterPattern], t);
    assert LStrip(t) == t;
    assert RemovePatterns([LetterPattern], t) == RemovePattern(LetterPattern, t) == t[1..];
    RomanLeavesWord(t[1..]);
    BulletLeavesWord(t[1..]);
    RomanAndBulletLeaveWord(t[1..]);
    RemovePatternsAppend(numbers + [LetterPattern], tail, t);
  }

  /** The numbering patterns leave alone a text that opens with neither whitespace nor a digit. */
  lemma NumbersLeaveWord(t: string)
    requires |t| > 0 && !IsSpace(t[0]) && !IsDigit(t[0])
    ensures RemovePatterns([NumberPattern(1), NumberPattern(2), NumberPattern(3)], t) == t
  {
    var numbers := [NumberPattern(1), NumberPattern(2), NumberPattern(3)];
    forall i | 0 <= i < |numbers|
      ensures RemovePattern(numbers[i], t) == t
    {
      NumberLeavesWord(t, i + 1);
    }
    RemovePatternsFixed(numbers, t);
  }

  /** A number pattern needs a digit after optional whitespace. */
  lemma NumberLeavesWord(t: string, n: nat)
    requires 1 <= n <= 3 && |t| > 0 && !IsSpace(t[0]) && !IsDigit(t[0])
    ensures StripNumberPrefix(t, n) == t
  {
    assert LStrip(t) == t;
    NoNumberEnd(t, n);
  }

  lemma {:induction false} NoNumberEnd(t: string, n: nat)
    requires n > 0 && |t| > 0 && !IsDigit(t[0])
    ensures NumberEnd(t, n).None?
    decreases n
  {
    if n > 1 {
      NoNumberEnd(t, n - 1);
    }
  }

  /** The tail of the pattern list leaves alone a text that its roman-numeral and bullet patterns each leave alone. */
  lemma RomanAndBulletLeaveWord(t: string)
    requires StripRomanPrefix(t) == t && StripBulletPrefix(t) == t
    ensures RemovePatterns([RomanPattern, RomanPattern, BulletPattern], t) == t
  {
    var tail := [RomanPattern, RomanPattern, BulletPattern];
    assert forall i :: 0 <= i < |tail| ==> RemovePattern(tail[i], t) == t;
    RemovePatternsFixed(tail, t);
  }

  /** The roman-numeral pattern needs a roman digit after optional whitespace. */
  lemma RomanLeavesWord(t: string)
    requires |t| > 0 && !IsSpace(t[0]) && !IsRomanDigit(LowerChar(t[0]))
    ensures StripRomanPrefix(t) == t
  {
    assert LStrip(t) == t;
    assert Lower(t)[0] == LowerChar(t[0]);
  }

  /** The bullet pattern needs a bullet character after optional whitespace. */
  lemma BulletLeavesWord(t: string)
    requires |t| > 0 && !IsSpace(t[0]) && !IsLayoutBulletChar(t[0])
    ensures StripBulletPrefix(t) == t
  {
    assert LStrip(t) == t;
  }

  lemma {:induction false} RemovePatternsAppend(ps: seq<MarkerPattern>, qs: seq<MarkerPattern>, t: string)
    ensures RemovePatterns(ps + qs, t) == RemovePatterns(qs, RemovePatterns(ps, t))
  {
    if |qs| == 0 {
      assert ps + qs == ps;
    } else {
      assert (ps + qs)[..|ps + qs| - 1] == ps + qs[..|qs| - 1];
      RemovePatternsAppend(ps, qs[..|qs| - 1], t);
    }
  }

  /** Patterns that each leave a text alone leave it alone together. */
  lemma {:induction false} RemovePatternsFixed(ps: seq<MarkerPattern>, t: string)
    requires forall i :: 0 <= i < |ps| ==> RemovePattern(ps[i], t) == t
    ensures RemovePatterns(ps, t) == t
  {
    if |ps| > 0 {
      RemovePatternsFixed(ps[..|ps| - 1], t);
    }
  }

  // ----- process_multilingual_text -----

  datatype TextInfo = TextInfo(
    normalized: string,
    language: string,
    confidence: real,
    direction: Direction,
    script: Script,
    length: nat,
    isRtl: Option<bool>)

  /**
   * `process_multilingual_text`; `detectLanguage` stands for the
   * `langdetect`-based `detect_language` and answers a language code and
   * a confidence. The record of an empty text has no `is_rtl` entry.
   */
  function ProcessMultilingualText(text: string, u: Unicode, defaultLanguage: string,
                                   detectLanguage: string -> (string, real)): TextInfo {
    if |text| == 0 then TextInfo("", defaultLanguage, 0.0, Ltr, Latin, 0, None)
    else
      var normalized := NormalizeSpaces(text, u);
      var (language, confidence) := detectLanguage(normalized);
      var dominant := DominantScript(normalized, u);
      TextInfo(normalized, language, confidence, TextDirection(normalized, u),
               if dominant.None? then Latin else dominant.value, |normalized|, Some(IsRtlLanguage(language)))
  }

  /**
   * An empty text gets the default record; any other text gets its
   * normalized form, whose length and direction are reported, a script
   * that has the most letters (Latin when no letter has a script) and an
   * `is_rtl` entry that agrees with the language.
   */
  lemma ProcessMultilingualShape(text: string, u: Unicode, defaultLanguage: string,
                                 detectLanguage: string -> (string, real))
    ensures var info := ProcessMultilingualText(text, u, defaultLanguage, detectLanguage);
      (|text| == 0 ==> info == TextInfo("", defaultLanguage, 0.0, Ltr, Latin, 0, None))
      && (|text| > 0 ==>
        info.normalized == NormalizeSpaces(text, u) && info.length == |info.normalized|
        && NoAdjacent(info.normalized, IsBlank)
        && info.direction == TextDirection(info.normalized, u)
        && info.isRtl == Some(IsRtlLanguage(info.language))
        && (forall s :: ScriptCount(info.normalized, u, s) <= ScriptCount(info.normalized, u, info.script))
        && (SeenScripts(info.normalized, u) == [] ==> info.script == Latin))
  {
    if |text| > 0 {
      var normalized := NormalizeSpaces(text, u);
      NormalizeSpacesShape(text, u);
      var order := SeenScripts(normalized, u);
      var key := (s: Script) => ScriptCount(normalized, u, s) as real;
      FirstMaxByIsMax(order, key);
      var info := ProcessMultilingualText(text, u, defaultLanguage, detectLanguage);
      forall s
        ensures ScriptCount(normalized, u, s) <= ScriptCount(normalized, u, info.script)
      {
        SeenIffCounted(normalized, u, s);
        if |order| > 0 {
          var k :| 0 <= k < |order| && order[k] == info.script && forall j :: 0 <= j < |order| ==> key(order[j]) <= key(order[k]);
          if s in order {
            var j :| 0 <= j < |order| && order[j] == s;
            assert key(order[j]) <= key(order[k]);
          }
        }
      }
    }
  }
}
