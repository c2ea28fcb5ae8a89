/**
 * The output side of the first extractor (`json_writer.py`): the outline
 * document built from heading entries, and the format check applied to a
 * document read back from JSON.
 */
module OutlineJson {
  import opened Options
  import opened Text
  import opened Sorting
  import opened Records
  import opened Lists
  import opened JsonValues

  // ----- create_outline_json -----

  /** A heading entry handed to the writer: every key may be missing. */
  datatype InputEntry = InputEntry(level: Option<string>, text: Option<string>, page: Option<int>, order: Option<int>)

  /** The written document; `metadata` is present only when it was given and non-empty. */
  datatype OutlineDoc = OutlineDoc(title: string, outline: seq<Entry>, metadata: Option<map<string, Json>>)

  /** The sort key `(x.get('page', 0), x.get('order', 0))`. */
  function InputKey(e: InputEntry): seq<real> { [GetOr(e.page, 0) as real, GetOr(e.order, 0) as real] }

  /** The cleaned entry: level (default H1), stripped text, page (default 0). */
  function Cleaned(e: InputEntry): Entry {
    Entry(GetOr(e.level, H1), Strip(GetOr(e.text, "")), GetOr(e.page, 0))
  }

  /** Only entries whose cleaned text is not empty are kept. */
  predicate HasText(e: InputEntry) { Cleaned(e).text != "" }

  /** `if metadata:` on an optional dictionary. */
  predicate Truthy(metadata: Option<map<string, Json>>) { metadata.Some? && |metadata.value| > 0 }

  /** `create_outline_json` */
  function CreatedOutline(title: Option<string>, entries: seq<InputEntry>, metadata: Option<map<string, Json>>): OutlineDoc {
    OutlineDoc(
      GetOr(title, ""),
      FilterMap(SortBy(entries, InputKey), HasText, Cleaned),
      if Truthy(metadata) then metadata else None)
  }

  /** `create_outline_json` */
  method CreateOutlineJson(title: Option<string>, entries: seq<InputEntry>, metadata: Option<map<string, Json>>)
    returns (doc: OutlineDoc)
    ensures doc == CreatedOutline(title, entries, metadata)
  {
    var t := if title.None? then "" else title.value;
    var sorted := SortBy(entries, InputKey);
    var cleaned := CleanEntries(sorted);
    doc := OutlineDoc(t, cleaned, if Truthy(metadata) then metadata else None);
  }

  /** The cleaning loop of `create_outline_json` over the sorted entries. */
  method CleanEntries(sorted: seq<InputEntry>) returns (cleaned: seq<Entry>)
    ensures cleaned == FilterMap(sorted, HasText, Cleaned)
  {
    cleaned := [];
    for i := 0 to |sorted|
      invariant cleaned == FilterMap(sorted[..i], HasText, Cleaned)
    {
      var entry := Cleaned(sorted[i]);
      FilterMapStep(sorted, i, HasText, Cleaned, cleaned, entry.text != "");
      if entry.text != "" {
        cleaned := cleaned + [entry];
      }
    }
    assert sorted[..|sorted|] == sorted;
  }

  /** Two entries in sort order are in page order. */
  lemma InputKeyPages(a: InputEntry, b: InputEntry)
    requires LexLe(InputKey(a), InputKey(b))
    ensures GetOr(a.page, 0) <= GetOr(b.page, 0)
  {
    LexLePair(GetOr(a.page, 0) as real, GetOr(a.order, 0) as real, GetOr(b.page, 0) as real, GetOr(b.order, 0) as real);
  }

  /** Every written entry has a non-empty text with no surrounding blanks. */
  predicate StrippedTexts(out: seq<Entry>) {
    forall k :: 0 <= k < |out| ==> out[k].text != "" && Strip(out[k].text) == out[k].text
  }

  /** Every written entry is the cleaned form of an entry of `s` with a non-blank text. */
  predicate CleanedFrom(out: seq<Entry>, s: seq<InputEntry>) {
    forall k :: 0 <= k < |out| ==> CleanedOf(out[k], s)
  }

  /** `e` is the cleaned form of an entry of `s` with a non-blank text. */
  predicate CleanedOf(e: Entry, s: seq<InputEntry>) {
    exists i :: 0 <= i < |s| && HasText(s[i]) && e == Cleaned(s[i])
  }

  lemma CleanedStripped(s: seq<InputEntry>)
    ensures StrippedTexts(FilterMap(s, HasText, Cleaned))
  {
    var out := FilterMap(s, HasText, Cleaned);
    FilterMapMembers(s, HasText, Cleaned);
    forall k | 0 <= k < |out|
      ensures out[k].text != "" && Strip(out[k].text) == out[k].text
    {
      assert out[k] in out;
      var a :| 0 <= a < |s| && HasText(s[a]) && out[k] == Cleaned(s[a]);
      StripIdempotent(GetOr(s[a].text, ""));
    }
  }

  lemma CleanedFromInputs(s: seq<InputEntry>)
    ensures CleanedFrom(FilterMap(s, HasText, Cleaned), s)
  {
    var out := FilterMap(s, HasText, Cleaned);
    FilterMapMembers(s, HasText, Cleaned);
    forall k | 0 <= k < |out|
      ensures CleanedOf(out[k], s)
    {
      assert out[k] in out;
    }
  }

  lemma CleanedInPageOrder(s: seq<InputEntry>)
    requires SortedBy(s, InputKey)
    ensures PagesSorted(FilterMap(s, HasText, Cleaned))
  {
    forall a, b | 0 <= a < b < |s| && HasText(s[a]) && HasText(s[b])
      ensures Cleaned(s[a]).page <= Cleaned(s[b]).page
    {
      InputKeyPages(s[a], s[b]);
    }
    FilterMapOrder(s, HasText, Cleaned, (x: Entry, y: Entry) => x.page <= y.page);
  }

  /** The entries of a permutation are the entries of the original. */
  lemma CleanedFromPermutation(out: seq<Entry>, s: seq<InputEntry>, t: seq<InputEntry>)
    requires CleanedFrom(out, s) && multiset(s) == multiset(t)
    ensures CleanedFrom(out, t)
  {
    forall k | 0 <= k < |out|
      ensures CleanedOf(out[k], t)
    {
      assert CleanedOf(out[k], s);
      var a :| 0 <= a < |s| && HasText(s[a]) && out[k] == Cleaned(s[a]);
      assert s[a] in multiset(t);
      var i :| 0 <= i < |t| && t[i] == s[a];
    }
  }

  /**
   * The cleaning loop keeps one entry per entry with a non-blank text, each
   * with a stripped non-empty text and made from such an entry, in the
   * order of the list.
   */
  lemma CleanedProperties(s: seq<InputEntry>)
    ensures |FilterMap(s, HasText, Cleaned)| == Count(s, HasText)
    ensures StrippedTexts(FilterMap(s, HasText, Cleaned))
    ensures CleanedFrom(FilterMap(s, HasText, Cleaned), s)
    ensures SortedBy(s, InputKey) ==> PagesSorted(FilterMap(s, HasText, Cleaned))
  {
    FilterMapLength(s, HasText, Cleaned);
    CleanedStripped(s);
    CleanedFromInputs(s);
    if SortedBy(s, InputKey) {
      CleanedInPageOrder(s);
    }
  }

  /**
   * `create_outline_json`: a missing title becomes ""; one entry per input
   * entry with a non-blank text, each with a stripped non-empty text and
   * taken from an input entry; in page order; metadata only when given
   * and non-empty.
   */
  lemma CreatedOutlineProperties(title: Option<string>, entries: seq<InputEntry>, metadata: Option<map<string, Json>>)
    ensures title.None? ==> CreatedOutline(title, entries, metadata).title == ""
    ensures |CreatedOutline(title, entries, metadata).outline| == Count(entries, HasText)
    ensures StrippedTexts(CreatedOutline(title, entries, metadata).outline)
    ensures CleanedFrom(CreatedOutline(title, entries, metadata).outline, entries)
    ensures PagesSorted(CreatedOutline(title, entries, metadata).outline)
    ensures CreatedOutline(title, entries, metadata).metadata.Some? <==> metadata.Some? && |metadata.value| > 0
  {
    var sorted := SortBy(entries, InputKey);
    var out := FilterMap(sorted, HasText, Cleaned);
    assert CreatedOutline(title, entries, metadata).outline == out;
    SortBySorted(entries, InputKey);
    CleanedProperties(sorted);
    CountPermutation(sorted, entries, HasText);
    CleanedFromPermutation(out, sorted, entries);
  }

  // ----- validate_json_format -----

  /** One outline entry passes the checks of `validate_json_format`. */
  predicate ValidEntry(e: Json) {
    e.JDict?
    && "level" in e.fields && "text" in e.fields && "page" in e.fields
    && e.fields["level"].JStr? && e.fields["text"].JStr? && IsPyInt(e.fields["page"])
    && IsOutputLevel(e.fields["level"])
    && PyIntValue(e.fields["page"]) >= 0
  }

  /**
   * `validate_json_format`: a dictionary with a string title and a list
   * outline of valid entries. Anything that is not a dictionary fails, as
   * the exception that indexing it raises is caught and answered False.
   */
  predicate ValidJsonFormat(data: Json) {
    data.JDict?
    && "title" in data.fields && "outline" in data.fields
    && data.fields["title"].JStr?
    && data.fields["outline"].JList?
    && forall k :: 0 <= k < |data.fields["outline"].items| ==> ValidEntry(data.fields["outline"].items[k])
  }

  /** `validate_json_format`: the checks in order, leaving at the first that fails. */
  method ValidateJsonFormat(data: Json) returns (valid: bool)
    ensures valid <==> ValidJsonFormat(data)
  {
    if !data.JDict? {
      return false;
    }
    if "title" !in data.fields || "outline" !in data.fields {
      return false;
    }
    if !data.fields["title"].JStr? {
      return false;
    }
    if !data.fields["outline"].JList? {
      return false;
    }
    var entries := data.fields["outline"].items;
    for k := 0 to |entries|
      invariant forall j :: 0 <= j < k ==> ValidEntry(entries[j])
    {
      var entry := entries[k];
      if !entry.JDict? {
        return false;
      }
      if "level" !in entry.fields || "text" !in entry.fields || "page" !in entry.fields {
        return false;
      }
      if !entry.fields["level"].JStr? || !entry.fields["text"].JStr? || !IsPyInt(entry.fields["page"]) {
        return false;
      }
      if !IsOutputLevel(entry.fields["level"]) {
        return false;
      }
      if PyIntValue(entry.fields["page"]) < 0 {
        return false;
      }
    }
    return true;
  }

  /** An outline entry as written. */
  function EntryJson(e: Entry): Json {
    JDict(map["level" := JStr(e.level), "text" := JStr(e.text), "page" := JInt(e.page)])
  }

  /** The document as written; the metadata key comes last. */
  function DocJson(doc: OutlineDoc): Json {
    var base := map["title" := JStr(doc.title), "outline" := JList(Map(doc.outline, EntryJson))];
    JDict(if doc.metadata.Some? then base["metadata" := JDict(doc.metadata.value)] else base)
  }

  /** A written entry passes the check exactly when its level is H1–H3 and its page is not negative. */
  lemma EntryJsonValid(e: Entry)
    ensures ValidEntry(EntryJson(e)) <==> (e.level == H1 || e.level == H2 || e.level == H3) && e.page >= 0
  {
  }

  /**
   * A written document passes `validate_json_format` exactly when every
   * entry has a level among H1, H2, H3 and a page that is not negative:
   * `create_outline_json` itself checks neither.
   */
  lemma DocJsonValid(doc: OutlineDoc)
    ensures ValidJsonFormat(DocJson(doc)) <==>
      forall k :: 0 <= k < |doc.outline| ==>
        (doc.outline[k].level == H1 || doc.outline[k].level == H2 || doc.outline[k].level == H3) && doc.outline[k].page >= 0
  {
    var d := DocJson(doc);
    assert d.fields["title"] == JStr(doc.title);
    assert d.fields["outline"] == JList(Map(doc.outline, EntryJson));
    forall k | 0 <= k < |doc.outline|
      ensures ValidEntry(Map(doc.outline, EntryJson)[k]) <==>
        (doc.outline[k].level == H1 || doc.outline[k].level == H2 || doc.outline[k].level == H3) && doc.outline[k].page >= 0
    {
      EntryJsonValid(doc.outline[k]);
    }
  }
}
