/**
 * The output side of the second extractor (`json_writer_new.py`,
 * `OutlineWriter`): the projection of an outline document to the output
 * format, the format check that lists every problem it finds, and the
 * set-based comparison of a predicted outline with a ground truth.
 */
module OutlineWriter {
  import opened Options
  import opened Text
  import opened Records
  import opened Lists
  import opened JsonValues
  import opened OutlineJson
  import opened Metrics

  // ----- _format_outline_data -----

  /** The entries the loop walks: `data.get("outline", [])`. */
  function OutlineItems(data: map<string, Json>): seq<Json>
    requires "outline" in data ==> data["outline"].JList?
  {
    if "outline" in data then data["outline"].items else []
  }

  /** The loop of `_format_outline_data` calls `entry.get`, so every entry must be a dictionary. */
  predicate Formattable(data: map<string, Json>) {
    ("outline" in data ==> data["outline"].JList?)
    && forall k :: 0 <= k < |OutlineItems(data)| ==> OutlineItems(data)[k].JDict?
  }

  /** One entry projected to level, text and page, with the defaults "H1", "" and 0. */
  function FormatEntry(entry: map<string, Json>): Json {
    JDict(map[
      "level" := Get(entry, "level", JStr(H1)),
      "text" := Get(entry, "text", JStr("")),
      "page" := Get(entry, "page", JInt(0))])
  }

  /** The projected entries, in the order of the input. */
  function FormattedItems(items: seq<Json>): seq<Json>
    requires forall k :: 0 <= k < |items| ==> items[k].JDict?
  {
    seq(|items|, k requires 0 <= k < |items| => FormatEntry(items[k].fields))
  }

  /** `_format_outline_data` */
  function FormattedOutline(data: map<string, Json>): map<string, Json>
    requires Formattable(data)
  {
    map["title" := Get(data, "title", JStr("")), "outline" := JList(FormattedItems(OutlineItems(data)))]
  }

  /** `_format_outline_data`: the append loop over the entries. */
  method FormatOutlineData(data: map<string, Json>) returns (formatted: map<string, Json>)
    requires Formattable(data)
    ensures formatted == FormattedOutline(data)
  {
    var title := if "title" in data then data["title"] else JStr("");
    var entries := if "outline" in data then data["outline"].items else [];
    assert entries == OutlineItems(data);
    var outline: seq<Json> := [];
    for k := 0 to |entries|
      invariant outline == FormattedItems(entries[..k])
    {
      var entry := entries[k].fields;
      var level := if "level" in entry then entry["level"] else JStr(H1);
      var text := if "text" in entry then entry["text"] else JStr("");
      var page := if "page" in entry then entry["page"] else JInt(0);
      outline := outline + [JDict(map["level" := level, "text" := text, "page" := page])];
    }
    assert entries[..|entries|] == entries;
    formatted := map["title" := title, "outline" := JList(outline)];
  }

  /**
   * The formatted document has exactly the keys title and outline; it
   * keeps every entry in order, each with exactly the keys level, text
   * and page, holding the input's value where there is one and "H1", ""
   * and 0 otherwise; the title defaults to "".
   */
  lemma FormattedOutlineProperties(data: map<string, Json>)
    requires Formattable(data)
    ensures var f := FormattedOutline(data);
      var items := OutlineItems(data);
      f.Keys == {"title", "outline"}
      && (f["title"] == if "title" in data then data["title"] else JStr(""))
      && f["outline"].JList? && |f["outline"].items| == |items|
      && forall k :: 0 <= k < |items| ==>
        var out := f["outline"].items[k];
        var e := items[k].fields;
        out.JDict? && out.fields.Keys == {"level", "text", "page"}
        && (out.fields["level"] == if "level" in e then e["level"] else JStr(H1))
        && (out.fields["text"] == if "text" in e then e["text"] else JStr(""))
        && (out.fields["page"] == if "page" in e then e["page"] else JInt(0))
  {
  }

  /** Formatting a formatted document changes nothing. */
  lemma FormatIdempotent(data: map<string, Json>)
    requires Formattable(data)
    ensures Formattable(FormattedOutline(data))
    ensures FormattedOutline(FormattedOutline(data)) == FormattedOutline(data)
  {
    var f := FormattedOutline(data);
    var items := FormattedItems(OutlineItems(data));
    assert OutlineItems(f) == items;
    forall k | 0 <= k < |items|
      ensures FormatEntry(items[k].fields) == items[k]
    {
      var e := items[k].fields;
      assert "level" in e && "text" in e && "page" in e;
      assert FormatEntry(e).fields == e;
    }
    assert FormattedItems(items) == items;
  }

  // ----- validate_outline_format -----

  /** One problem `validate_outline_format` reports; entry problems carry the entry's index. */
  datatype FormatError =
    | MissingTitle
    | TitleNotString
    | MissingOutline
    | OutlineNotList
    | EntryNotDict(index: nat)
    | MissingLevel(index: nat)
    | InvalidLevel(index: nat)
    | MissingText(index: nat)
    | TextNotString(index: nat)
    | MissingPage(index: nat)
    | PageInvalid(index: nat)

  /** The entry a problem is about, if any. */
  function EntryOf(err: FormatError): Option<nat> {
    if err.MissingTitle? || err.TitleNotString? || err.MissingOutline? || err.OutlineNotList? then None
    else Some(err.index)
  }

  /** A problem with a value that is there, rather than with the shape of the document. */
  predicate IsValueError(err: FormatError) {
    err.TitleNotString? || err.InvalidLevel? || err.TextNotString? || err.PageInvalid?
  }

  /** The problems of entry `i`: one if it is not a dictionary, else one per missing or invalid field. */
  function EntryErrors(i: nat, entry: Json): seq<FormatError> {
    if !entry.JDict? then [EntryNotDict(i)]
    else
      var e := entry.fields;
      (if "level" !in e then [MissingLevel(i)] else if !IsOutputLevel(e["level"]) then [InvalidLevel(i)] else [])
      + (if "text" !in e then [MissingText(i)] else if !e["text"].JStr? then [TextNotString(i)] else [])
      + (if "page" !in e then [MissingPage(i)] else if !IsPageValue(e["page"]) then [PageInvalid(i)] else [])
  }

  /** The problems of all entries, entry by entry. */
  function EntriesErrors(items: seq<Json>): seq<FormatError> {
    if |items| == 0 then []
    else EntriesErrors(items[..|items| - 1]) + EntryErrors(|items| - 1, items[|items| - 1])
  }

  function TitleErrors(data: map<string, Json>): seq<FormatError> {
    if "title" !in data then [MissingTitle]
    else if !data["title"].JStr? then [TitleNotString]
    else []
  }

  /** `validate_outline_format` */
  function OutlineErrors(data: map<string, Json>): seq<FormatError> {
    TitleErrors(data)
    + if "outline" !in data then [MissingOutline]
      else if !data["outline"].JList? then [OutlineNotList]
      else EntriesErrors(data["outline"].items)
  }

  /** `validate_outline_format`: the append loop. */
  method ValidateOutlineFormat(data: map<string, Json>) returns (errors: seq<FormatError>)
    ensures errors == OutlineErrors(data)
  {
    errors := [];
    if "title" !in data {
      errors := errors + [MissingTitle];
    } else if !data["title"].JStr? {
      errors := errors + [TitleNotString];
    }
    assert errors == TitleErrors(data);
    if "outline" !in data {
      errors := errors + [MissingOutline];
    } else if !data["outline"].JList? {
      errors := errors + [OutlineNotList];
    } else {
      var entryErrors := CheckEntries(data["outline"].items);
      errors := errors + entryErrors;
    }
  }

  /** The loop of `validate_outline_format` over the entries, with the problems it appends. */
  method CheckEntries(items: seq<Json>) returns (errors: seq<FormatError>)
    ensures errors == EntriesErrors(items)
  {
    errors := [];
    for i := 0 to |items|
      invariant errors == EntriesErrors(items[..i])
    {
      var entryErrors := CheckEntry(i, items[i]);
      EntriesErrorsSnoc(items, i);
      errors := errors + entryErrors;
    }
    assert items[..|items|] == items;
  }

  lemma EntriesErrorsSnoc(items: seq<Json>, i: nat)
    requires i < |items|
    ensures EntriesErrors(items[..i + 1]) == EntriesErrors(items[..i]) + EntryErrors(i, items[i])
  {
    assert items[..i + 1][..i] == items[..i];
  }

  /** The body of the loop of `validate_outline_format` for entry `i`. */
  method CheckEntry(i: nat, entry: Json) returns (errors: seq<FormatError>)
    ensures errors == EntryErrors(i, entry)
  {
    errors := [];
    if !entry.JDict? {
      errors := errors + [EntryNotDict(i)];
      return;
    }
    var e := entry.fields;
    if "level" !in e {
      errors := errors + [MissingLevel(i)];
    } else if !IsOutputLevel(e["level"]) {
      errors := errors + [InvalidLevel(i)];
    }
    if "text" !in e {
      errors := errors + [MissingText(i)];
    } else if !e["text"].JStr? {
      errors := errors + [TextNotString(i)];
    }
    if "page" !in e {
      errors := errors + [MissingPage(i)];
    } else if !IsPageValue(e["page"]) {
      errors := errors + [PageInvalid(i)];
    }
  }

  /** An entry has no problem exactly when the other writer's check accepts it. */
  lemma EntryErrorsValid(i: nat, entry: Json)
    ensures EntryErrors(i, entry) == [] <==> ValidEntry(entry)
  {
  }

  /** The entries have no problem exactly when each of them is accepted. */
  lemma {:induction false} EntriesErrorsValid(items: seq<Json>)
    ensures EntriesErrors(items) == [] <==> forall k :: 0 <= k < |items| ==> ValidEntry(items[k])
  {
    if |items| > 0 {
      var init := items[..|items| - 1];
      EntriesErrorsValid(init);
      EntryErrorsValid(|items| - 1, items[|items| - 1]);
      assert forall k :: 0 <= k < |init| ==> init[k] == items[k];
    }
  }

  /**
   * The two writers' checks agree: `validate_outline_format` finds no
   * problem exactly when `validate_json_format` answers True.
   */
  lemma ValidatorsAgree(data: map<string, Json>)
    ensures OutlineErrors(data) == [] <==> ValidJsonFormat(JDict(data))
  {
    if "outline" in data && data["outline"].JList? {
      EntriesErrorsValid(data["outline"].items);
    }
  }

  /** Every problem of the entries is a problem of one of them. */
  lemma {:induction false} EntriesErrorsMembers(items: seq<Json>)
    ensures forall err :: err in EntriesErrors(items) ==>
      exists k :: 0 <= k < |items| && err in EntryErrors(k, items[k])
  {
    if |items| > 0 {
      var init := items[..|items| - 1];
      EntriesErrorsMembers(init);
      forall err | err in EntriesErrors(items)
        ensures exists k :: 0 <= k < |items| && err in EntryErrors(k, items[k])
      {
        if err in EntriesErrors(init) {
          var k :| 0 <= k < |init| && err in EntryErrors(k, init[k]);
          assert init[k] == items[k];
        } else {
          assert err in EntryErrors(|items| - 1, items[|items| - 1]);
        }
      }
    }
  }

  /** The title is reported missing, first, exactly when the document has none. */
  lemma MissingTitleReported(data: map<string, Json>)
    ensures MissingTitle in OutlineErrors(data) <==> "title" !in data
    ensures "title" !in data ==> OutlineErrors(data)[0] == MissingTitle
  {
    var rest := if "outline" !in data then [MissingOutline]
      else if !data["outline"].JList? then [OutlineNotList]
      else EntriesErrors(data["outline"].items);
    assert OutlineErrors(data) == TitleErrors(data) + rest;
    if "outline" in data && data["outline"].JList? {
      EntriesNoTitleError(data["outline"].items);
    }
    assert MissingTitle !in rest;
  }

  /** No entry problem is about the title. */
  lemma EntriesNoTitleError(items: seq<Json>)
    ensures MissingTitle !in EntriesErrors(items)
  {
    EntriesErrorsMembers(items);
    if MissingTitle in EntriesErrors(items) {
      var k :| 0 <= k < |items| && MissingTitle in EntryErrors(k, items[k]);
      EntryErrorsIndexed(k, items[k]);
      assert false;
    }
  }

  /** Every problem of entry `i` names entry `i`. */
  lemma EntryErrorsIndexed(i: nat, entry: Json)
    ensures forall err :: err in EntryErrors(i, entry) ==> EntryOf(err) == Some(i)
  {
  }

  /** The predicate "this problem is about entry i". */
  function About(i: nat): FormatError -> bool {
    err => EntryOf(err) == Some(i)
  }

  /** Each problem of an entry is about that entry. */
  lemma EntryErrorsAbout(j: nat, entry: Json, i: nat)
    ensures Count(EntryErrors(j, entry), About(i)) == if i == j then |EntryErrors(j, entry)| else 0
  {
    var errs := EntryErrors(j, entry);
    assert forall k :: 0 <= k < |errs| ==> EntryOf(errs[k]) == Some(j);
    if i == j {
      CountAll(errs, About(i));
    } else {
      CountZero(errs, About(i));
    }
  }

  /** Entry i contributes exactly its own problems to the report, and no other entry adds one about it. */
  lemma {:induction false} ErrorsAboutEntry(items: seq<Json>, i: nat)
    requires i < |items|
    ensures Count(EntriesErrors(items), About(i)) == |EntryErrors(i, items[i])|
  {
    var n := |items| - 1;
    var init := items[..n];
    var last := EntryErrors(n, items[n]);
    assert EntriesErrors(items) == EntriesErrors(init) + last;
    CountAppend(EntriesErrors(init), last, About(i));
    EntryErrorsAbout(n, items[n], i);
    if i < n {
      ErrorsAboutEntry(init, i);
      assert init[i] == items[i];
    } else {
      AboutNone(init, i);
    }
  }

  /** Entries before index i report nothing about entry i. */
  lemma {:induction false} AboutNone(items: seq<Json>, i: nat)
    requires |items| <= i
    ensures Count(EntriesErrors(items), About(i)) == 0
  {
    if |items| > 0 {
      var n := |items| - 1;
      AboutNone(items[..n], i);
      CountAppend(EntriesErrors(items[..n]), EntryErrors(n, items[n]), About(i));
      EntryErrorsAbout(n, items[n], i);
    }
  }

  /**
   * An entry that is not a dictionary is reported exactly once, and its
   * fields are not looked at.
   */
  lemma NonDictEntryOneError(data: map<string, Json>, i: nat)
    requires "outline" in data && data["outline"].JList?
    requires i < |data["outline"].items| && !data["outline"].items[i].JDict?
    ensures var errs := OutlineErrors(data);
      Count(errs, About(i)) == 1
      && EntryNotDict(i) in errs
  {
    var items := data["outline"].items;
    ErrorsAboutEntry(items, i);
    CountAppend(TitleErrors(data), EntriesErrors(items), About(i));
    assert Count(TitleErrors(data), About(i)) == 0 by {
      CountZero(TitleErrors(data), About(i));
    }
    EntryNotDictListed(items, i);
  }

  lemma {:induction false} EntryNotDictListed(items: seq<Json>, i: nat)
    requires i < |items| && !items[i].JDict?
    ensures EntryNotDict(i) in EntriesErrors(items)
  {
    var n := |items| - 1;
    if i < n {
      EntryNotDictListed(items[..n], i);
    }
  }

  /** A level outside H1, H2 and H3 is reported. */
  lemma InvalidLevelReported(data: map<string, Json>, i: nat)
    requires "outline" in data && data["outline"].JList?
    requires i < |data["outline"].items|
    requires var e := data["outline"].items[i];
      e.JDict? && "level" in e.fields && !IsOutputLevel(e.fields["level"])
    ensures InvalidLevel(i) in OutlineErrors(data)
  {
    InvalidLevelListed(data["outline"].items, i);
  }

  lemma {:induction false} InvalidLevelListed(items: seq<Json>, i: nat)
    requires i < |items|
    requires items[i].JDict? && "level" in items[i].fields && !IsOutputLevel(items[i].fields["level"])
    ensures InvalidLevel(i) in EntriesErrors(items)
  {
    var n := |items| - 1;
    if i < n {
      InvalidLevelListed(items[..n], i);
    } else {
      assert EntryErrors(n, items[n])[0] == InvalidLevel(n);
    }
  }

  /**
   * A formatted document has every key the check asks for, so the only
   * problems left are values of the wrong kind.
   */
  lemma FormattedHasOnlyValueErrors(data: map<string, Json>)
    requires Formattable(data)
    ensures forall err :: err in OutlineErrors(FormattedOutline(data)) ==> IsValueError(err)
  {
    var f := FormattedOutline(data);
    var items := f["outline"].items;
    assert OutlineErrors(f) == TitleErrors(f) + EntriesErrors(items);
    EntriesErrorsMembers(items);
    forall err | err in OutlineErrors(f)
      ensures IsValueError(err)
    {
      if err in EntriesErrors(items) {
        var k :| 0 <= k < |items| && err in EntryErrors(k, items[k]);
        assert items[k] == FormatEntry(OutlineItems(data)[k].fields);
        EntryValueErrors(k, items[k]);
      }
    }
  }

  /** An entry with all three keys can only have values of the wrong kind. */
  lemma EntryValueErrors(i: nat, entry: Json)
    requires entry.JDict? && "level" in entry.fields && "text" in entry.fields && "page" in entry.fields
    ensures forall err :: err in EntryErrors(i, entry) ==> IsValueError(err)
  {
  }

  // ----- compare_outlines -----

  /** The tuple `(level, text.strip().lower(), page)` an entry is compared by. */
  function CompareKey(e: Entry): Entry { Entry(e.level, Lower(Strip(e.text)), e.page) }

  datatype Comparison = Comparison(
    precision: real, recall: real, f1: real,
    truePositives: nat, predictedCount: nat, goldCount: nat)

  /** The metrics of two tuple sets as `compare_outlines` computes them. */
  function Compared(predicted: set<Entry>, gold: set<Entry>): Comparison {
    var tp := if |predicted| > 0 && |gold| > 0 then |predicted * gold| else 0;
    if |predicted| == 0 && |gold| == 0 then Comparison(1.0, 1.0, 1.0, tp, 0, 0)
    else if |predicted| == 0 || |gold| == 0 then Comparison(0.0, 0.0, 0.0, tp, |predicted|, |gold|)
    else
      var precision := tp as real / |predicted| as real;
      var recall := tp as real / |gold| as real;
      Comparison(precision, recall, F1(precision, recall), tp, |predicted|, |gold|)
  }

  /** `compare_outlines`: each outline read with `.get("outline", [])`. */
  function CompareOutlines(predicted: Option<seq<Entry>>, gold: Option<seq<Entry>>): Comparison {
    Compared(KeySet(GetOr(predicted, []), CompareKey), KeySet(GetOr(gold, []), CompareKey))
  }

  /**
   * Two empty outlines compare perfectly; one empty outline against a
   * non-empty one scores 0 with no true positives; otherwise precision
   * and recall are the shared tuples over each set, F1 their harmonic
   * mean. Counts are of distinct tuples and all scores lie in [0, 1].
   */
  lemma ComparedProperties(predicted: set<Entry>, gold: set<Entry>)
    ensures var c := Compared(predicted, gold);
      c.predictedCount == |predicted| && c.goldCount == |gold|
      && c.truePositives <= c.predictedCount && c.truePositives <= c.goldCount
      && (|predicted| == 0 && |gold| == 0 ==> c.precision == 1.0 && c.recall == 1.0 && c.f1 == 1.0)
      && ((|predicted| == 0) != (|gold| == 0) ==>
            c.precision == 0.0 && c.recall == 0.0 && c.f1 == 0.0 && c.truePositives == 0)
      && (|predicted| > 0 && |gold| > 0 ==>
            c.truePositives == |predicted * gold|
            && c.precision * |predicted| as real == c.truePositives as real
            && c.recall * |gold| as real == c.truePositives as real)
      && 0.0 <= c.precision <= 1.0 && 0.0 <= c.recall <= 1.0 && 0.0 <= c.f1 <= 1.0
  {
    var c := Compared(predicted, gold);
    if |predicted| > 0 && |gold| > 0 {
      SetSplit(predicted, gold);
      SetSplit(gold, predicted);
      assert gold * predicted == predicted * gold;
      RatioBounds(c.truePositives, |predicted|);
      RatioBounds(c.truePositives, |gold|);
      F1Bounds(c.precision, c.recall);
    }
  }

  /** For two non-empty outlines the comparison agrees with the set-based metrics of the first writer. */
  lemma ComparedAgreesWithScores(predicted: set<Entry>, gold: set<Entry>)
    requires |predicted| > 0 && |gold| > 0
    ensures var c := Compared(predicted, gold);
      var s := ScoresOf(predicted, gold);
      c.precision == s.precision && c.recall == s.recall && c.f1 == s.f1 && c.truePositives == s.truePositives
  {
    SetSplit(predicted, gold);
    SetSplit(gold, predicted);
    assert gold * predicted == predicted * gold;
  }

  /** An outline compared with itself scores 1 throughout, even when it is empty. */
  lemma CompareIdentical(outline: seq<Entry>)
    ensures var c := CompareOutlines(Some(outline), Some(outline));
      c.precision == 1.0 && c.recall == 1.0 && c.f1 == 1.0
  {
    var p := KeySet(outline, CompareKey);
    if |p| > 0 {
      assert p * p == p;
      RatioBounds(|p|, |p|);
      F1Bounds(1.0, 1.0);
    }
  }

  /** A missing outline is compared as an empty one. */
  lemma CompareMissingOutline(gold: Option<seq<Entry>>)
    ensures CompareOutlines(None, gold) == CompareOutlines(Some([]), gold)
  {
  }

  /** Two empty outlines compare as 1 here and as 0 under `_calculate_metrics`. */
  lemma EmptyComparisonsDiffer()
    ensures CompareOutlines(Some([]), Some([])).f1 == 1.0
    ensures OutlineMetrics([], []).f1 == 0.0
  {
    EmptyOutlines();
    assert KeySet([], CompareKey) == {};
  }

  /** An entry whose text only changes case has the same comparison tuple. */
  lemma CompareKeyIgnoresCase(e: Entry)
    ensures CompareKey(Entry(e.level, Lower(e.text), e.page)) == CompareKey(e)
  {
    LowerStrip(e.text);
    LowerIdempotent(Strip(e.text));
  }

  function LowerText(e: Entry): Entry { Entry(e.level, Lower(e.text), e.page) }

  /** Lower-casing every predicted text leaves the comparison unchanged. */
  lemma CompareIgnoresCase(predicted: seq<Entry>, gold: Option<seq<Entry>>)
    ensures CompareOutlines(Some(Map(predicted, LowerText)), gold) == CompareOutlines(Some(predicted), gold)
  {
    var lowered := Map(predicted, LowerText);
    forall k | 0 <= k < |predicted|
      ensures CompareKey(lowered[k]) == CompareKey(predicted[k])
    {
      CompareKeyIgnoresCase(predicted[k]);
    }
    assert KeySet(lowered, CompareKey) == KeySet(predicted, CompareKey);
  }

  /** A repeated predicted entry changes nothing, counts included. */
  lemma CompareDuplicatesCollapse(predicted: seq<Entry>, i: nat, gold: Option<seq<Entry>>)
    requires i < |predicted|
    ensures CompareOutlines(Some(predicted + [predicted[i]]), gold) == CompareOutlines(Some(predicted), gold)
  {
    KeySetRepeat(predicted, i, CompareKey);
  }

  /** The counts are of distinct tuples, so never more than the entries. */
  lemma CompareCountsBounded(predicted: seq<Entry>, gold: seq<Entry>)
    ensures var c := CompareOutlines(Some(predicted), Some(gold));
      c.predictedCount <= |predicted| && c.goldCount <= |gold|
  {
    KeySetSize(predicted, CompareKey);
    KeySetSize(gold, CompareKey);
  }
}
