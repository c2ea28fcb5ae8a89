/**
 * Document-type classification (`_detect_document_type`): weighted keyword
 * counters over the first hundred lines, an invitation check over the whole
 * document, and a fixed precedence between the counters.
 */
module DocType {
  import opened Text
  import opened Records

  /** The six document types the classifier returns. */
  datatype Kind = Invitation | Rfp | Form | Structured | Manual | Document

  /** The type's name, as the rest of the pipeline compares it. */
  function Name(k: Kind): string {
    match k
    case Invitation => "invitation"
    case Rfp => "rfp"
    case Form => "form"
    case Structured => "structured"
    case Manual => "manual"
    case Document => "document"
  }

  const RfpPhrases: seq<string> := [
    "rfp:", "request for proposal", "proposal for developing",
    "business plan", "ontario digital library", "steering committee",
    "timeline:", "background", "summary"]
  const StrongFormPhrases: seq<string> := [
    "application form for", "employee code", "employee name:",
    "ltc advance", "grant of advance", "signature of employee",
    "forwarded for approval", "office seal"]
  const FormWords: seq<string> := ["application", "form", "name:", "date:", "signature"]
  const StructuredWords: seq<string> := [
    "chapter", "section", "introduction", "overview",
    "table of contents", "acknowledgements", "foundation level",
    "revision history", "copyright notice"]
  const ManualWords: seq<string> := ["foundation", "extensions", "level"]
  const InvitationPhrases: seq<string> := ["hope to see", "rsvp", "party", "invitation", "topjump"]

  /** Which branch of the keyword chain one analysed line takes. */
  datatype Indicator = RfpLine | StrongFormLine | WeakFormLine | StructuredLine | ManualLine | NoIndicator

  /** The four counters. */
  datatype Counters = Counters(rfp: nat, form: nat, structured: nat, manual: nat)

  /** The span texts, in order. */
  function Texts(spans: seq<Span>): (r: seq<string>)
    ensures |r| == |spans| && forall i :: 0 <= i < |spans| ==> r[i] == spans[i].text
  {
    seq(|spans|, i requires 0 <= i < |spans| => spans[i].text)
  }

  /** `spans[:100] if len(spans) > 100 else spans`. */
  function Analysed(spans: seq<Span>): (r: seq<Span>)
    ensures |r| <= 100 && |r| <= |spans| && r == spans[..|r|]
    ensures |spans| <= 100 ==> r == spans
  {
    if |spans| > 100 then spans[..100] else spans
  }

  /** `' '.join(texts).lower()`. */
  function LowerJoined(spans: seq<Span>): string {
    Lower(JoinWith(" ", Texts(spans)))
  }

  /** Weak form words count only when the analysed text mentions neither "rfp" nor "proposal". */
  predicate RfpContext(allText: string) {
    Contains(allText, "rfp") || Contains(allText, "proposal")
  }

  /** The elif chain for one stripped, lower-cased line. */
  function Indicate(text: string, rfpContext: bool): Indicator {
    if |text| < 3 then NoIndicator
    else if ContainsAny(text, RfpPhrases) then RfpLine
    else if ContainsAny(text, StrongFormPhrases) then StrongFormLine
    else if ContainsAny(text, FormWords) && !rfpContext then WeakFormLine
    else if ContainsAny(text, StructuredWords) then StructuredLine
    else if ContainsAny(text, ManualWords) then ManualLine
    else NoIndicator
  }

  /** The counter update for one line. */
  function Score(c: Counters, ind: Indicator): (r: Counters) {
    match ind
    case RfpLine => c.(rfp := c.rfp + 3)
    case StrongFormLine => c.(form := c.form + 3)
    case WeakFormLine => c.(form := c.form + 1)
    case StructuredLine => c.(structured := c.structured + 2)
    case ManualLine => c.(manual := c.manual + 1)
    case NoIndicator => c
  }

  /** The counters after scoring `lines` in order, each line classified by `Indicate`. */
  function Tally(lines: seq<string>, rfpContext: bool): Counters
  {
    if |lines| == 0 then Counters(0, 0, 0, 0)
    else Score(Tally(lines[..|lines| - 1], rfpContext), Indicate(lines[|lines| - 1], rfpContext))
  }

  /** The number of `lines` that `Indicate` puts in class `k`: the reference definition of the counters. */
  function CountOf(lines: seq<string>, rfpContext: bool, k: Indicator): (n: nat)
    ensures n <= |lines|
  {
    if |lines| == 0 then 0
    else CountOf(lines[..|lines| - 1], rfpContext, k) + (if Indicate(lines[|lines| - 1], rfpContext) == k then 1 else 0)
  }

  lemma TallyStep(lines: seq<string>, i: nat, rfpContext: bool)
    requires i < |lines|
    ensures Tally(lines[..i + 1], rfpContext) == Score(Tally(lines[..i], rfpContext), Indicate(lines[i], rfpContext))
  {
    assert lines[..i + 1][..i] == lines[..i];
  }

  /** The precedence between the invitation check and the counters. */
  function Decide(invitation: bool, c: Counters): Kind {
    if invitation then Invitation
    else if c.rfp >= 3 then Rfp
    else if c.form >= 3 && c.form > c.structured then Form
    else if c.structured > c.form && c.structured > c.manual then Structured
    else if c.manual > 0 then Manual
    else Document
  }

  /** The line text the chain looks at: `span["text"].strip().lower()`. */
  function LineText(s: Span): string { Lower(Strip(s.text)) }

  function LineTexts(spans: seq<Span>): (r: seq<string>)
    ensures |r| == |spans|
  {
    seq(|spans|, i requires 0 <= i < |spans| => LineText(spans[i]))
  }

  /** The counters `_detect_document_type` reaches. */
  function CountersOf(spans: seq<Span>): Counters {
    var analysed := Analysed(spans);
    Tally(LineTexts(analysed), RfpContext(LowerJoined(analysed)))
  }

  /** Whether the whole document mentions an invitation phrase. */
  predicate InvitationFound(spans: seq<Span>) {
    ContainsAny(LowerJoined(spans), InvitationPhrases)
  }

  function DocumentTypeOf(spans: seq<Span>): Kind {
    Decide(InvitationFound(spans), CountersOf(spans))
  }

  /** The scoring loop over the analysed spans. */
  method CountIndicators(analysed: seq<Span>, rfpContext: bool)
    returns (rfpIndicators: nat, formIndicators: nat, structuredIndicators: nat, manualIndicators: nat)
    ensures Counters(rfpIndicators, formIndicators, structuredIndicators, manualIndicators)
      == Tally(LineTexts(analysed), rfpContext)
  {
    ghost var lines := LineTexts(analysed);
    formIndicators, manualIndicators, structuredIndicators, rfpIndicators := 0, 0, 0, 0;
    for i := 0 to |analysed|
      invariant Counters(rfpIndicators, formIndicators, structuredIndicators, manualIndicators)
        == Tally(lines[..i], rfpContext)
    {
      var text := Lower(Strip(analysed[i].text));
      assert text == lines[i];
      TallyStep(lines, i, rfpContext);
      if |text| < 3 {
        continue;
      }
      if ContainsAny(text, RfpPhrases) {
        rfpIndicators := rfpIndicators + 3;
      } else if ContainsAny(text, StrongFormPhrases) {
        formIndicators := formIndicators + 3;
      } else if ContainsAny(text, FormWords) && !rfpContext {
        formIndicators := formIndicators + 1;
      } else if ContainsAny(text, StructuredWords) {
        structuredIndicators := structuredIndicators + 2;
      } else if ContainsAny(text, ManualWords) {
        manualIndicators := manualIndicators + 1;
      }
    }
    assert lines[..|analysed|] == lines;
  }

  /** `_detect_document_type`: the counters, then the invitation check and the precedence. */
  method DetectDocumentType(spans: seq<Span>) returns (docType: Kind)
    ensures docType == DocumentTypeOf(spans)
  {
    var analysed := if |spans| > 100 then spans[..100] else spans;
    var allText := Lower(JoinWith(" ", Texts(analysed)));
    var fullText := Lower(JoinWith(" ", Texts(spans)));
    var rfpContext := Contains(allText, "rfp") || Contains(allText, "proposal");
    var rfpIndicators, formIndicators, structuredIndicators, manualIndicators :=
      CountIndicators(analysed, rfpContext);
    var invitationFound := ContainsAny(fullText, InvitationPhrases);
    if invitationFound {
      return Invitation;
    } else if rfpIndicators >= 3 {
      return Rfp;
    } else if formIndicators >= 3 && formIndicators > structuredIndicators {
      return Form;
    } else if structuredIndicators > formIndicators && structuredIndicators > manualIndicators {
      return Structured;
    } else if manualIndicators > 0 {
      return Manual;
    } else {
      return Document;
    }
  }

  /** Each counter is its weight times the number of lines in its class. */
  lemma {:induction false} TallyCounts(lines: seq<string>, rfpContext: bool)
    ensures Tally(lines, rfpContext) == Counters(
      3 * CountOf(lines, rfpContext, RfpLine),
      3 * CountOf(lines, rfpContext, StrongFormLine) + CountOf(lines, rfpContext, WeakFormLine),
      2 * CountOf(lines, rfpContext, StructuredLine),
      CountOf(lines, rfpContext, ManualLine))
  {
    if |lines| > 0 {
      TallyCounts(lines[..|lines| - 1], rfpContext);
    }
  }

  /** Every line falls in exactly one class, so it adds to at most one counter. */
  lemma {:induction false} OneClassPerLine(lines: seq<string>, rfpContext: bool)
    ensures CountOf(lines, rfpContext, RfpLine) + CountOf(lines, rfpContext, StrongFormLine)
      + CountOf(lines, rfpContext, WeakFormLine) + CountOf(lines, rfpContext, StructuredLine)
      + CountOf(lines, rfpContext, ManualLine) + CountOf(lines, rfpContext, NoIndicator) == |lines|
  {
    if |lines| > 0 {
      OneClassPerLine(lines[..|lines| - 1], rfpContext);
    }
  }

  /** When the analysed text mentions "rfp" or "proposal", the weak form words never score. */
  lemma {:induction false} RfpContextNoWeakForm(lines: seq<string>)
    ensures CountOf(lines, true, WeakFormLine) == 0
  {
    if |lines| > 0 {
      RfpContextNoWeakForm(lines[..|lines| - 1]);
    }
  }

  /** Lines shorter than three characters leave the counters unchanged. */
  lemma ShortLineIgnored(lines: seq<string>, t: string, rfpContext: bool)
    requires |t| < 3
    ensures Tally(lines + [t], rfpContext) == Tally(lines, rfpContext)
  {
    assert (lines + [t])[..|lines|] == lines;
  }

  /** Only the first hundred spans are scored: later spans never change the counters. */
  lemma AnalysisWindow(spans: seq<Span>, extra: seq<Span>)
    requires |spans| >= 100
    ensures CountersOf(spans + extra) == CountersOf(spans)
  {
    assert Analysed(spans + extra) == Analysed(spans);
  }

  /**
   * The precedence of `_detect_document_type`, stated over the analysed
   * lines (`DocumentTypeOf` is `Decide` applied to the invitation check and
   * the tally of the analysed lines).
   */
  lemma Precedence(invitation: bool, lines: seq<string>, ctx: bool)
    ensures Decide(invitation, Tally(lines, ctx)) == Invitation <==> invitation
    ensures Decide(invitation, Tally(lines, ctx)) == Rfp
      <==> !invitation && CountOf(lines, ctx, RfpLine) > 0
    ensures Decide(invitation, Tally(lines, ctx)) == Form
      ==> CountOf(lines, ctx, RfpLine) == 0 && Tally(lines, ctx).form > Tally(lines, ctx).structured
    ensures Decide(invitation, Tally(lines, ctx)) == Manual
      ==> CountOf(lines, ctx, RfpLine) == 0 && CountOf(lines, ctx, ManualLine) > 0
  {
    TallyCounts(lines, ctx);
  }

  /** With no invitation phrase and no keyword line, the document is a plain document. */
  lemma NoKeywordsIsDocument(lines: seq<string>, ctx: bool)
    requires CountOf(lines, ctx, NoIndicator) == |lines|
    ensures Decide(false, Tally(lines, ctx)) == Document
  {
    TallyCounts(lines, ctx);
    OneClassPerLine(lines, ctx);
  }
}
