# PDF outline extractor — a verified model of the heading pipeline

This project models, in Dafny, the rule-based core of `pdf_outline_extractor`.
That core turns the positioned text spans of a PDF (text, page, position,
font size and flags) into a document title and an outline of H1–H4 headings
with page numbers. The model starts from span records and follows the source
stage by stage:

- line grouping and span combining;
- document-type detection from weighted keyword counters (form, invitation,
  RFP, structured report, manual, plain document);
- the form gate (no outline) and the invitation gate (a single H1);
- page renumbering;
- candidate filtering, including the stitching of multi-line RFP and
  syllabus headings;
- left-margin grouping and rule-based level suggestion;
- the strict-hierarchy pass, with its H1/H2/H3 "active" flags;
- heading-text normalisation;
- the final deduplication, length filter and stable page sort.

Beside the pipeline it models the smaller modules:

- the layout threshold classifiers of both layout utilities;
- the text utilities of both i18n modules (script lookup, language guesses,
  text direction, cleaning and validation);
- the old extractor's heading filter;
- the outline record handling of both JSON writers and of the clean CLI
  (formatting, validation, set-based precision/recall metrics).

Where the source mutates a list in a loop, the model is a method with a
loop, proved equal to a specification function; the properties the source
promises are lemmas about those functions. Shared primitives live in `Text`
(Python string helpers), `Lists`, `Sorting` (Python's stable `sort` with
tuple keys), `Grouping`, `Hierarchy` (the well-nestedness of a level
sequence) and `Records` (spans and outline entries).

The pipeline reads `x0`, `y0` and `size` from span dictionaries that carry
`x`, `y` and `font_size`, so those reads always return their default. The
model makes this explicit: the sorts of the pipeline order by page only, and
left-margin grouping yields a single group.

The pipeline is modelled as written. `Pipeline.Outline` returns the
finalized headings without a further hierarchy pass, and the hierarchy
pass normalizes texts with `HeadingText.NormalizeAsWritten` (rewrites,
then strip). The repaired variants, `Pipeline.CorrectedOutline` and
`HeadingText.NormalizeHeadingText`, appear only as the corrected halves of
the two findings below.

## Model

| member | source | states |
|---|---|---|
| Candidates.TargetHeadingsNotSkipped | src/pdf_outline_extractor/extractor_new.py:1176-1179 | a text containing one of the five target headings (revision history, table of contents, …) is never skipped, whatever else it contains |
| Candidates.TocRowsDropped | src/pdf_outline_extractor/extractor_new.py:786-796 | a row with a " . N" or ". N" page suffix or more than twenty full stops never survives the candidate filter |
| Candidates.ProsperityJoin | src/pdf_outline_extractor/extractor_new.py:736-754 | the RFP join consumes the span itself and at most the one after it, never running past the list |
| Candidates.SyllabusJoin | src/pdf_outline_extractor/extractor_new.py:756-773 | the syllabus join consumes at most one more span, never running past the list |
| Candidates.StitchStep | src/pdf_outline_extractor/extractor_new.py:731-777 | one turn of the stitching loop consumes its own span and at most what is left |
| Candidates.StitchFrom | src/pdf_outline_extractor/extractor_new.py:729-777 | stitching never lengthens the list |
| Candidates.StitchMultiLine | src/pdf_outline_extractor/extractor_new.py:729-777 | the `while` loop with its `pop`s yields exactly the stitched list of the sorted spans |
| Candidates.StitchAdvance | src/pdf_outline_extractor/extractor_new.py:731-777 | one turn of the loop keeps "spans done + stitching of the rest" unchanged (the loop's invariant) |
| Candidates.FilterPotential | src/pdf_outline_extractor/extractor_new.py:779-812 | the filter never lengthens the list |
| Candidates.FilterPotentialHeadings | src/pdf_outline_extractor/extractor_new.py:779-812 | the append loop keeps exactly the spans of the filter, in order |
| Candidates.FilterPotentialKeeps | src/pdf_outline_extractor/extractor_new.py:779-812 | every kept span's stripped text is non-empty, not skipped, not a table-of-contents row, not a listed timeline and at most 150 characters |
| Candidates.GroupByLeftMargin | src/pdf_outline_extractor/extractor_new.py:828-860 | for any reading of `x0`, the loop yields the runs of the `x0`-sorted spans in which every span lies within 15 points of the run's first span |
| Candidates.OneMarginGroup | src/pdf_outline_extractor/extractor_new.py:834-858 | spans carry no `x0`, so a non-empty list forms one margin group, in input order |
| Candidates.SizeRules | src/pdf_outline_extractor/extractor_new.py:935-1022 | the font-size rules of the RFP layout only suggest one of H1–H4 |
| Candidates.NumberingRules | src/pdf_outline_extractor/extractor_new.py:1026-1052 | the numbered and structural rules only suggest H1 or H2 |
| Candidates.ForcedRulesCritical | src/pdf_outline_extractor/extractor_new.py:902-915 | a text containing one of the three critical headings is forced to a heading at H3 |
| Candidates.CriticalHeadingsAreH3 | src/pdf_outline_extractor/extractor_new.py:902-915 | whatever the span's size, the verdict on a critical heading is a heading at H3 |
| Candidates.SuggestedLevels | src/pdf_outline_extractor/extractor_new.py:898-1089 | every level `_is_likely_heading` suggests is one of H1–H4 |
| Candidates.UnlevelledHeadingsAreFormatted | src/pdf_outline_extractor/extractor_new.py:1054-1087 | a heading with no suggested level is set at 14 points or bold, has at most eight words, at most three full stops and at most 100 characters |
| Candidates.H4OnlyForEach | src/pdf_outline_extractor/extractor_new.py:1018-1022 | level H4 is only suggested for a "for each …" line set at 11 points or more |
| Candidates.ToCandidate | src/pdf_outline_extractor/extractor_new.py:876-894 | a span yields a candidate exactly when the verdict on its stripped text is a heading; the candidate has a level among H1–H4, the span's original text and its page |
| Candidates.GroupCandidates | src/pdf_outline_extractor/extractor_new.py:876-894 | a group yields at most one candidate per span |
| Candidates.AssignHierarchyByPosition | src/pdf_outline_extractor/extractor_new.py:862-896 | the nested loop yields the candidates of each page-sorted group, group after group |
| Candidates.ToCandidateKeepsSpanFields | src/pdf_outline_extractor/extractor_new.py:883-894 | a candidate keeps its span's text and page and carries a level among H1–H4 |
| Candidates.CandidatesFromGroup | src/pdf_outline_extractor/extractor_new.py:869-894 | every candidate of a group carries one of the four levels and the text and page of a span of that group |
| Candidates.StitchPages | src/pdf_outline_extractor/extractor_new.py:729-777 | stitching introduces no page: every stitched line's page is a page of the input lines |
| Candidates.CandidatesPages | src/pdf_outline_extractor/extractor_new.py:862-896 | every candidate built from the margin groups of the potential headings carries the page of one of them |
| DocType.Analysed | src/pdf_outline_extractor/extractor_new.py:1663 | the analysed spans are the first hundred, or all of them when there are at most a hundred |
| DocType.CountOf | src/pdf_outline_extractor/extractor_new.py:1669-1706 | the number of lines in one branch of the keyword chain never exceeds the number of lines |
| DocType.CountIndicators | src/pdf_outline_extractor/extractor_new.py:1669-1706 | the scoring loop leaves the four counters equal to the tally of the analysed lines |
| DocType.DetectDocumentType | src/pdf_outline_extractor/extractor_new.py:1654-1724 | the method returns the type the counters and the invitation check decide |
| DocType.TallyCounts | src/pdf_outline_extractor/extractor_new.py:1675-1706 | the RFP counter is 3 per RFP line, the form counter 3 per strong and 1 per weak form line, the structured counter 2 per structured line, the manual counter 1 per manual line |
| DocType.OneClassPerLine | src/pdf_outline_extractor/extractor_new.py:1675-1706 | the `elif` chain puts every line in exactly one class, so it adds to at most one counter |
| DocType.RfpContextNoWeakForm | src/pdf_outline_extractor/extractor_new.py:1692-1694 | when the analysed text mentions "rfp" or "proposal", no line counts as a weak form line |
| DocType.ShortLineIgnored | src/pdf_outline_extractor/extractor_new.py:1670-1672 | a line shorter than three characters leaves every counter unchanged |
| DocType.AnalysisWindow | src/pdf_outline_extractor/extractor_new.py:1663-1669 | spans after the first hundred never change the counters |
| DocType.Precedence | src/pdf_outline_extractor/extractor_new.py:1708-1724 | "invitation" exactly when an invitation phrase occurs; "rfp" exactly when there is none and some line is an RFP line; "form" only without RFP lines and with more form than structured points; "manual" only without RFP lines and with a manual line |
| DocType.NoKeywordsIsDocument | src/pdf_outline_extractor/extractor_new.py:1721-1724 | with no invitation phrase and no keyword in any line the type is "document" |
| Finalize.Dedup | src/pdf_outline_extractor/extractor_new.py:1601-1618 | the `seen`-set loop never keeps more headings than it is given |
| Finalize.DedupMembers | src/pdf_outline_extractor/extractor_new.py:1611-1618 | every kept heading is one of the input, passes the length test, and its key was not seen before |
| Finalize.DedupDistinct | src/pdf_outline_extractor/extractor_new.py:1611-1613 | no two kept headings share a key |
| Finalize.DedupComplete | src/pdf_outline_extractor/extractor_new.py:1611-1618 | every heading that passes the length test is represented: its key was seen already or a kept heading has it |
| Finalize.DedupFirstWins | src/pdf_outline_extractor/extractor_new.py:1611-1618 | a kept heading is the first input heading with its key that passes the length test |
| Finalize.DedupLoop | src/pdf_outline_extractor/extractor_new.py:1598-1618 | the loop with its `seen` set yields exactly the deduplication of the cleaned headings |
| Finalize.FinalizeHeadings | src/pdf_outline_extractor/extractor_new.py:1593-1623 | the method returns the finalized outline: left-stripped, deduplicated by (lower-cased stripped text, page), stably sorted by page |
| Finalize.FinalizedPagesSorted | src/pdf_outline_extractor/extractor_new.py:1620-1621 | the finalized outline is in page order |
| Finalize.FinalizedEntries | src/pdf_outline_extractor/extractor_new.py:1606-1618 | finalized headings have distinct keys, stripped texts of at least three characters, no leading whitespace, and each is the left-stripped form of an input heading |
| Finalize.FinalizedComplete | src/pdf_outline_extractor/extractor_new.py:1610-1618 | every input heading whose stripped text has three or more characters has its key in the finalized outline |
| Finalize.FinalizedFirstWins | src/pdf_outline_extractor/extractor_new.py:1610-1618 | of headings with the same key, the first that is long enough is the one kept |
| Finalize.FinalizedKeepsPageOrder | src/pdf_outline_extractor/extractor_new.py:1620-1621 | when the kept headings are already in page order the final sort changes nothing |
| Finalize.FinalizedPagesFrom | src/pdf_outline_extractor/extractor_new.py:1606-1621 | finalizing introduces no page: every kept heading's page is one the input headings had |
| FormFields.CapitalisedCount | src/pdf_outline_extractor/extractor_new.py:555-558 | the count of capitalised words never exceeds the number of words |
| FormFields.FormFieldIgnoresCase | src/pdf_outline_extractor/extractor_new.py:479-481 | the form-label test gives the same answer on the lower-cased text |
| FormFields.FormFieldOfStripped | src/pdf_outline_extractor/extractor_new.py:479-481 | the form-label test gives the same answer on the stripped text |
| FormFields.IndicatorIsFormField | src/pdf_outline_extractor/extractor_new.py:490-502 | a text that is exactly one of the form indicators (after strip and lower) is a form label |
| FormFields.NumbersAreFormFields | src/pdf_outline_extractor/extractor_new.py:483-488 | a short number label (after strip and lower) is a form label |
| FormFields.TitleIsNotFormField | src/pdf_outline_extractor/extractor_new.py:531-561 | a title-like line is not a form label, has 5–150 characters once stripped and at most two full stops |
| Grouping.Chunks | src/pdf_outline_extractor/extractor_new.py:841-858 | the run-splitting loop yields only non-empty groups |
| Grouping.ChunksClustering | src/pdf_outline_extractor/extractor_new.py:841-858 | the groups concatenate back to the input, each group's members join its first member, and each next group's first member does not |
| Grouping.ChunksFromAllJoin | src/pdf_outline_extractor/extractor_new.py:841-858 | when every later item joins the first, the loop yields one group holding everything |
| HeadingText.AppendixRewriteFirst | src/pdf_outline_extractor/extractor_new.py:1163-1164 | the appendix rewrite keeps a non-empty text non-empty with the same first character |
| HeadingText.AppendixRewriteKeepsPrefix | src/pdf_outline_extractor/extractor_new.py:1163-1164 | characters before the first "A" pass through the appendix rewrite unchanged |
| HeadingText.AppendixRewriteIsNormal | src/pdf_outline_extractor/extractor_new.py:1163-1164 | after the appendix rewrite every "Appendix A:"/"B:"/"C:" label is followed by exactly one space and then a non-blank or the end |
| HeadingText.AppendixRewriteNormal | src/pdf_outline_extractor/extractor_new.py:1163-1164 | a text whose labels are already followed by one space and a non-blank is left unchanged by the appendix rewrite |
| HeadingText.AppendixRewriteIdempotent | src/pdf_outline_extractor/extractor_new.py:1163-1164 | applying the appendix rewrite twice gives the same text as applying it once, for every text |
| HeadingText.NumberedRewriteShape | src/pdf_outline_extractor/extractor_new.py:1154-1157 | after the numbered rewrite a section number is followed by exactly ". " and then a non-blank character |
| HeadingText.DecimalSkipsNumbered | src/pdf_outline_extractor/extractor_new.py:1159-1161 | the subsection rewrite leaves a text in "N. " form alone |
| HeadingText.DecimalRewriteOf | src/pdf_outline_extractor/extractor_new.py:1159-1161 | on a text starting with "N.M" and whitespace, the subsection rewrite keeps "N.M", puts exactly one space and keeps the rest |
| HeadingText.RewritesNumbered | src/pdf_outline_extractor/extractor_new.py:1154-1164 | after all three rewrites a numbered heading still starts with its digits, ". " and a non-blank character |
| HeadingText.RewritesNumberedCore | src/pdf_outline_extractor/extractor_new.py:1154-1164 | for every text starting with "N." and whitespace, the three rewrites give the digits, ". " and the appendix rewrite of the title |
| HeadingText.RewritesDecimalCore | src/pdf_outline_extractor/extractor_new.py:1154-1164 | for every text starting with "N.M" and whitespace (and not "N." and whitespace), the three rewrites give "N.M", one space and the appendix rewrite of the title |
| HeadingText.RewritesUnnumbered | src/pdf_outline_extractor/extractor_new.py:1154-1164 | for every text that does not start with a digit and whose appendix labels are already single-spaced, the three rewrites change nothing |
| HeadingText.LeadingBlankSkipsNumbering | src/pdf_outline_extractor/extractor_new.py:1154-1161 | a text starting with whitespace matches neither number pattern, so only the appendix rewrite applies to it |
| HeadingText.RewritesStable | src/pdf_outline_extractor/extractor_new.py:1154-1164 | a stripped text stays stripped through the rewrites, and rewriting the result again changes nothing |
| HeadingText.NumberedSpacing | src/pdf_outline_extractor/extractor_new.py:1152-1170 | as written, a numbered heading with no leading blank comes out with its number, exactly one space after the full stop, then its title |
| HeadingText.NormalizedShape | src/pdf_outline_extractor/extractor_new.py:1166-1170 | as written and with the strip done first, the normalized text ends in exactly one space with no blank before it |
| HeadingText.PlainNormalized | src/pdf_outline_extractor/extractor_new.py:1152-1170 | for every text with no surrounding whitespace, no leading digit and single-spaced appendix labels, both orders give the text plus one trailing space |
| HeadingText.AsWrittenNumbered | src/pdf_outline_extractor/extractor_new.py:1152-1170 | as written, every "N." heading without a trailing blank becomes its digits, ". ", the appendix rewrite of its title and one space |
| HeadingText.AsWrittenAgain | src/pdf_outline_extractor/extractor_new.py:1152-1170 | as written, normalizing the appendix-rewritten numbered heading plus a space gives the same as normalizing the heading |
| HeadingText.AsWrittenLeadingSpace | src/pdf_outline_extractor/extractor_new.py:1152-1170 | as written, for every "N." heading with two or more blanks after the full stop, a leading blank keeps those blanks, and normalizing that result again changes it |
| HeadingText.CorrectedLeadingSpace | src/pdf_outline_extractor/extractor_new.py:1152-1170 | with the strip done first, every "N." heading normalizes the same with or without a leading blank, to its digits, ". " and its rewritten title plus one space |
| HeadingText.NormalizeIgnoresSurroundingSpace | src/pdf_outline_extractor/extractor_new.py:1166-1170 | with the strip done first, the normalized text does not depend on whitespace around the input |
| HeadingText.NormalizeIdempotent | src/pdf_outline_extractor/extractor_new.py:1152-1170 | with the strip done first, normalizing twice gives the same text as normalizing once, for every text |
| Heuristics.NumberEnd | src/pdf_outline_extractor/extractor_new.py:60-79 | the end of a numbering marker, when there is one, lies inside the text |
| Heuristics.MarkerNeedsSpace | src/pdf_outline_extractor/extractor_new.py:1965-1973 | every numbering or bullet pattern needs whitespace after its marker, so a text with a marker has whitespace after its first character |
| Heuristics.MarkerNeedsSpaceContra | src/pdf_outline_extractor/extractor_new.py:1965-1973 | a text with no inner whitespace has no numbering or bullet marker |
| Heuristics.ShortTextLooksLikeHeading | src/pdf_outline_extractor/extractor_new.py:2043-2045 | at a size ratio of 1 or more, a stripped text of 2–50 characters not ending in "." or "," looks like a heading |
| Heuristics.H1ExactlyFromRatio | src/pdf_outline_extractor/extractor_new.py:1984-2018 | the level is H1 exactly when the size ratio is at least 1.5 |
| Heuristics.DetermineLevelRange | src/pdf_outline_extractor/extractor_new.py:1984-2018 | below ratio 1.0 there is no level, from 1.1 on there always is one, and any level is one of H1–H4 |
| Heuristics.IndentMonotone | src/pdf_outline_extractor/extractor_new.py:1984-2018 | moving a span to the right never makes its level higher, and never decides whether it has one |
| Heuristics.CleanHeadingText | src/pdf_outline_extractor/extractor_new.py:2049-2059 | the cleaned text is the stripped text, and stripping it again changes nothing |
| Heuristics.FilterAndSortHeadings | src/pdf_outline_extractor/extractor_new.py:2061-2079 | the method returns the deduplicated headings, stably sorted by page |
| Heuristics.CleanKeepsKey | src/pdf_outline_extractor/extractor_new.py:2071-2072 | left-stripping a heading keeps its key, its length test and its page |
| Heuristics.FilterAndSortIsFinalized | src/pdf_outline_extractor/extractor_new.py:2061-2079 | left-stripping the result of the filter-and-sort gives exactly `_finalize_headings`' result |
| Heuristics.MinX | src/pdf_outline_extractor/extractor_new.py:1289 | the group minimum is at most every member's `x` and is some member's `x` |
| Heuristics.GroupByLeftPosition | src/pdf_outline_extractor/extractor_new.py:1258-1291 | the method returns the position groups: runs within 10 points of their first span, ordered by leftmost `x` |
| Heuristics.PositionGroupsInOrder | src/pdf_outline_extractor/extractor_new.py:1263-1291 | the closing sort by leftmost `x` changes nothing: the groups are the runs of the `x`-sorted spans, each a correct clustering, each headed by its leftmost span |
| Heuristics.SortedChunksInOrder | src/pdf_outline_extractor/extractor_new.py:1288-1289 | runs of an `x`-sorted list are already in order of their leftmost `x` |
| Heuristics.ChunksFromMonotone | src/pdf_outline_extractor/extractor_new.py:1271-1286 | runs of an `x`-sorted list start at increasing `x`, each run's first span being its leftmost |
| Hierarchy.KeepFrom | src/pdf_outline_extractor/extractor_new.py:1104-1148 | the state machine never emits more headings than it is given |
| Hierarchy.Last | src/pdf_outline_extractor/extractor_new.py:1100-1102 | the position found holds the level and no later position does (-1 when none) |
| Hierarchy.AdmitNested | src/pdf_outline_extractor/extractor_new.py:1107-1139 | with flags that describe the levels emitted so far, a heading is emitted exactly when it nests under them (H2 after some H1, H3 after an H2 since the last H1, H4 after an H3 since the last H1 or H2), and the new flags describe the longer history |
| Hierarchy.WellNestedSnoc | src/pdf_outline_extractor/extractor_new.py:1107-1139 | appending a nesting level to a well-nested history keeps it well nested |
| Hierarchy.KeepFromNested | src/pdf_outline_extractor/extractor_new.py:1104-1148 | continuing from consistent flags keeps the emitted levels well nested |
| Hierarchy.KeepWellNested | src/pdf_outline_extractor/extractor_new.py:1104-1148 | the levels the state machine emits are well nested: every H2 has an H1 parent, every H3 an H2, every H4 an H3 |
| Hierarchy.KeepFromIdentity | src/pdf_outline_extractor/extractor_new.py:1104-1148 | a list whose levels are already well nested passes unchanged |
| Hierarchy.KeepIdentityIff | src/pdf_outline_extractor/extractor_new.py:1104-1148 | the state machine leaves a list unchanged exactly when its levels are well nested |
| Hierarchy.KeepIdempotent | src/pdf_outline_extractor/extractor_new.py:1104-1148 | running the state machine twice gives what running it once gives |
| Hierarchy.WellNestedStartsWithH1 | src/pdf_outline_extractor/extractor_new.py:1115-1139 | a non-empty well-nested outline starts with an H1 |
| Hierarchy.KeepFromKeepsH1 | src/pdf_outline_extractor/extractor_new.py:1108-1113 | every H1 is emitted: the H1s of the output are the H1s of the input, in order |
| Hierarchy.KeepFromSubsequence | src/pdf_outline_extractor/extractor_new.py:1104-1148 | the output is the input with some elements deleted, in the same order |
| Hierarchy.Entries | src/pdf_outline_extractor/extractor_new.py:1141-1146 | each emitted heading carries the candidate's level, its normalized text and its page |
| Hierarchy.EnforceWellNested | src/pdf_outline_extractor/extractor_new.py:1091-1150 | the outline is well nested and, when not empty, starts with an H1 |
| Hierarchy.EnforcePagesSorted | src/pdf_outline_extractor/extractor_new.py:1096-1097 | the outline is in page order |
| Hierarchy.EnforceKeepsH1 | src/pdf_outline_extractor/extractor_new.py:1108-1113 | every H1 candidate appears in the outline |
| Hierarchy.EnforceTexts | src/pdf_outline_extractor/extractor_new.py:1144 | every text in the outline is non-empty and ends in a space |
| Hierarchy.EnforceStrictHierarchy | src/pdf_outline_extractor/extractor_new.py:1091-1150 | the method (sort, then the flag loop with its `continue`s) returns the modelled outline |
| Hierarchy.EnforcePages | src/pdf_outline_extractor/extractor_new.py:1141-1146 | every emitted heading carries the page of some candidate |
| I18n.CharScriptExact | src/pdf_outline_extractor/i18n_utils.py:209-222 | the script lookup answers a script exactly when the code point lies in that script's ranges (the ranges do not overlap), and nothing when it lies in none |
| I18n.ScriptLanguageDirection | src/pdf_outline_extractor/i18n_utils.py:247-256 | the language a script maps to is right-to-left exactly for the Arabic and Hebrew scripts |
| I18n.DetectTextDirection | src/pdf_outline_extractor/i18n_utils.py:258-289 | the method's counting loop answers the direction given by the counts of letters and of Arabic/Hebrew letters |
| I18n.DirectionByCounts | src/pdf_outline_extractor/i18n_utils.py:278-289 | rtl when more than 70% of the letters are right-to-left, mixed when more than 30% and at most 70%, ltr otherwise and when there is no letter |
| I18n.TextDirectionByCounts | src/pdf_outline_extractor/i18n_utils.py:258-289 | the right-to-left count never exceeds the letter count, and the answer is rtl or ltr exactly by the thresholds on those counts |
| I18n.SeenIffCounted | src/pdf_outline_extractor/i18n_utils.py:180-187 | a script is a key of the counts exactly when some letter of the text is written in it |
| I18n.CountScripts | src/pdf_outline_extractor/i18n_utils.py:179-190 | the counting loop yields the letter total, the scripts in order of first appearance and, for each, the number of its letters |
| I18n.DetectLanguageByScript | src/pdf_outline_extractor/i18n_utils.py:171-207 | the method answers the language of the dominant script, or none |
| I18n.DetectByScriptDominant | src/pdf_outline_extractor/i18n_utils.py:171-207 | no language without letters; an answered language belongs to a non-Latin script that occurs and has at least as many letters as any other script |
| I18n.WordRuns | src/pdf_outline_extractor/i18n_utils.py:234 | the words found are non-empty |
| I18n.RowScoreSign | src/pdf_outline_extractor/i18n_utils.py:236-240 | a language's score is never negative and is zero when none of its markers occurs |
| I18n.DetectLanguageByMarkers | src/pdf_outline_extractor/i18n_utils.py:224-245 | the method's scoring loops answer the best-scoring language, or the default |
| I18n.MarkersChoice | src/pdf_outline_extractor/i18n_utils.py:236-245 | with no marker hit the default language is answered; otherwise a language with a hit whose score is the largest of all languages |
| I18n.NormalizeSpacesShape | src/pdf_outline_extractor/i18n_utils.py:80-99 | an empty text comes back unchanged; no two spaces are neighbours in the result; every other character, tabs and newlines included, occurs as often as in the NFC form |
| I18n.RemovePatterns | src/pdf_outline_extractor/i18n_utils.py:349-360 | each marker substitution only removes a prefix: the result is a suffix of the text |
| I18n.CleanHeadingText | src/pdf_outline_extractor/i18n_utils.py:336-365 | the method's substitution loop gives the modelled cleaned heading |
| I18n.CleanHeadingShape | src/pdf_outline_extractor/i18n_utils.py:362-365 | the cleaned heading has no leading or trailing whitespace, no two neighbouring whitespace characters, and its only whitespace is plain spaces |
| I18n.LeadingLetterDropped | src/pdf_outline_extractor/i18n_utils.py:353 | a word that starts with an ASCII letter loses that letter: the single-letter pattern needs no dot or space after it |
| I18n.RemovePatternsAppend | src/pdf_outline_extractor/i18n_utils.py:359-360 | applying the patterns in two batches is applying them in one |
| I18n.RemovePatternsFixed | src/pdf_outline_extractor/i18n_utils.py:359-360 | a text that no pattern changes comes through unchanged |
| I18n.ProcessMultilingualShape | src/pdf_outline_extractor/i18n_utils.py:291-334 | an empty text gets the fixed default record; any other its normalized form with its length and direction, a script with the most letters (Latin when none has a script) and an RTL flag that agrees with the language |
| Normalize.SqueezeRepeats | src/pdf_outline_extractor/extractor_new.py:95 | the substitution never lengthens the text and keeps its first character |
| Normalize.SqueezeNoTriple | src/pdf_outline_extractor/extractor_new.py:95 | after the substitution no three neighbouring characters are equal, newlines apart |
| Normalize.SqueezeFixed | src/pdf_outline_extractor/extractor_new.py:95-99 | a text without such triples is left unchanged, so the four-repeat substitution after it changes nothing |
| Normalize.NormalizeTextShape | src/pdf_outline_extractor/extractor_new.py:81-119 | the normalized text has no run of three equal characters (newlines apart) and no two neighbouring spaces |
| Normalize.NormalizeTextIdempotent | src/pdf_outline_extractor/extractor_new.py:81-119 | normalizing twice gives what normalizing once gives |
| Normalize.NormalizeTextKeepsNewlines | src/pdf_outline_extractor/extractor_new.py:110-119 | the normalized text has exactly as many newlines as the input |
| I18nNew.SetIndex | src/pdf_outline_extractor/i18n_utils_new.py:48-56 | every character set has its place in the key order of the counts |
| I18nNew.CountCharSets | src/pdf_outline_extractor/i18n_utils_new.py:58-79 | the counting loop counts every character in the total and, for each set, the characters whose code point the first matching range puts in it |
| I18nNew.DetectLanguageOf | src/pdf_outline_extractor/i18n_utils_new.py:33-106 | the method answers the modelled guess |
| I18nNew.RatioAboveThreshold | src/pdf_outline_extractor/i18n_utils_new.py:95 | a share above 30% is exactly ten times the count above three times the total |
| I18nNew.DetectLanguageRange | src/pdf_outline_extractor/i18n_utils_new.py:44-45 | the guess is one of ar, he, ru, zh, el and en, and en for a text whose stripped length is below 3 |
| I18nNew.DetectLanguageDominant | src/pdf_outline_extractor/i18n_utils_new.py:85-106 | a language other than English is answered only for a non-Latin set holding more than 30% of all characters and at least as many as any set; a non-Latin set with more than 30% and strictly more than every other set decides the guess |
| I18nNew.DominantSet | src/pdf_outline_extractor/i18n_utils_new.py:92 | the set the maximum picks has at least as many characters as every other set |
| I18nNew.RtlIgnoresCase | src/pdf_outline_extractor/i18n_utils_new.py:109-120 | the RTL test ignores ASCII case and holds for each of ar, he, fa, ur, yi, ji |
| I18nNew.EnglishNotRtl | src/pdf_outline_extractor/i18n_utils_new.py:119-120 | English is not right-to-left |
| I18nNew.CleanTextShape | src/pdf_outline_extractor/i18n_utils_new.py:123-145 | an empty text gives ""; the cleaned text has no zero-width character, no two neighbouring spaces, and each of its characters is a space or occurs in the NFC form of the input |
| I18nNew.WordsBound | src/pdf_outline_extractor/i18n_utils_new.py:174-175 | a text of n characters splits into at most (n + 1) / 2 words |
| I18nNew.WordsNone | src/pdf_outline_extractor/i18n_utils_new.py:174-175 | a text has no words exactly when it is all whitespace |
| I18nNew.TextFeaturesShape | src/pdf_outline_extractor/i18n_utils_new.py:148-197 | the empty text gets the zeroed record; otherwise the length is the text's, the stripped count and the word count are bounded by it, no words means all whitespace, capitals need more than three stripped characters, and the RTL flag agrees with a guessed language among the six |
| I18nNew.ProcessSpecialCharacters | src/pdf_outline_extractor/i18n_utils_new.py:200-247 | the method's appending loop gives the modelled result |
| I18nNew.SpecialCharactersKept | src/pdf_outline_extractor/i18n_utils_new.py:215-247 | a character is in the result exactly when it is in the NFC form and is not a control character other than tab, newline or carriage return |
| I18nNew.ValidateHeadingTextIff | src/pdf_outline_extractor/i18n_utils_new.py:250-280 | a heading text is valid exactly when it is not empty, its stripped length is within the bounds, and characters of the listed letter and digit ranges occur and make up at least 30% of the stripped text |
| I18nNew.NormalizeHeadingShape | src/pdf_outline_extractor/i18n_utils_new.py:283-304 | the normalized heading is "" for an empty text; otherwise it has no whitespace at either end, no zero-width character and no two neighbouring spaces |
| Layout.IndentLevel | src/pdf_outline_extractor/layout_utils.py:108-125 | the indentation level is at most 3 |
| Layout.IndentLevelIsBand | src/pdf_outline_extractor/layout_utils.py:108-125 | the indentation level is the 50-point band the position falls in, clamped to 0..3 |
| Layout.LevelForRange | src/pdf_outline_extractor/layout_utils.py:150-171 | the decision table answers only H1–H3, never below the H3 ratio, always from the H2 ratio, and H1 only from the H1 ratio |
| Layout.ClassifyRange | src/pdf_outline_extractor/layout_utils.py:127-171 | the classifier answers only H1–H3 and only for a stripped text of 2 characters or more; for such a text it always answers from the H2 ratio, possibly from the H3 ratio, never below, and H1 only from the H1 ratio |
| Layout.LevelForRatioMonotone | src/pdf_outline_extractor/layout_utils.py:150-171 | in the decision table a larger ratio keeps a heading a heading, at the same or a higher level |
| Layout.ClassifyRatioMonotone | src/pdf_outline_extractor/layout_utils.py:127-171 | a larger size ratio never lowers a span's level nor loses it its heading status |
| Layout.LevelForIndentMonotone | src/pdf_outline_extractor/layout_utils.py:150-171 | in the decision table deeper indentation never raises the level |
| Layout.ClassifyIndentMonotone | src/pdf_outline_extractor/layout_utils.py:127-171 | deeper indentation never raises the level of a span that stays a heading |
| Layout.FirstPlausible | src/pdf_outline_extractor/layout_utils.py:211-218 | the fallback loop answers the stripped text of the first of the largest spans with a plausible length, or none |
| Layout.DetectTitleOnPage | src/pdf_outline_extractor/layout_utils.py:173-222 | the method (candidate loop, sort, fallback) answers the modelled title |
| Layout.BestChoice | src/pdf_outline_extractor/layout_utils.py:221-222 | the head of the candidate sort is a candidate with the largest ratio and the smallest y among equal ratios |
| Layout.TitleIsBestCandidate | src/pdf_outline_extractor/layout_utils.py:184-222 | no title off the first page or without spans; with a candidate the title is the stripped text of a candidate with the largest size ratio, the highest one among equals |
| Layout.LargestFound | src/pdf_outline_extractor/layout_utils.py:213-218 | a span found among the largest is a span of the page with the property, and no span with a larger ratio has it |
| Layout.FallbackChoice | src/pdf_outline_extractor/layout_utils.py:211-218 | without candidates, a title is the stripped text of a plausible span that no plausible span out-ranks by ratio, and there is one whenever every span is plausible |
| Layout.AllCapsLowers | src/pdf_outline_extractor/layout_utils.py:224-238 | an all-caps text is longer than 3 and changed by lower-casing, and a lower-cased text is never all caps |
| Layout.Uniq | src/pdf_outline_extractor/layout_utils.py:260-267 | dropping repeated positions never lengthens the list and keeps its last position |
| Layout.AnalyzeTextFlow | src/pdf_outline_extractor/layout_utils.py:240-280 | the method's sort and column loop give the modelled reading order and column count |
| Layout.UniqMembers | src/pdf_outline_extractor/layout_utils.py:260-267 | the distinct positions are exactly the positions of the list |
| Layout.UniqIncreasing | src/pdf_outline_extractor/layout_utils.py:260-267 | from a sorted list the distinct positions are strictly increasing |
| Layout.GapsUniq | src/pdf_outline_extractor/layout_utils.py:260-267 | counting large gaps over the distinct positions counts the same gaps as over the sorted list |
| Layout.GapsBound | src/pdf_outline_extractor/layout_utils.py:260-267 | there are fewer gaps than positions |
| Layout.ColumnsCountGaps | src/pdf_outline_extractor/layout_utils.py:249-275 | the distinct x positions are exactly the spans' x positions, strictly increasing; the column count is one more than the gaps above 100 between them, at least 1 and at most the number of distinct positions |
| Layout.ReadingOrderPermutes | src/pdf_outline_extractor/layout_utils.py:253-275 | the reading order lists every span's text exactly once |
| LayoutNew.MatchRest | src/pdf_outline_extractor/layout_utils_new.py:20-28 | a numbering or bullet pattern that matches consumes a non-empty prefix: what is left is a shorter suffix of the text |
| LayoutNew.CheckNumberingOrBullets | src/pdf_outline_extractor/layout_utils_new.py:33-51 | the method's loop over the patterns answers whether any of them matches at the start |
| LayoutNew.NumberingIff | src/pdf_outline_extractor/layout_utils_new.py:20-51 | a text counts as numbered or bulleted exactly when its first non-space character is an ASCII letter, a digit or a dash or bullet, or it starts with a parenthesised number or letter |
| LayoutNew.MarkedMatches | src/pdf_outline_extractor/layout_utils_new.py:33-51 | a text whose first non-space character can start a marker counts as numbered or bulleted |
| LayoutNew.NoneMatches | src/pdf_outline_extractor/layout_utils_new.py:43-51 | a text with no marker character at its start matches none of the patterns |
| LayoutNew.FindCommonIndents | src/pdf_outline_extractor/layout_utils_new.py:117-153 | the method (grouping loop, median loop, sort) answers the modelled common indents |
| LayoutNew.GroupMargins | src/pdf_outline_extractor/layout_utils_new.py:135-145 | the outer grouping loop places the sorted margins one after the other |
| LayoutNew.PlaceMargin | src/pdf_outline_extractor/layout_utils_new.py:137-145 | the inner loop adds the margin to the first group whose first margin is within the tolerance, or opens a new group |
| LayoutNew.PlaceFound | src/pdf_outline_extractor/layout_utils_new.py:138-142 | when group j is the first that fits, the margin is appended to group j and nothing else changes |
| LayoutNew.PlaceNotFound | src/pdf_outline_extractor/layout_utils_new.py:144-145 | when no group fits, a new group holding only the margin is appended |
| LayoutNew.GroupAllOk | src/pdf_outline_extractor/layout_utils_new.py:135-145 | every group is non-empty and each of its margins is within the tolerance of the group's first margin |
| LayoutNew.GroupAllKeepsMargins | src/pdf_outline_extractor/layout_utils_new.py:135-145 | the groups together hold exactly the margins grouped, each once |
| LayoutNew.MedianWithin | src/pdf_outline_extractor/layout_utils_new.py:151 | the median of margins that are all within the tolerance of a point is within the tolerance of it too |
| LayoutNew.CommonIndentsProperties | src/pdf_outline_extractor/layout_utils_new.py:128-153 | the groups are well formed and hold the distinct margins; the indents are sorted, one per group of two or more margins, each within the tolerance of its group's first margin |
| LayoutNew.DistinctProperties | src/pdf_outline_extractor/layout_utils_new.py:133 | the distinct margins are exactly the margins given, strictly increasing |
| LayoutNew.SameMarginNoIndent | src/pdf_outline_extractor/layout_utils_new.py:133-153 | when every margin is the same there is no common indent: the set leaves a single one-margin group |
| LayoutNew.SeqMin | src/pdf_outline_extractor/layout_utils_new.py:189 | the minimum is one of the indents and no indent is smaller |
| LayoutNew.LikelyLevelRange | src/pdf_outline_extractor/layout_utils_new.py:184-203 | only H1–H3 are answered; H1 exactly from a ratio of 1.5; always a level from 1.1; below 1.1 only for a patterned text from 1.05 |
| LayoutNew.LikelyHeadingCases | src/pdf_outline_extractor/layout_utils_new.py:168-203 | no heading for an empty text, a non-positive font size or a non-positive page average; otherwise H1 exactly when the size is at least 1.5 times the average, and a level whenever it is at least 1.1 times |
| LayoutNew.RemoveNumberings | src/pdf_outline_extractor/layout_utils_new.py:276-277 | the substitutions only remove a prefix: the result is a suffix of the text |
| LayoutNew.CleanHeading | src/pdf_outline_extractor/layout_utils_new.py:256-280 | the method's substitution loop gives the modelled cleaned heading |
| LayoutNew.CleanHeadingShape | src/pdf_outline_extractor/layout_utils_new.py:267-280 | the cleaned heading is stripped and never longer than the structure-preserving one; that one has no tab and no two neighbouring spaces |
| LayoutNew.CleanDropsLeadingLetter | src/pdf_outline_extractor/layout_utils_new.py:274-278 | removing the numbering drops the first letter of an ordinary word, since the letter pattern needs neither dot nor space after the letter |
| LayoutNew.NumberingsAppend | src/pdf_outline_extractor/layout_utils_new.py:276-277 | applying the patterns in two batches is applying them in one |
| LayoutNew.NumberingsFixed | src/pdf_outline_extractor/layout_utils_new.py:276-277 | a text that no pattern changes comes through unchanged |
| LayoutNew.Checked | src/pdf_outline_extractor/layout_utils_new.py:307-327 | a heading keeps its text and page and is never promoted; the first is kept as it is; a later one ends at most one level below the previous level and is unchanged when it already does |
| LayoutNew.ValidateSequence | src/pdf_outline_extractor/layout_utils_new.py:282-329 | the method's loop gives the modelled validated sequence |
| LayoutNew.ValidateKeeps | src/pdf_outline_extractor/layout_utils_new.py:298-327 | apart from levels the output is exactly the headings kept, in order |
| LayoutNew.ValidateProgressive | src/pdf_outline_extractor/layout_utils_new.py:307-327 | each output level is at most one deeper than the one before it |
| LayoutNew.ValidateDemotes | src/pdf_outline_extractor/layout_utils_new.py:303-327 | one output heading per kept heading, the first unchanged, none promoted |
| LayoutNew.ValidateFixed | src/pdf_outline_extractor/layout_utils_new.py:298-327 | a sequence already kept and progressive comes through unchanged |
| LayoutNew.ValidateTwice | src/pdf_outline_extractor/layout_utils_new.py:282-329 | validating a validated sequence changes nothing |
| LayoutNew.ValidateHeadingSequenceProperties | src/pdf_outline_extractor/layout_utils_new.py:282-329 | the output is the headings with a stripped text of 3 or more characters, in order, texts and pages unchanged; the first keeps its level, none is promoted, each level is at most one deeper than the previous, and validating again changes nothing |
| Legacy.IsDistinctHeading | src/pdf_outline_extractor/extractor.py:337-354 | a text is distinct exactly when no seen text is similar to it: neither contains the other while being longer than 80% of it |
| Legacy.SeenNotDistinct | src/pdf_outline_extractor/extractor.py:348-352 | a non-empty text that was already seen is never distinct from the seen texts |
| Legacy.FilterFrom | src/pdf_outline_extractor/extractor.py:305-335 | the filter never emits more entries than it is given |
| Legacy.FilterFromStep | src/pdf_outline_extractor/extractor.py:308-333 | one loop step: an admitted heading is emitted as level, text and page and its text joins the seen set; any other is skipped |
| Legacy.FilterHeadings | src/pdf_outline_extractor/extractor.py:289-335 | the method (sort, then the filtering loop) gives the modelled filtered headings |
| Legacy.FilterSorted | src/pdf_outline_extractor/extractor.py:305-335 | the filtering loop over the sorted headings gives the modelled result |
| Legacy.FilterFromDrawn | src/pdf_outline_extractor/extractor.py:313-333 | every kept entry is the level, text and page of a heading of confidence 0.3 or more |
| Legacy.FilterFromFresh | src/pdf_outline_extractor/extractor.py:317-322 | every kept entry's lower-cased stripped text was not seen before and is not similar to a seen text |
| Legacy.FilterFromApart | src/pdf_outline_extractor/extractor.py:316-324 | any two kept entries have different lower-cased stripped texts and the later one is not similar to the earlier |
| Legacy.CoveredGrow | src/pdf_outline_extractor/extractor.py:317-324 | a text seen or similar to a seen text stays so as the seen set grows |
| Legacy.FilterFromComplete | src/pdf_outline_extractor/extractor.py:308-333 | no confident heading is lost without reason: its text is, at the end, a kept or seen text or similar to one |
| Legacy.FilterFromPages | src/pdf_outline_extractor/extractor.py:302-333 | from headings sorted by (page, order) the kept entries are in page order |
| Legacy.DrawnSorted | src/pdf_outline_extractor/extractor.py:302 | an entry drawn from the sorted headings is drawn from the headings |
| Legacy.SortedHas | src/pdf_outline_extractor/extractor.py:302 | every heading has its place in the sorted list |
| Legacy.FilteredHeadingsProperties | src/pdf_outline_extractor/extractor.py:289-335 | no headings give no entries; each entry is a confident heading's level, text and page; kept texts differ and are not similar; every confident heading's text is covered by the kept ones; the entries are in page order |
| Legacy.HeadingConfidence | src/pdf_outline_extractor/extractor.py:287 | the confidence never exceeds 1.0 nor the score; it is the score up to 1.0 and 1.0 from there |
| Legacy.ExtractHeadings | src/pdf_outline_extractor/extractor.py:188-236 | the method's span loop and the filter give the modelled headings |
| Legacy.CandidateQualifies | src/pdf_outline_extractor/extractor.py:199-231 | a raw heading confident enough to be kept qualifies its span: length within bounds, the analyzer's level, the non-empty clean text, the span's page |
| Legacy.ExtractedHeadingsProperties | src/pdf_outline_extractor/extractor.py:188-236 | every heading comes from a qualifying span, has level H1–H3, no two headings share a lower-cased stripped text, and they are in page order |
| LineGrouping.CombineSpansOnLine | src/pdf_outline_extractor/extractor_new.py:610-648 | the method's joining loop gives the modelled merged span |
| LineGrouping.CombineAll | src/pdf_outline_extractor/extractor_new.py:593-606 | every line group is merged into exactly one span |
| LineGrouping.ChunksFromJoin | src/pdf_outline_extractor/extractor_new.py:582-590 | a span on the current line (same page, y within 2 points of the line's first span) joins the current group |
| LineGrouping.ChunksFromBreak | src/pdf_outline_extractor/extractor_new.py:591-601 | any other span closes the current group and opens a new one |
| LineGrouping.GroupSpansByLine | src/pdf_outline_extractor/extractor_new.py:563-608 | the method (sort by page, y, x, then the grouping loop) gives the modelled merged lines |
| LineGrouping.TextsOf | src/pdf_outline_extractor/extractor_new.py:629 | the texts are the spans' texts, one each |
| LineGrouping.JoinLineTouching | src/pdf_outline_extractor/extractor_new.py:628-641 | spans whose gaps are all at most 1 point are joined without spaces |
| LineGrouping.JoinLineWide | src/pdf_outline_extractor/extractor_new.py:628-641 | spans whose gaps are all above 8 points are joined with one space between neighbours |
| LineGrouping.CombineTouching | src/pdf_outline_extractor/extractor_new.py:618-648 | a touching line of several spans reads as the stripped concatenation of its texts in x order |
| LineGrouping.CombineWideApart | src/pdf_outline_extractor/extractor_new.py:618-648 | a widely spaced line of several spans reads as its texts in x order joined by single spaces, stripped |
| LineGrouping.CombineLeftmost | src/pdf_outline_extractor/extractor_new.py:622-646 | the merged span takes position, page, size and flags from the leftmost span (the first of the leftmost) and ends at the right edge of the last span in x order |
| LineGrouping.CombinePage | src/pdf_outline_extractor/extractor_new.py:582-606 | all spans of a line share the first span's page, which the merged span keeps |
| LineGrouping.GroupLinesClusters | src/pdf_outline_extractor/extractor_new.py:563-608 | the sorted spans are cut into consecutive non-empty groups whose spans each lie on their group's first line, neighbouring groups are on different lines, there is one merged span per group, never more than the spans, and none exactly when there are no spans |
| PageAdjust.LowerTexts | src/pdf_outline_extractor/extractor_new.py:198 | one lower-cased text per span |
| PageAdjust.PageOffset | src/pdf_outline_extractor/extractor_new.py:200-215 | the offset is 0, 1 or 2, and 0 only for a text that mentions "stem" and "parsippany" |
| PageAdjust.FirstPage | src/pdf_outline_extractor/extractor_new.py:228-240 | no page exactly when no span matches; otherwise the page of the first matching span |
| PageAdjust.MaxPage | src/pdf_outline_extractor/extractor_new.py:194 | the largest page of the spans: one of them, and no span's page is above it |
| PageAdjust.Offset | src/pdf_outline_extractor/extractor_new.py:253-259 | every span is kept, in order, with only its page renumbered |
| PageAdjust.FindFirstPage | src/pdf_outline_extractor/extractor_new.py:228-240 | the search loop that leaves at the first match answers the modelled first page |
| PageAdjust.ShiftedSnoc | src/pdf_outline_extractor/extractor_new.py:244-252 | one loop step keeps the shifted span exactly when its new page is not negative |
| PageAdjust.Renumber | src/pdf_outline_extractor/extractor_new.py:243-261 | with a first content page every span is shifted so that page becomes the offset and spans landing before page 0 are dropped; without one every span gets the fallback page |
| PageAdjust.AdjustPageNumbers | src/pdf_outline_extractor/extractor_new.py:185-261 | the method gives the modelled renumbered spans |
| PageAdjust.ShiftedMembers | src/pdf_outline_extractor/extractor_new.py:244-252 | a span is in the shifted list exactly when it is some input span moved, with a page that is not negative |
| PageAdjust.ShiftedOrdered | src/pdf_outline_extractor/extractor_new.py:244-252 | shifting keeps the page order |
| PageAdjust.ShiftedNonNegative | src/pdf_outline_extractor/extractor_new.py:250-252 | no shifted span has a negative page |
| PageAdjust.AdjustedPages | src/pdf_outline_extractor/extractor_new.py:185-261 | from pages that are not negative the adjusted pages are not negative, and every adjusted span is an input span with only its page changed |
| PageAdjust.ContentPageBecomesOffset | src/pdf_outline_extractor/extractor_new.py:247-252 | every span from the first content page on is kept, and the spans on that page are renumbered to the offset |
| PageAdjust.SinglePageFallback | src/pdf_outline_extractor/extractor_new.py:253-256 | a single-page document without a content heading keeps every span, all on one page of at least 1 |
| Orphans.PairEnforced | src/pdf_outline_extractor/extractor_new.py:1091-1150 | the hierarchy pass keeps an H1 on page 1 followed by an H2 on page 2, with normalized texts |
| Orphans.PairFinalized | src/pdf_outline_extractor/extractor_new.py:1593-1623 | finalizing that pair drops the H1 whose text is shorter than 3 characters and keeps the H2 |
| Orphans.OrphanedH2 | src/pdf_outline_extractor/extractor_new.py:1108-1118 | an outline that starts with an H2 is not well nested |
| Orphans.FinalizeOrphansHeading | src/pdf_outline_extractor/extractor_new.py:710-712 | as written, the classifier's last two passes turn a well-nested outline into one that is not: the H2 is left without its H1 |
| LineGrouping.GroupLinesPages | src/pdf_outline_extractor/extractor_new.py:563-608 | grouping spans into lines introduces no page: every line's page is a page of the input spans |
| Title.MaxOf | src/pdf_outline_extractor/extractor_new.py:324-346 | the maximum over the first-page spans: reached by one of them and exceeded by none |
| Title.CountContained | src/pdf_outline_extractor/extractor_new.py:334 | the number of indicator phrases the text contains: at most the number of phrases, and zero exactly when it contains none |
| Title.CountContainedTwo | src/pdf_outline_extractor/extractor_new.py:334-338 | at least two phrases counted exactly when two different indicator phrases occur in the text |
| Title.CollectTitleParts | src/pdf_outline_extractor/extractor_new.py:360-366 | the loop collects, in reading order, the stripped texts of 3 or more characters that are not form fields and mention no skipped word |
| Title.SearchWideTitle | src/pdf_outline_extractor/extractor_new.py:400-406 | the loop answers the stripped text of the first span, largest font first, that covers more than 60% of the page width with 10 to 150 characters and is no form field |
| Title.SearchShapedTitle | src/pdf_outline_extractor/extractor_new.py:409-414 | the loop answers the first stripped text in reading order with 10 to 150 characters that is no form field and looks like a title |
| Title.ExtractTitle | src/pdf_outline_extractor/extractor_new.py:310-416 | the method (invitation test, then the three strategies in turn) answers the modelled title |
| Title.NoFirstPageNoTitle | src/pdf_outline_extractor/extractor_new.py:315-321 | without spans on page 0 the title is empty |
| Title.RsvpMeansNoTitle | src/pdf_outline_extractor/extractor_new.py:336-338 | a first page that mentions "rsvp" gets no title |
| Title.PartsFromCandidates | src/pdf_outline_extractor/extractor_new.py:360-366 | every title part is stripped and is the stripped text of a candidate span that passes the part test |
| Title.SinglePartKeepsOriginalText | src/pdf_outline_extractor/extractor_new.py:378-383 | a single part is answered as the unstripped text of a candidate span whose stripped text it is |
| Title.FirstByFontLargest | src/pdf_outline_extractor/extractor_new.py:400-406 | the wide-line search finds nothing exactly when no span passes; otherwise a passing span with the largest font of all passing spans |
| Title.TopmostFirst | src/pdf_outline_extractor/extractor_new.py:409-414 | the shape search finds nothing exactly when no span passes; otherwise the passing span that comes first in reading order (topmost, then leftmost) |
| Pipeline.ExtractHierarchicalHeadings | src/pdf_outline_extractor/extractor_new.py:714-826 | the method (sort, stitch, filter, margin groups, candidates, strict hierarchy) gives the modelled hierarchical headings |
| Pipeline.FilterTitle | src/pdf_outline_extractor/extractor_new.py:664-700 | the title filter loop gives the modelled filtered lines |
| Pipeline.ClassifyHeadings | src/pdf_outline_extractor/extractor_new.py:649-712 | the method (line grouping, document type, form gate, title filter, invitation path, hierarchical headings, then finalizing) gives the modelled outline |
| Pipeline.OutlineInvariants | src/pdf_outline_extractor/extractor_new.py:649-712 | the outline as the program returns it is empty for a form and at most one H1 (hence well nested) for an invitation; it is always free of duplicate keys and in page order, and outside invitations every heading has at least three characters |
| Pipeline.CorrectedOutlineInvariants | src/pdf_outline_extractor/extractor_new.py:649-712 | with the strict-hierarchy pass run again after finalizing, the outline keeps the form and invitation guarantees, stays free of duplicates, in page order and long enough, and is also well nested for every input |
| Pipeline.CorrectionOnlyRepairs | src/pdf_outline_extractor/extractor_new.py:703-712 | the corrected outline equals the program's outline exactly when the program's outline is already well nested |
| Pipeline.RefinalizedInvariants | src/pdf_outline_extractor/extractor_new.py:1593-1623 | running the strict-hierarchy pass over finalized headings gives an outline that is well nested, starts with an H1, has no repeated key, is in page order and holds only cleaned headings of at least three characters taken from its input |
| Pipeline.InvitationInvariants | src/pdf_outline_extractor/extractor_new.py:705-707 | an invitation's outline is at most one H1, hence well nested, in page order and free of duplicates |
| Pipeline.AtMostOneH1 | src/pdf_outline_extractor/extractor_new.py:1640-1652 | an outline of at most one H1 is well nested, in page order and free of duplicate keys |
| Pipeline.TitleRemoved | src/pdf_outline_extractor/extractor_new.py:688-700 | with a non-blank title every line that reaches the heading passes is an input line whose stripped text is not the title, and every other input line that is not a title part does reach them |
| Pipeline.HierarchicalPages | src/pdf_outline_extractor/extractor_new.py:714-826 | every hierarchical heading carries the page of some input line |
| Pipeline.OutlinePages | src/pdf_outline_extractor/extractor_new.py:703-712 | every heading of the outline carries the page of some line that reached the heading passes |
| Pipeline.ClassifiedPages | src/pdf_outline_extractor/extractor_new.py:649-712 | every heading `_classify_headings` returns carries the page of some input span |
| Pipeline.AdjustedOutlinePages | src/pdf_outline_extractor/extractor_new.py:151-153 | when the spans' pages are not negative, every heading classified from the page-adjusted spans has a page of at least 0 |
| Metrics.CollectKeys | src/pdf_outline_extractor/json_writer.py:290-304 | the collecting loop gives the set of (level, stripped text, page) keys of the outline |
| Metrics.CalculateMetrics | src/pdf_outline_extractor/json_writer.py:275-322 | the method (two collecting loops, then the scores) gives the modelled metrics |
| Metrics.ScoreSets | src/pdf_outline_extractor/json_writer.py:306-322 | the counts and ratios computed from the two key sets are the modelled scores |
| Metrics.CliCalculateMetrics | src/pdf_outline_extractor/cli_clean.py:146-179 | a missing outline counts as an empty one; the command-line metrics are the writer's metrics |
| Metrics.RatioBounds | src/pdf_outline_extractor/json_writer.py:311-312 | precision and recall lie between 0 and 1, and are 1 when every key counted is a hit |
| Metrics.F1Bounds | src/pdf_outline_extractor/json_writer.py:313 | F1 of two values in [0, 1] is in [0, 1]; 1 when both are 1, 0 when both are 0 |
| Metrics.QuotientAtMostOne | src/pdf_outline_extractor/json_writer.py:311-313 | a quotient of a non-negative value by a value at least as large is in [0, 1], and 1 when they are equal |
| Metrics.SetSplit | src/pdf_outline_extractor/json_writer.py:307-308 | true and false positives together count every predicted key |
| Metrics.MetricsProperties | src/pdf_outline_extractor/json_writer.py:289-322 | true positives, false positives and false negatives are the sizes of the intersection and the two differences of the key sets; hits plus misses count each set; precision and recall are the hit shares when the sets are not empty; all scores lie in [0, 1] |
| Metrics.KeySetNonEmpty | src/pdf_outline_extractor/json_writer.py:290-296 | a non-empty outline has at least one key |
| Metrics.IdenticalOutlines | src/pdf_outline_extractor/json_writer.py:275-322 | an outline compared with itself scores precision, recall and F1 of 1 with no false positive or negative |
| Metrics.DisjointSets | src/pdf_outline_extractor/json_writer.py:306-313 | key sets with nothing in common score 0 everywhere, with every predicted key a false positive and every gold key a false negative |
| Metrics.DisjointOutlines | src/pdf_outline_extractor/json_writer.py:275-322 | outlines that share no key score 0 everywhere, with every predicted key a false positive and every gold key a false negative |
| Metrics.KeySetsApart | src/pdf_outline_extractor/json_writer.py:290-304 | outlines whose entries never share a key have disjoint key sets |
| Metrics.EmptyOutlines | src/pdf_outline_extractor/json_writer.py:311-313 | two empty outlines score 0, not 1 |
| Metrics.KeySetRepeat | src/pdf_outline_extractor/json_writer.py:290-296 | repeating an entry adds no key |
| Metrics.KeySetSize | src/pdf_outline_extractor/json_writer.py:290-296 | an outline has at most as many keys as entries |
| Metrics.DuplicatesCollapse | src/pdf_outline_extractor/json_writer.py:289-322 | repeating a predicted entry changes no score |
| Metrics.SingleEntryMiss | src/pdf_outline_extractor/json_writer.py:289-322 | one predicted and one gold entry with different keys give no hit, one false positive and one false negative |
| Metrics.CaseSensitiveMatch | src/pdf_outline_extractor/json_writer.py:294 | matching is case-sensitive: "Intro" predicted against "intro" in gold is a miss both ways |
| Metrics.StrippedKeysDiffer | src/pdf_outline_extractor/json_writer.py:294 | two different texts without surrounding whitespace give different keys |
| Metrics.SingleKeySet | src/pdf_outline_extractor/json_writer.py:290-296 | a one-entry outline has exactly that entry's key |
| OutlineJson.CreateOutlineJson | src/pdf_outline_extractor/json_writer.py:33-81 | the method (sort, cleaning loop, metadata test) gives the modelled document |
| OutlineJson.CleanEntries | src/pdf_outline_extractor/json_writer.py:59-70 | the cleaning loop keeps, in order, the cleaned entries whose stripped text is not empty |
| OutlineJson.InputKeyPages | src/pdf_outline_extractor/json_writer.py:53-57 | two entries in (page, order) sort order are in page order, missing pages counting as 0 |
| OutlineJson.CleanedProperties | src/pdf_outline_extractor/json_writer.py:59-70 | one output entry per entry with a non-blank text, each with a stripped non-empty text and made from such an entry, in page order when the input was sorted |
| OutlineJson.CreatedOutlineProperties | src/pdf_outline_extractor/json_writer.py:33-81 | a missing title becomes ""; one entry per input entry with a non-blank text, each stripped, non-empty and taken from an input entry; in page order; metadata only when given and non-empty |
| OutlineJson.ValidateJsonFormat | src/pdf_outline_extractor/json_writer.py:160-212 | the checks in order answer true exactly for a dictionary with a string title and a list outline whose entries are dictionaries with string level H1–H3, string text and non-negative integer page |
| OutlineJson.EntryJsonValid | src/pdf_outline_extractor/json_writer.py:183-207 | a written entry passes the check exactly when its level is H1, H2 or H3 and its page is not negative |
| OutlineJson.DocJsonValid | src/pdf_outline_extractor/json_writer.py:160-212 | a written document passes the check exactly when every entry has a level among H1–H3 and a page that is not negative, which the writer itself checks for neither |
| OutlineWriter.FormatOutlineData | src/pdf_outline_extractor/json_writer_new.py:50-76 | the append loop gives the modelled formatted document |
| OutlineWriter.FormattedOutlineProperties | src/pdf_outline_extractor/json_writer_new.py:50-76 | the result has exactly the keys title and outline; the title is the given one or ""; one entry per input entry, in order, each with exactly level, text and page taken from the entry or defaulted to "H1", "" and 0 |
| OutlineWriter.FormatIdempotent | src/pdf_outline_extractor/json_writer_new.py:50-76 | formatting a formatted document changes nothing |
| OutlineWriter.ValidateOutlineFormat | src/pdf_outline_extractor/json_writer_new.py:107-152 | the method lists the modelled errors, title problems first, then the outline's |
| OutlineWriter.CheckEntries | src/pdf_outline_extractor/json_writer_new.py:131-150 | the entry loop lists each entry's errors in entry order |
| OutlineWriter.EntriesErrorsSnoc | src/pdf_outline_extractor/json_writer_new.py:131-150 | one more entry appends exactly its own errors |
| OutlineWriter.CheckEntry | src/pdf_outline_extractor/json_writer_new.py:132-150 | one entry's checks: a non-dictionary gets one error; otherwise level, text and page are each checked for presence and then for value |
| OutlineWriter.EntryErrorsValid | src/pdf_outline_extractor/json_writer_new.py:132-150 | an entry gets no error exactly when the first writer's check accepts it |
| OutlineWriter.EntriesErrorsValid | src/pdf_outline_extractor/json_writer_new.py:131-150 | the entries get no error exactly when every entry is accepted |
| OutlineWriter.ValidatorsAgree | src/pdf_outline_extractor/json_writer_new.py:107-152 | the list of errors is empty exactly when the first writer's format check accepts the document |
| OutlineWriter.EntriesErrorsMembers | src/pdf_outline_extractor/json_writer_new.py:131-150 | every error listed for the outline is an error of one of its entries |
| OutlineWriter.MissingTitleReported | src/pdf_outline_extractor/json_writer_new.py:120-121 | a missing title is reported exactly when the title key is absent, and it is then the first error |
| OutlineWriter.EntryErrorsAbout | src/pdf_outline_extractor/json_writer_new.py:132-150 | every error of an entry names that entry's index |
| OutlineWriter.ErrorsAboutEntry | src/pdf_outline_extractor/json_writer_new.py:131-150 | the errors naming entry i are exactly that entry's own errors, as many as it has |
| OutlineWriter.AboutNone | src/pdf_outline_extractor/json_writer_new.py:131 | no error names an index past the last entry |
| OutlineWriter.NonDictEntryOneError | src/pdf_outline_extractor/json_writer_new.py:132-134 | an entry that is not a dictionary gets exactly one error, saying so, and no field errors |
| OutlineWriter.EntryNotDictListed | src/pdf_outline_extractor/json_writer_new.py:132-134 | the error for a non-dictionary entry is in the outline's list |
| OutlineWriter.InvalidLevelReported | src/pdf_outline_extractor/json_writer_new.py:139-140 | an entry whose level is present but not H1–H3 is reported |
| OutlineWriter.InvalidLevelListed | src/pdf_outline_extractor/json_writer_new.py:139-140 | the invalid-level error is in the outline's list |
| OutlineWriter.FormattedHasOnlyValueErrors | src/pdf_outline_extractor/json_writer_new.py:50-152 | a formatted document is never missing a field: only errors about values remain |
| OutlineWriter.ComparedProperties | src/pdf_outline_extractor/json_writer_new.py:205-225 | the counts are the sizes of the two key sets and hits never exceed either; two empty sets score 1, one empty set scores 0 with no hit, otherwise hits are the intersection and precision and recall are the hit shares |
| OutlineWriter.ComparedAgreesWithScores | src/pdf_outline_extractor/json_writer_new.py:212-216 | for two non-empty key sets the comparison scores what the first writer's metrics score |
| OutlineWriter.CompareIdentical | src/pdf_outline_extractor/json_writer_new.py:179-225 | an outline compared with itself scores 1, even when empty |
| OutlineWriter.CompareMissingOutline | src/pdf_outline_extractor/json_writer_new.py:191 | a missing outline compares as an empty one |
| OutlineWriter.EmptyComparisonsDiffer | src/pdf_outline_extractor/json_writer_new.py:206-207 | two empty outlines score F1 1 here and 0 in the first writer's metrics |
| OutlineWriter.CompareKeyIgnoresCase | src/pdf_outline_extractor/json_writer_new.py:195-203 | the comparison key does not change when the text is lower-cased |
| OutlineWriter.CompareIgnoresCase | src/pdf_outline_extractor/json_writer_new.py:179-225 | lower-casing every predicted text changes no score |
| OutlineWriter.CompareDuplicatesCollapse | src/pdf_outline_extractor/json_writer_new.py:195-198 | repeating a predicted entry changes no score |
| OutlineWriter.CompareCountsBounded | src/pdf_outline_extractor/json_writer_new.py:223-224 | the reported counts never exceed the outlines' lengths |
| InvitationHeadings.ExtractInvitationHeadings | src/pdf_outline_extractor/extractor_new.py:1625-1652 | the candidate loop followed by the descending length sort returns exactly the modelled invitation outline: the head of the sorted candidates, or nothing |
| InvitationHeadings.InvitationSingleH1 | src/pdf_outline_extractor/extractor_new.py:1625-1652 | an invitation yields at most one heading; it yields one exactly when some line mentions hope, see or there and is at least ten characters once trimmed, and that heading is an H1 carrying such a line's normalized text and page |
| InvitationHeadings.LongestFirst | src/pdf_outline_extractor/extractor_new.py:1646-1650 | the heading chosen is a candidate whose trimmed text is at least as long as every other candidate's, and every earlier candidate is strictly shorter (Python's sort is stable under reverse) |
| InvitationHeadings.InvitationPages | src/pdf_outline_extractor/extractor_new.py:1640-1652 | the invitation heading, when there is one, carries the page of one of the lines it was chosen from |

## Left out

- PDF reading through PyMuPDF (`extract_outline`, `_extract_page_spans`, the old extractor's page walk) is not modelled: the model starts from span records, so the median font size and all other page statistics are inputs.
- File reading and writing in both JSON writers, `compare_results`, `generate_comparison_report` and every command-line interface are left out: they are I/O and report formatting.
- The file-path-keyed "Phase III" insertion and the literal title reconstruction in `_clean_rfp_title` are corpus patches; `_clean_rfp_title` is the argument `cleanRfp` of `Title.TitleOf`.
- `langdetect` (`detect_language` and `_clean_for_detection` in `i18n_utils.py`) is a foreign library and is not modelled.
- Unicode NFC, `unicodedata.category`, and the `str.isalpha`, `str.lower` and `\w` of the script-aware utilities (`I18n`, `I18nNew`) are uninterpreted functions (the `UnicodeData.Unicode` record) passed to those utilities.
- `Text.IsWordChar`: `\w` is ASCII letters, digits and `_`; Python's `\w` also matches every Unicode letter and digit.
- `Text.IsDigit`: `\d` is the ASCII digits; Python's `\d` also matches other Unicode decimal digits, so `I18n.StripNumberPrefix`, `HeadingText.NumberedRewrite` and the numbering patterns see only ASCII numbers.
- `Layout.DetectStructuralPatterns`: `isupper` and the special-character test use ASCII case, so a text such as "Café" counts as holding a special character and an accented capital does not count as upper case.
- `LayoutNew.IsLikelyHeading`: `istitle` and `isupper` (`Text.IsTitleStr`, `Text.IsUpperStr`) use ASCII case only.
- `I18nNew.ExtractTextFeatures`: `has_digits`, `is_caps` and `is_title_case` use ASCII digits and ASCII case, where Python's are Unicode.
- `OutlineWriter.CompareKey`: `lower()` is ASCII lower case (`Text.Lower`), where Python's lowers every Unicode letter.
- `Heuristics.DetermineHeadingLevel`: the constructor arguments of `PDFOutlineExtractor` (src/pdf_outline_extractor/extractor_new.py:32-49) are fixed at their defaults, size ratios 1.5, 1.3 and 1.1 and indentation limits 20 and 40; other settings are not modelled.
- `Layout.LevelFor`: the constructor arguments of `LayoutAnalyzer` (src/pdf_outline_extractor/layout_utils.py:16-34) are fixed at their defaults (`Layout.MinH1Ratio`, `Layout.MinH2Ratio`, `Layout.MinH3Ratio`, `Layout.TitleWidthThreshold`); other settings are not modelled.
- `normalize_text` of `i18n_utils_new.py` is the `nfc` argument applied to a non-empty text (`I18nNew.NormalizeText`); `normalize_heading_text` is `I18nNew.NormalizeHeadingText`.
- Floating-point arithmetic is not modelled: font sizes, coordinates and ratios are exact `real` values, which only ever meet constants and each other in comparisons.
- `Legacy.HeadingConfidence`: only the final clamp `min(confidence, 1.0)` of `_calculate_heading_confidence` is modelled; the weighted sum it clamps is the argument `score`.
- `_calculate_structural_score`, `_calculate_heading_score`, `calculate_font_size_ratios`, `text_density`, the x and y ranges of `analyze_text_flow`, `calculate_font_size_stats`, `analyze_text_positioning` and `detect_title_candidates` are float-weighted statistics and are left out.
- The language fields of the old extractor's heading entries are not carried: they come from `langdetect`.
- `OutlineJson.CreateOutlineJson`: `str()` and `int()` conversions of entry values are not modelled; entries arrive as optional strings and integers.
- `OutlineWriter.FormatOutlineData`: requires every outline entry to be a dictionary, because the source calls `entry.get` and raises on anything else; that exception is not modelled.
- `OutlineWriter.Compared`: outline entries are typed records, so a non-string level or a non-integer page in a compared outline is not modelled.
- Error messages are not modelled as text: each validation error is a constructor of `OutlineWriter.FormatError`.
- Spans carry no `x0` or `y0`, so the model cannot represent a document whose spans do; the pipeline sorts keep input order within a page.
- Logging is left out.

## Findings

| source | as written | input that shows it | evidently intended | confidence | as-written member | corrected member |
|---|---|---|---|---|---|---|
| src/pdf_outline_extractor/extractor_new.py:1152-1170 | `_normalize_heading_text` strips whitespace after the numbered-section rewrites, although its comment says to strip first; leading whitespace hides the number from the rewrite, so the function is not idempotent | " 1.  Intro" gives "1.  Intro ", which normalizes again to "1. Intro " | strip first, so that " 1.  Intro" and "1.  Intro" both give "1. Intro " | not executed | HeadingText.AsWrittenLeadingSpace | HeadingText.CorrectedLeadingSpace |
| src/pdf_outline_extractor/extractor_new.py:710-712 | `_classify_headings` runs `_finalize_headings` after the strict-hierarchy pass, and finalizing drops headings shorter than three characters and duplicates, orphaning the headings below them | an H1 "AB" on page 1 followed by an H2 "Budget" on page 2: the strict-hierarchy pass keeps both, finalizing drops the H1 and leaves an H2 with no H1 | the outline is well nested after finalizing: `Pipeline.CorrectedOutline` runs the hierarchy pass again over the finalized headings, which changes the outline only when it was not well nested | not executed | Orphans.FinalizeOrphansHeading | Pipeline.CorrectedOutlineInvariants |
