# Risk analysis core of jigyokei-copilot, modelled in Dafny

jigyokei-copilot helps a business-support adviser talk with a shop owner. A
hosted language model extracts "business risks" from the conversation log and
returns them as JSON. For every risk with a summary, a second model call picks
a mutual-aid or insurance product. Two renderers then turn the result into
fixed-format Japanese text.

This project models the deterministic code around those model calls:

- **Fence normaliser** (`RiskAnalyzer.NormalizeResponse`). It strips the raw
  reply, removes every "```json" and then every "```". Python's `str.strip`,
  its whitespace table and `str.replace(p, "")` are modelled in `PyStrings`.
- **Solution mapping** (`RiskAnalyzer.MapRiskToSolution`). It returns the
  mapping model's reply with surrounding whitespace removed. The reply is
  never checked against the seven product names the prompt lists.
- **Parsed object** (`Records`).
  - `Entry` and `Document` are its values.
  - `RiskRecord` and `AnalysisResult` are the mutable dicts and list it is
    made of.
  - `Records.Load` is the object-building half of `json.loads`: a fresh dict
    per list element.
- **Annotation pass** (`RiskAnalyzer.AnnotateRisks`, `AnnotateResult`,
  `AnalyzeConversationForRisks`). It walks the `risks` array and sets
  `recommended_solution` in place on every record whose `risk_summary` is
  present and non-empty.
  - Each method is proved against a pure specification: `AnnotateAll`,
    `Annotate` and `Analysis`.
  - The summaries sent to the mapping model are returned as a trace and
    compared with `SummaryCalls`.
- **Parse-failure branch.** The code returns the literal `{{"risks": []}}`.
  Evaluating it raises `TypeError: unhashable type: 'dict'`, because the
  inner dict is put in a set. So the function as written raises instead of
  returning an empty result (see Findings).
- **Renderers** (`Presentation`). `create_risk_list_presentation` and
  `create_solution_presentation` are loop methods that build the text by
  appending. Each is proved equal to a pure specification (`RiskListText`,
  `SolutionListText`).
  - The methods have no `modifies` clause, so they cannot change the
    analysis result.
- **Session** (`Session`). Two facts relating the analyzer's result to the
  renderers, each a property of the parts taken on their own: the renderers'
  default solution is a catalog name, and the corrected failure result is an
  empty risk list. Both callers test `not analysis_result.get("risks")`
  before rendering (main_app.py:33-35, api_server.py:26-27) and stop at that
  guard on the corrected failure result; that the renderers would show it as
  the "no risks" message is a property of the renderers alone.

The calls to the hosted model are parameters:

- `complete: string -> string` is the mapping model, from a risk summary to
  its reply text.
- `loads: string -> Option<Document>` is `json.loads`; `None` means
  `JSONDecodeError`.
- `response: Option<string>` is the extraction reply's `.text`; `None` means
  reading it raised `AttributeError`.

main.py:30-84 repeats `map_risk_to_solution` and
`analyze_conversation_for_risks` from risk_analyzer.py. Only the prompt
wording differs, so the same members model both copies. The rows below cite
both.

Two places where the code does not do what its own text asks for; the model
follows the code:

- The mapping prompt asks for one catalog name and nothing else
  (risk_analyzer.py:11, 25). Line 28 returns the reply stripped and never
  checks it against the seven names at lines 14-20.
- The `except` branch at line 60 evidently means the empty dict
  `{"risks": []}`. As written it raises `TypeError` (see Findings).

## Model

| member | source | states |
|---|---|---|
| PyStrings.IsSpace | risk_analyzer.py:28 | definition: Python's `str.isspace` table, the whitespace `strip()` removes (also line 56); the facts used are in `PyStrings.NotSpace` and `PyStrings.BlankAndNewlineAreSpace` |
| PyStrings.RemoveAll | risk_analyzer.py:56 | definition of `s.replace(p, "")`, scanning left to right for non-overlapping occurrences; its contract only bounds the length, and its behaviour is stated by `RemoveAllHead`, `RemoveAllSkips`, `RemoveAllShort` and `RemoveBackticksComplete` |
| RiskAnalyzer.NormalizeResponse | risk_analyzer.py:56 | definition of line 56's strip, then replace "```json", then replace "```" (also main.py:72); its properties are `NormalizedHasNoFence`, `FencedRoundTrip` and `UnfencedOnlyStripped` |
| RiskAnalyzer.MapRiskToSolution | risk_analyzer.py:27-28 | definition: the strip of the mapping oracle's reply, with no catalog check (also main.py:47-48); its properties are `SolutionIsTrimmedReply`, `SolutionNotValidated` and `OffCatalogReplyAccepted` |
| Records.NoRisks | risk_analyzer.py:63 | definition: the `risks` value is falsy (absent, null or an empty list), the test of `if analysis_result.get("risks"):` and of `if not risks:` after `.get("risks", [])` (presentation_generator.py:8-9, 23-24); its properties are `Presentation.NoRisksMessageIff` and `RiskAnalyzer.NoRisksReturnedUnchanged` |
| RiskAnalyzer.HasText | risk_analyzer.py:66 | definition of `if risk_summary:` for a summary that is absent or a string: present and non-empty; its properties are `AnnotationTouchesOnlySolutions`, `IndicesAreExact` and `CallsAreSummaries` |
| RiskAnalyzer.SummaryCalls | risk_analyzer.py:64-67 | definition of the mapper calls the loop makes: the non-empty summaries in list order; its properties are `CallsAreSummaries`, `SolutionsFollowCalls` and `SummaryCallsStep`, and `AnnotateRisks` is proved to make exactly these calls |
| RiskAnalyzer.AnnotatedIndices | risk_analyzer.py:64-66 | the positions of the records the loop annotates; its contract gives one position per mapper call, and `IndicesAreExact` and `CallsAreSummaries` state which positions they are |
| RiskAnalyzer.Catalog | risk_analyzer.py:14-20 | definition: the seven solution names the mapping prompt lists (also main.py:36-42); its properties are `OffCatalogReplyAccepted` and `Session.DefaultSolutionInCatalog` |
| RiskAnalyzer.Annotated | risk_analyzer.py:65-68 | definition of one loop iteration on a record's value; its properties are `AnnotationTouchesOnlySolutions` and `AnnotateRisk` |
| RiskAnalyzer.Annotate | risk_analyzer.py:63-68 | definition of the `if analysis_result.get("risks"):` guard and loop on the parsed value; `AnnotateResult` is proved against it and `NoRisksReturnedUnchanged` and `AnalysisKeepsRecords` state its properties |
| RiskAnalyzer.Parse | risk_analyzer.py:55-58 | definition of the `try` block: `None` when `.text` raises or `json.loads` fails, otherwise the parsed value; used by `ParseFailureRaises` |
| RiskAnalyzer.Analysis | risk_analyzer.py:55-69 | definition of the function's outcome: `TypeError` on the `except` path, otherwise the annotated value (also main.py:71-84); `AnalyzeConversationForRisks` is proved against it and `ParseFailureRaises`, `NoRisksReturnedUnchanged`, `AnalysisKeepsRecords` and `FencedAndBareAgree` state its properties |
| RiskAnalyzer.MapperCalls | risk_analyzer.py:63-67 | definition of the mapper calls the function makes: none on a parse failure, otherwise `SummaryCalls` of the parsed records; tied to the method by `AnalyzeConversationForRisks` |
| RiskAnalyzer.AnalysisCorrected | risk_analyzer.py:58-60 | definition of the function with the `except` branch returning `{"risks": []}`; its properties are in `CorrectedFailureIsNoRisks` |
| Presentation.RiskBlock | presentation_generator.py:13-14 | definition of the two lines for risk `i`, with the "（内容不明）" and "N/A" defaults; its properties are `RiskBlockNumber` and `EmptyValueIsNotDefault` |
| Presentation.SolutionBlock | presentation_generator.py:28-31 | definition of the two lines for one risk, with the "（内容不明）" and "個別相談" defaults; its properties are in `EmptyValueIsNotDefault` |
| Presentation.RiskListText | presentation_generator.py:3-16 | definition of what the risk-list function returns; its properties are `NoRisksMessageIff`, `RiskListAppend` and `RiskListLayout`, and `CreateRiskListPresentation` is proved equal to it |
| Presentation.SolutionListText | presentation_generator.py:18-33 | definition of what the solution-list function returns; its properties are `NoRisksMessageIff`, `SolutionListAppend` and `SolutionListLayout`, and `CreateSolutionPresentation` is proved equal to it |
| PyStrings.Strip | risk_analyzer.py:28 | `str.strip()`: the result is a slice of the input, everything outside the slice is whitespace, and the result neither starts nor ends with whitespace |
| PyStrings.StripTrimmed | risk_analyzer.py:28 | a string that neither starts nor ends with whitespace is its own strip |
| PyStrings.StripIdempotent | risk_analyzer.py:56 | stripping twice is stripping once |
| PyStrings.StripPadded | risk_analyzer.py:28 | strip removes exactly the whitespace padding `w1`, `w2` around a text `x` whose ends are not whitespace |
| PyStrings.RemoveAllSkips | risk_analyzer.py:56 | text without the pattern's first character passes through `replace(p, "")` unchanged |
| PyStrings.RemoveBackticksComplete | risk_analyzer.py:56 | after `replace('```', '')` no "```" occurs: removal never joins backticks into a new fence |
| PyStrings.NatToDecimal | presentation_generator.py:13 | the decimal rendering of a number is non-empty and made of digits |
| PyStrings.DecimalRoundTrip | presentation_generator.py:13 | reading the decimal rendering back gives the number, and it starts with '0' only for zero |
| RiskAnalyzer.NormalizedHasNoFence | risk_analyzer.py:56 | no "```" survives in the text handed to `json.loads` (also main.py:72) |
| RiskAnalyzer.FencedRoundTrip | risk_analyzer.py:56 | "```json" + s + "```" with `s` free of backticks normalises to exactly `s` (also main.py:72) |
| RiskAnalyzer.UnfencedOnlyStripped | risk_analyzer.py:56 | a reply without backticks is only stripped (also main.py:72) |
| RiskAnalyzer.SolutionIsTrimmedReply | risk_analyzer.py:27-28 | the solution is the mapping reply without surrounding whitespace (also main.py:47-48) |
| RiskAnalyzer.SolutionNotValidated | risk_analyzer.py:27-28 | any padded reply `w1 + x + w2` yields `x`, whatever `x` names (also main.py:47-48) |
| RiskAnalyzer.OffCatalogReplyAccepted | risk_analyzer.py:14-20 | a reply naming no listed product (" 不明\n") is still returned as the solution ("不明"), and that name is not in the catalog (also main.py:36-42) |
| Session.DefaultSolutionInCatalog | presentation_generator.py:29 | the renderer's default "個別相談" is the catalog's last entry (risk_analyzer.py:20) |
| RiskAnalyzer.AnnotateAll | risk_analyzer.py:64-68 | the annotated list has the same length as the input and record `k` is record `k` annotated |
| RiskAnalyzer.CallsAreSummaries | risk_analyzer.py:64-67 | the `j`-th mapper call is the present, non-empty summary of the record at the `j`-th annotated position (also main.py:79-82) |
| RiskAnalyzer.IndicesAreExact | risk_analyzer.py:65-66 | the annotated positions increase in list order and are exactly the records whose summary is present and non-empty (also main.py:80-81) |
| RiskAnalyzer.AnnotationTouchesOnlySolutions | risk_analyzer.py:63-68 | each record keeps its summary, trigger and other keys; its solution becomes `mapper(summary)` iff the summary is present and non-empty, else it is unchanged (also main.py:78-83) |
| RiskAnalyzer.SolutionsFollowCalls | risk_analyzer.py:65-68 | the solution stored for the `j`-th mapper call is that call's answer, and no call is made with an empty summary |
| RiskAnalyzer.AnnotateRisks | risk_analyzer.py:64-68 | the in-place loop leaves the array's records equal to `AnnotateAll` of their old values and returns the mapper calls `SummaryCalls` of the old values (also main.py:79-83) |
| RiskAnalyzer.AnnotateEach | risk_analyzer.py:64-68 | the loop, record by record: every record ends annotated and the calls are the non-empty summaries in order |
| RiskAnalyzer.AnnotateRisk | risk_analyzer.py:65-68 | one iteration: the record is annotated, and the summary is sent to the mapper iff it is present and non-empty |
| RiskAnalyzer.SummaryCallsStep | risk_analyzer.py:64-67 | one more record adds its summary to the calls exactly when it is present and non-empty |
| RiskAnalyzer.AnnotateResult | risk_analyzer.py:63-68 | the `if analysis_result.get("risks"):` guard and loop leave the object equal to `Annotate` of its old value (also main.py:78-83) |
| RiskAnalyzer.AnalyzeConversationForRisks | risk_analyzer.py:54-69 | the function raises exactly when `Analysis` does, with the same error; otherwise it returns a fresh object whose value is `Analysis`'s; the mapper is called with `MapperCalls` (also main.py:70-84) |
| RiskAnalyzer.ParseFailureRaises | risk_analyzer.py:55-60 | the function raises iff `.text` raises or `json.loads` fails; it then raises `TypeError` (unhashable dict) after no mapper call (also main.py:71-76) |
| RiskAnalyzer.NoRisksReturnedUnchanged | risk_analyzer.py:63 | a parsed object with no `risks` key or an empty list is returned unchanged with no mapper call (line 69; also main.py:78, 84) |
| RiskAnalyzer.AnalysisKeepsRecords | risk_analyzer.py:63-69 | the returned object keeps the parsed object's other keys and whether `risks` is present; its records are the parsed records in order, annotated |
| RiskAnalyzer.FencedAndBareAgree | risk_analyzer.py:56-57 | a fenced reply and the bare JSON text give the same outcome when `loads` agrees on the text and its strip, as it does when the padding inside the fence is JSON whitespace (space, tab, CR, LF); with other `isspace` padding such as U+3000 the two outcomes can differ |
| Session.CorrectedFailureIsNoRisks | risk_analyzer.py:58-60 | with the failure branch returning `{"risks": []}`, a parse failure gives an empty risk list, which the callers' guards (main_app.py:33, api_server.py:26) treat as "no risks" and stop at, and which both renderers on their own would show as "リスクは検出されませんでした。"; on success the corrected and written functions agree |
| Records.Values | risk_analyzer.py:64 | the values of the record list, same length and order |
| Records.Load | risk_analyzer.py:57 | `json.loads` builds fresh, pairwise distinct record objects in a fresh list whose value is the parsed document |
| Presentation.CreateRiskListPresentation | presentation_generator.py:3-16 | the text built by `+=` equals `RiskListText` of the object's `risks` |
| Presentation.CreateSolutionPresentation | presentation_generator.py:18-33 | the text built by `+=` equals `SolutionListText` of the object's `risks` |
| Presentation.NoRisksMessageIff | presentation_generator.py:8-10 | either function returns exactly "リスクは検出されませんでした。" iff `risks` is absent or empty (also lines 23-25) |
| Presentation.RiskListAppend | presentation_generator.py:12-14 | appending a risk appends exactly its block, numbered with its position, to the risk list |
| Presentation.SolutionListAppend | presentation_generator.py:27-31 | appending a risk appends exactly its block to the solution list |
| Presentation.RiskListLayout | presentation_generator.py:5-16 | for a non-empty list: header, dashed separator, then the blocks `RiskBlock(i, es[i])` of `RiskBlockList` joined in list order |
| Presentation.RiskBlocksJoin | presentation_generator.py:12-14 | the loop's accumulated blocks are the concatenation of the blocks in order |
| Presentation.SolutionListLayout | presentation_generator.py:20-31 | for a non-empty list: header, dashed separator, then the blocks `SolutionBlock(es[i])` of `SolutionBlockList` joined in list order |
| Presentation.SolutionBlocksJoin | presentation_generator.py:27-31 | the loop's accumulated blocks are the concatenation of the blocks in order |
| Presentation.RiskBlockNumber | presentation_generator.py:13 | block `i` starts with the decimal `i + 1` (no leading zero) and ". " |
| Presentation.EmptyValueIsNotDefault | presentation_generator.py:13-14 | the defaults replace only absent keys: a present empty summary, trigger or solution prints differently from an absent one (also line 28-29) |

## Left out

- The conversation log is not an input of the model. It only reaches the
  extraction prompt, which is left out (next line), so what the code does
  with an empty log is not modelled.
- Prompt construction (f-strings with `textwrap.dedent`) and the Gemini calls
  themselves. The mapping model is the oracle `complete`, applied to the
  summary rather than to the prompt built from it. The extraction reply is
  the parameter `response`.
- `json.loads` as a parser. Only its result (`loads` returns an `Option`)
  and the objects it builds (`Records.Load`) are modelled.
- JSON values of other types: a top-level value that is not an object, a
  `risks` value that is not a list, or a `risk_summary`, `trigger_phrase` or
  `recommended_solution` that is not a string.
  - A JSON `null` for `risks` is modelled as an absent key, which the guard
    treats the same way.
  - A `null` summary would print "None" in the renderers; `Entry` cannot
    hold it.
- RiskAnalyzer.MapRiskToSolution: the mapping model is the function
  `complete`, so two records with the same summary always get the same
  solution. The hosted model may answer two separate `generate_content` calls
  differently (risk_analyzer.py:27). The model does not capture that.
- A `risks` element that is not an object. `risk.get` would then raise an
  uncaught `AttributeError` (risk_analyzer.py:65). `Entry` cannot represent
  such an element.
- Exceptions other than the caught `JSONDecodeError`/`AttributeError`.
  Examples are the `ValueError` `response.text` raises for a blocked reply,
  and a failure inside the mapping call. These would propagate out of the
  function.
- The error-message `print` in the `except` clause.
- The FastAPI application, CORS setup and endpoint (main.py:86-100),
  credential setup, the command-line loop, and the file writing in other
  scripts. These are I/O and HTTP wiring. The endpoint's own `{{...}}`
  literals (main.py:93, 98) would raise `TypeError` in the same way, but the
  endpoint is not part of this model.
- Records are plain Dafny objects in an array, so aliasing between two list
  elements is excluded by `Records.Distinct`. `json.loads` guarantees this,
  and `Records.Load` proves it for the objects it builds.
- PyStrings.Strip: whitespace is the fixed table of code points Python's
  `str.isspace` accepts. No lemma depends on that table except for the
  characters it names (the backtick, the blank, the newline and two CJK
  characters).

## Findings

| source | as written | input that shows it | evidently intended | confidence | as-written member | corrected member |
|---|---|---|---|---|---|---|
| risk_analyzer.py:60 (also main.py:76) | `return {{"risks": []}}` builds a set holding a dict, which raises `TypeError: unhashable type: 'dict'` | an extraction reply whose text is not JSON, e.g. "申し訳ありません" (`json.loads` fails) | return the dict `{"risks": []}`, which main_app.py:33 and api_server.py:26 treat as "no risks" | not executed | RiskAnalyzer.ParseFailureRaises | Session.CorrectedFailureIsNoRisks |
