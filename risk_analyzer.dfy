/**
 * risk_analyzer.py (and its copy in main.py): the deterministic code around
 * the two language-model calls. The extraction call's reply, the JSON parser
 * and the mapping call are parameters:
 *   - `response`: the reply's text, `None` when reading it raises
 *     AttributeError (the error the `except` clause catches besides JSON errors);
 *   - `loads`: `json.loads`, `None` for a JSON decoding error;
 *   - `complete`: the raw reply of the mapping call for a risk summary.
 */
module RiskAnalyzer {
  import opened Wrappers
  import opened PyStrings
  import opened Records

  // ---------------------------------------------------------------------
  // Fence normalisation (risk_analyzer.py:56)

  const JsonFence: string := "```json"

  /** `response.text.strip().replace('```json', '').replace('```', '')` */
  function NormalizeResponse(text: string): string {
    RemoveAll(RemoveAll(Strip(text), JsonFence), Backticks)
  }

  /** No "```" is left in the text handed to the parser. */
  lemma NormalizedHasNoFence(text: string)
    ensures !Occurs(NormalizeResponse(text), Backticks)
  {
    RemoveBackticksComplete(RemoveAll(Strip(text), JsonFence));
  }

  /** A fenced reply "```json" + s + "```" is cut down to exactly `s` when `s` has no backtick. */
  lemma FencedRoundTrip(s: string)
    requires '`' !in s
    ensures NormalizeResponse(JsonFence + s + Backticks) == s
  {
    var fenced := JsonFence + s + Backticks;
    assert fenced[0] == '`' && fenced[|fenced| - 1] == '`';
    BacktickIsNotSpace();
    StripTrimmed(fenced);
    OpeningFenceRemoved(s);
    ClosingFenceRemoved(s);
  }

  lemma OpeningFenceRemoved(s: string)
    requires '`' !in s
    ensures RemoveAll(JsonFence + s + Backticks, JsonFence) == s + Backticks
  {
    assert JsonFence + s + Backticks == JsonFence + (s + Backticks);
    RemoveAllHead(JsonFence, s + Backticks);
    RemoveAllSkips(s, Backticks, JsonFence);
    RemoveAllShort(Backticks, JsonFence);
  }

  lemma ClosingFenceRemoved(s: string)
    requires '`' !in s
    ensures RemoveAll(s + Backticks, Backticks) == s
  {
    RemoveAllSkips(s, Backticks, Backticks);
    assert Backticks + [] == Backticks;
    RemoveAllHead(Backticks, []);
    assert RemoveAll([], Backticks) == [];
    assert s + [] == s;
  }

  /** A reply without backticks is only stripped. */
  lemma UnfencedOnlyStripped(text: string)
    requires '`' !in text
    ensures NormalizeResponse(text) == Strip(text)
  {
    var t := Strip(text);
    var a :| IsTrimOf(text, t, a);
    assert forall k :: 0 <= k < |t| ==> t[k] == text[a + k];
    assert '`' !in t;
    RemoveAllSkips(t, [], JsonFence);
    RemoveAllSkips(t, [], Backticks);
    assert t + [] == t;
  }

  // ---------------------------------------------------------------------
  // Solution mapping (risk_analyzer.py:6-28)

  /** The solution names the mapping prompt lists (risk_analyzer.py:14-20). */
  function Catalog(): seq<string> {
    [
      "商工会の福祉共済, 経営者休業補償制度",
      "業務災害保険",
      "火災共済（店舗・設備補償）",
      "ビジネス総合保険（PL責任補償）",
      "経営セーフティ共済",
      "地震保険, 地震特約",
      "個別相談"
    ]
  }

  /** `map_risk_to_solution`: the mapping reply, stripped; nothing checks it against `Catalog()`. */
  function MapRiskToSolution(complete: string -> string, riskSummary: string): string {
    Strip(complete(riskSummary))
  }

  /** The solution is the reply without its surrounding whitespace: a slice of
      the reply that neither starts nor ends with whitespace. */
  lemma SolutionIsTrimmedReply(complete: string -> string, riskSummary: string)
    ensures var r := MapRiskToSolution(complete, riskSummary);
      (exists a :: IsTrimOf(complete(riskSummary), r, a))
      && (r != [] ==> !IsSpace(r[0]) && !IsSpace(r[|r| - 1]))
  {
  }

  /** A reply is passed on whatever it names: whitespace around any text `x`
      is removed and `x` comes back, in the catalog or not. */
  lemma SolutionNotValidated(complete: string -> string, riskSummary: string, w1: string, x: string, w2: string)
    requires complete(riskSummary) == w1 + x + w2
    requires AllSpace(w1) && AllSpace(w2)
    requires x != [] ==> !IsSpace(x[0]) && !IsSpace(x[|x| - 1])
    ensures MapRiskToSolution(complete, riskSummary) == x
  {
    StripPadded(w1, x, w2);
  }

  /** `map_risk_to_solution` as the function value the annotation loop calls. */
  function SolutionMapper(complete: string -> string): string -> string {
    riskSummary => MapRiskToSolution(complete, riskSummary)
  }

  /** A concrete reply outside the catalog becomes the recommended solution. */
  lemma OffCatalogReplyAccepted(complete: string -> string, riskSummary: string)
    requires complete(riskSummary) == " 不明\n"
    ensures MapRiskToSolution(complete, riskSummary) == "不明"
    ensures "不明" !in Catalog()
  {
    UnknownReplyIsPadded();
    SolutionNotValidated(complete, riskSummary, " ", "不明", "\n");
    UnknownNotInCatalog();
  }

  lemma UnknownReplyIsPadded()
    ensures " 不明\n" == " " + "不明" + "\n"
    ensures AllSpace(" ") && AllSpace("\n") && !IsSpace('不') && !IsSpace('明')
  {
    BlankAndNewlineAreSpace();
    NotSpace('不');
    NotSpace('明');
  }

  lemma UnknownNotInCatalog()
    ensures "不明" !in Catalog()
  {
    assert forall k :: 0 <= k < |Catalog()| ==> |Catalog()[k]| > 2;
  }

  // ---------------------------------------------------------------------
  // Annotation (risk_analyzer.py:62-69)

  /** `if risk_summary:` for a summary that is a string or absent. */
  predicate HasText(o: Option<string>) {
    o.Some? && o.value != ""
  }

  /** What the loop body does to one record; `mapToSolution` is `map_risk_to_solution`. */
  function Annotated(e: Entry, mapToSolution: string -> string): Entry {
    if HasText(e.summary) then e.(solution := Some(mapToSolution(e.summary.value))) else e
  }

  /** The list after the loop: the same records, in the same order, each annotated. */
  function AnnotateAll(es: seq<Entry>, mapToSolution: string -> string): (rs: seq<Entry>)
    ensures |rs| == |es|
    ensures forall k :: 0 <= k < |es| ==> rs[k] == Annotated(es[k], mapToSolution)
  {
    if es == [] then [] else AnnotateAll(es[..|es| - 1], mapToSolution) + [Annotated(es[|es| - 1], mapToSolution)]
  }

  /** The summaries the loop hands to the mapper, in order. */
  function SummaryCalls(es: seq<Entry>): seq<string> {
    if es == [] then []
    else SummaryCalls(es[..|es| - 1])
         + (if HasText(es[|es| - 1].summary) then [es[|es| - 1].summary.value] else [])
  }

  /** The positions of the records whose summary is present and non-empty, in order. */
  function AnnotatedIndices(es: seq<Entry>): (idx: seq<nat>)
    ensures |idx| == |SummaryCalls(es)|
  {
    if es == [] then []
    else AnnotatedIndices(es[..|es| - 1])
         + (if HasText(es[|es| - 1].summary) then [|es| - 1] else [])
  }

  /** The `j`-th mapper call is the non-empty summary of the record at the
      `j`-th annotated position. */
  lemma {:induction false} CallsAreSummaries(es: seq<Entry>)
    ensures forall j :: 0 <= j < |AnnotatedIndices(es)| ==>
      AnnotatedIndices(es)[j] < |es| && HasText(es[AnnotatedIndices(es)[j]].summary)
      && es[AnnotatedIndices(es)[j]].summary.value == SummaryCalls(es)[j]
  {
    if es != [] {
      var n := |es|;
      CallsAreSummaries(es[..n - 1]);
      var idx, calls := AnnotatedIndices(es), SummaryCalls(es);
      forall j | 0 <= j < |idx|
        ensures idx[j] < n && HasText(es[idx[j]].summary) && es[idx[j]].summary.value == calls[j]
      {
        if j < |AnnotatedIndices(es[..n - 1])| {
          assert idx[j] == AnnotatedIndices(es[..n - 1])[j];
          assert calls[j] == SummaryCalls(es[..n - 1])[j];
          assert es[..n - 1][idx[j]] == es[idx[j]];
        }
      }
    }
  }

  /** The annotated positions are increasing (list order) and are exactly the
      records whose summary is present and non-empty. */
  lemma {:induction false} IndicesAreExact(es: seq<Entry>)
    ensures forall j, j' :: 0 <= j < j' < |AnnotatedIndices(es)| ==> AnnotatedIndices(es)[j] < AnnotatedIndices(es)[j']
    ensures forall j :: 0 <= j < |AnnotatedIndices(es)| ==> AnnotatedIndices(es)[j] < |es|
    ensures forall k :: 0 <= k < |es| ==> (HasText(es[k].summary) <==> k in AnnotatedIndices(es))
  {
    if es != [] {
      var n := |es|;
      IndicesAreExact(es[..n - 1]);
      assert forall k :: 0 <= k < n - 1 ==> es[..n - 1][k] == es[k];
    }
  }

  /** Record `k` keeps its summary, trigger and other keys; its solution is the
      mapper's answer for its summary exactly when that summary is non-empty,
      and otherwise what it was. */
  lemma AnnotationTouchesOnlySolutions(es: seq<Entry>, mapToSolution: string -> string, k: nat)
    requires k < |es|
    ensures var r := AnnotateAll(es, mapToSolution)[k];
      && r.summary == es[k].summary && r.trigger == es[k].trigger && r.others == es[k].others
      && (HasText(es[k].summary) ==> r.solution == Some(mapToSolution(es[k].summary.value)))
      && (!HasText(es[k].summary) ==> r.solution == es[k].solution)
  {
  }

  /** The solution written for the `j`-th mapper call is the answer to that call. */
  lemma SolutionsFollowCalls(es: seq<Entry>, mapToSolution: string -> string, j: nat)
    requires j < |SummaryCalls(es)|
    ensures SummaryCalls(es)[j] != ""
    ensures var k := AnnotatedIndices(es)[j];
      k < |es| && AnnotateAll(es, mapToSolution)[k].solution == Some(mapToSolution(SummaryCalls(es)[j]))
  {
    CallsAreSummaries(es);
  }

  /** The `for risk in analysis_result["risks"]` loop, updating each record in place.
      `calls` records the summaries sent to the mapper. The records are distinct
      objects, as `json.loads` builds a fresh dict per list element. */
  method AnnotateRisks(risks: array<RiskRecord>, mapToSolution: string -> string) returns (calls: seq<string>)
    requires Distinct(risks[..])
    modifies risks[..]
    ensures Values(risks[..]) == AnnotateAll(old(Values(risks[..])), mapToSolution)
    ensures calls == SummaryCalls(old(Values(risks[..])))
  {
    ghost var before := Values(risks[..]);
    assert forall j, k :: 0 <= j < k < risks.Length ==> risks[j] != risks[k] by {
      assert forall k :: 0 <= k < risks.Length ==> risks[..][k] == risks[k];
    }
    calls := AnnotateEach(risks, mapToSolution, before);
    ghost var after := Values(risks[..]);
    assert forall k :: 0 <= k < |after| ==> after[k] == risks[k].Value() by {
      assert forall k :: 0 <= k < risks.Length ==> risks[..][k] == risks[k];
    }
    assert after == AnnotateAll(before, mapToSolution);
  }

  /** The loop itself, stated record by record against the values `before` the loop. */
  method AnnotateEach(risks: array<RiskRecord>, mapToSolution: string -> string, ghost before: seq<Entry>)
    returns (calls: seq<string>)
    requires forall j, k :: 0 <= j < k < risks.Length ==> risks[j] != risks[k]
    requires |before| == risks.Length
    requires forall k :: 0 <= k < risks.Length ==> risks[k].Value() == before[k]
    modifies risks[..]
    ensures forall k :: 0 <= k < risks.Length ==> risks[k].Value() == Annotated(before[k], mapToSolution)
    ensures calls == SummaryCalls(before)
  {
    calls := [];
    for i := 0 to risks.Length
      invariant forall k :: 0 <= k < i ==> risks[k].Value() == Annotated(before[k], mapToSolution)
      invariant forall k :: i <= k < risks.Length ==> risks[k].Value() == before[k]
      invariant calls == SummaryCalls(before[..i])
    {
      SummaryCallsStep(before, i);
      var call := AnnotateRisk(risks[i], mapToSolution);
      calls := calls + call;
    }
    assert before[..risks.Length] == before;
  }

  /** The loop body for one record; returns the summary sent to the mapper, if any. */
  method AnnotateRisk(risk: RiskRecord, mapToSolution: string -> string) returns (call: seq<string>)
    modifies risk
    ensures risk.Value() == Annotated(old(risk.Value()), mapToSolution)
    ensures call == if HasText(old(risk.summary)) then [old(risk.summary).value] else []
  {
    var riskSummary := risk.summary;
    call := [];
    if riskSummary.Some? && riskSummary.value != "" {
      var solution := mapToSolution(riskSummary.value);
      risk.solution := Some(solution);
      call := [riskSummary.value];
    }
  }

  lemma SummaryCallsStep(es: seq<Entry>, i: nat)
    requires i < |es|
    ensures SummaryCalls(es[..i + 1])
      == SummaryCalls(es[..i]) + (if HasText(es[i].summary) then [es[i].summary.value] else [])
  {
    assert es[..i + 1][..i] == es[..i];
  }

  // ---------------------------------------------------------------------
  // The whole function (risk_analyzer.py:30-69)

  datatype PyError = TypeError(message: string)

  /** A Python call either raises or returns. */
  datatype Outcome<T> = Raised(error: PyError) | Returned(value: T)

  /** What evaluating `{{"risks": []}}` raises: the inner dict is put in a set. */
  const UnhashableDict: PyError := TypeError("unhashable type: 'dict'")

  /** `if analysis_result.get("risks"):` followed by the loop. */
  function Annotate(doc: Document, mapToSolution: string -> string): Document {
    if !NoRisks(doc.risks) then doc.(risks := Some(AnnotateAll(doc.risks.value, mapToSolution)))
    else doc
  }

  /** The parsed reply, or `None` when the `except` clause is taken. */
  function Parse(response: Option<string>, loads: string -> Option<Document>): Option<Document> {
    if response.None? then None else loads(NormalizeResponse(response.value))
  }

  /** `analyze_conversation_for_risks`, as written. */
  function Analysis(response: Option<string>, loads: string -> Option<Document>, complete: string -> string): Outcome<Document> {
    match Parse(response, loads)
    case None => Raised(UnhashableDict)
    case Some(doc) => Returned(Annotate(doc, SolutionMapper(complete)))
  }

  /** The summaries `analyze_conversation_for_risks` sends to the mapper. */
  function MapperCalls(response: Option<string>, loads: string -> Option<Document>): seq<string> {
    match Parse(response, loads)
    case None => []
    case Some(doc) => if doc.risks.Some? then SummaryCalls(doc.risks.value) else []
  }

  /** `if analysis_result.get("risks"):` and the loop under it, on the parsed object. */
  method AnnotateResult(analysisResult: AnalysisResult, mapToSolution: string -> string) returns (calls: seq<string>)
    requires analysisResult.risks.Some? ==> Distinct(analysisResult.risks.value[..])
    modifies analysisResult.RecordObjects()
    ensures analysisResult.Value() == Annotate(old(analysisResult.Value()), mapToSolution)
    ensures calls == (if old(analysisResult.Value()).risks.Some? then SummaryCalls(old(analysisResult.Value()).risks.value) else [])
  {
    calls := [];
    if analysisResult.risks.Some? && analysisResult.risks.value.Length > 0 {
      var list := analysisResult.risks.value;
      ghost var es := Values(list[..]);
      assert old(analysisResult.Value()) == Document(Some(es), analysisResult.others);
      assert Annotate(old(analysisResult.Value()), mapToSolution)
        == Document(Some(AnnotateAll(es, mapToSolution)), analysisResult.others);
      calls := AnnotateRisks(list, mapToSolution);
      assert analysisResult.Value() == Document(Some(AnnotateAll(es, mapToSolution)), analysisResult.others);
    } else {
      assert Annotate(analysisResult.Value(), mapToSolution) == analysisResult.Value();
    }
  }

  /** The function as written: it parses the reply, builds the objects, and
      annotates them. */
  method AnalyzeConversationForRisks(response: Option<string>, loads: string -> Option<Document>, complete: string -> string)
    returns (outcome: Outcome<AnalysisResult>, calls: seq<string>)
    ensures outcome.Raised? <==> Analysis(response, loads, complete).Raised?
    ensures outcome.Raised? ==> outcome.error == Analysis(response, loads, complete).error
    ensures outcome.Returned? ==> fresh(outcome.value)
    ensures outcome.Returned? ==> outcome.value.Value() == Analysis(response, loads, complete).value
    ensures calls == MapperCalls(response, loads)
  {
    calls := [];
    if response.None? {
      return Raised(UnhashableDict), calls;
    }
    var jsonText := NormalizeResponse(response.value);
    var parsed := loads(jsonText);
    if parsed.None? {
      return Raised(UnhashableDict), calls;
    }
    var analysisResult := Load(parsed.value);
    calls := AnnotateResult(analysisResult, SolutionMapper(complete));
    outcome := Returned(analysisResult);
  }

  /** A reply that cannot be read or parsed makes the function raise TypeError,
      with no mapper call; every other reply makes it return. */
  lemma ParseFailureRaises(response: Option<string>, loads: string -> Option<Document>, complete: string -> string)
    ensures Analysis(response, loads, complete).Raised?
      <==> response.None? || loads(NormalizeResponse(response.value)).None?
    ensures Analysis(response, loads, complete).Raised? ==>
      Analysis(response, loads, complete).error == UnhashableDict && MapperCalls(response, loads) == []
  {
  }

  /** A parsed object without risks is returned unchanged and the mapper is never called. */
  lemma NoRisksReturnedUnchanged(response: Option<string>, loads: string -> Option<Document>, complete: string -> string)
    requires Parse(response, loads).Some?
    requires NoRisks(Parse(response, loads).value.risks)
    ensures Analysis(response, loads, complete) == Returned(Parse(response, loads).value)
    ensures MapperCalls(response, loads) == []
  {
  }

  /** The returned object has the parsed object's keys and the same records in
      the same order, each with only its solution possibly changed. */
  lemma AnalysisKeepsRecords(response: Option<string>, loads: string -> Option<Document>, complete: string -> string)
    requires Parse(response, loads).Some?
    ensures var doc, out := Parse(response, loads).value, Analysis(response, loads, complete).value;
      && out.others == doc.others
      && (out.risks.None? <==> doc.risks.None?)
      && (doc.risks.Some? ==> out.risks.value == AnnotateAll(doc.risks.value, SolutionMapper(complete)))
  {
    var doc := Parse(response, loads).value;
    if doc.risks == Some([]) {
      assert AnnotateAll([], SolutionMapper(complete)) == [];
    }
  }

  /** A reply fenced as "```json" + s + "```" is handled like the bare reply
      `s` when `loads` gives the same value on `s` and on its strip, as it does
      when the padding inside the fence is JSON whitespace (space, tab, CR,
      LF). With other padding that Python's `isspace` accepts, such as U+3000,
      the bare reply is stripped before parsing and the fenced one is not, so
      the two outcomes can really differ. */
  lemma FencedAndBareAgree(s: string, loads: string -> Option<Document>, complete: string -> string)
    requires '`' !in s
    requires loads(Strip(s)) == loads(s)
    ensures Analysis(Some(JsonFence + s + Backticks), loads, complete) == Analysis(Some(s), loads, complete)
  {
    FencedRoundTrip(s);
    UnfencedOnlyStripped(s);
  }

  // ---------------------------------------------------------------------
  // The intended failure branch: return an empty result.

  const EmptyResult: Document := Document(Some([]), map[])

  /** `analyze_conversation_for_risks` with the failure branch returning `{"risks": []}`. */
  function AnalysisCorrected(response: Option<string>, loads: string -> Option<Document>, complete: string -> string): Document {
    match Parse(response, loads)
    case None => EmptyResult
    case Some(doc) => Annotate(doc, SolutionMapper(complete))
  }
}
