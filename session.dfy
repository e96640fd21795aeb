/**
 * Facts that relate the analyzer's result to the renderers, each taken on its
 * own. Both callers test `not analysis_result.get("risks")` before rendering
 * (main_app.py:33-35, api_server.py:26-27) and stop there when the list is
 * empty, so the renderers' "no risks" branch is a property of the renderers
 * alone, not of a session.
 */
module Session {
  import opened Wrappers
  import opened Records
  import opened RiskAnalyzer
  import opened Presentation

  /** The renderer's default solution is the catalog's last entry. */
  lemma DefaultSolutionInCatalog()
    ensures DefaultSolution == Catalog()[|Catalog()| - 1]
  {
  }

  /** The corrected function never raises. On a parse failure it returns an
      empty risk list: the value the callers' guards treat as "no risks" and
      stop at, and one that both renderers, called on it directly, would show
      as "no risks detected". Otherwise it returns what the function as
      written returns. */
  lemma CorrectedFailureIsNoRisks(response: Option<string>, loads: string -> Option<Document>, complete: string -> string)
    ensures Parse(response, loads).None? ==>
      && AnalysisCorrected(response, loads, complete) == EmptyResult
      && NoRisks(AnalysisCorrected(response, loads, complete).risks)
      && RiskListText(AnalysisCorrected(response, loads, complete).risks) == NoRisksMessage
      && SolutionListText(AnalysisCorrected(response, loads, complete).risks) == NoRisksMessage
    ensures Parse(response, loads).Some? ==>
      Analysis(response, loads, complete) == Returned(AnalysisCorrected(response, loads, complete))
  {
  }
}
