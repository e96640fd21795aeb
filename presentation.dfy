/**
 * The two text renderers of presentation_generator.py. Each builds its text
 * with a loop of `+=`; each loop is proved against a function that gives the
 * whole text for a list of risk values.
 */
module Presentation {
  import opened Wrappers
  import opened PyStrings
  import opened Records

  const RiskListHeader: string := "【事業継続を脅かすリスク一覧】\n"
  const SolutionListHeader: string := "【リスク一覧と解決策（ソリューション）】\n"
  const Separator: string := "----------------------------------------\n"
  const NoRisksMessage: string := "リスクは検出されませんでした。"
  const UnknownSummary: string := "（内容不明）"
  const MissingTrigger: string := "N/A"
  const DefaultSolution: string := "個別相談"

  function NumberedLine(i: nat, summary: string): string {
    NatToDecimal(i + 1) + ". " + summary + "\n"
  }

  function TriggerLine(trigger: string): string {
    "   (社長の発言：'" + trigger + "')\n\n"
  }

  function CheckedLine(summary: string): string {
    "✅ " + summary + "\n"
  }

  function SolutionLine(solution: string): string {
    "   └─ 解決策 → 【" + solution + "】\n\n"
  }

  /** The two lines for the risk at (0-based) index `i` of the risk list. */
  function RiskBlock(i: nat, e: Entry): string {
    NumberedLine(i, e.summary.GetOr(UnknownSummary)) + TriggerLine(e.trigger.GetOr(MissingTrigger))
  }

  /** The two lines for one risk of the solution list. */
  function SolutionBlock(e: Entry): string {
    CheckedLine(e.summary.GetOr(UnknownSummary)) + SolutionLine(e.solution.GetOr(DefaultSolution))
  }

  lemma ConcatAssoc(a: string, b: string, c: string)
    ensures a + (b + c) == (a + b) + c
  {
  }

  function RiskBlocks(es: seq<Entry>): string {
    if es == [] then [] else RiskBlocks(es[..|es| - 1]) + RiskBlock(|es| - 1, es[|es| - 1])
  }

  function SolutionBlocks(es: seq<Entry>): string {
    if es == [] then [] else SolutionBlocks(es[..|es| - 1]) + SolutionBlock(es[|es| - 1])
  }

  /** What `create_risk_list_presentation` returns for a dict whose `risks` value is `risks`. */
  function RiskListText(risks: Option<seq<Entry>>): string {
    if NoRisks(risks) then NoRisksMessage else RiskListHeader + Separator + RiskBlocks(risks.value)
  }

  /** What `create_solution_presentation` returns for a dict whose `risks` value is `risks`. */
  function SolutionListText(risks: Option<seq<Entry>>): string {
    if NoRisks(risks) then NoRisksMessage else SolutionListHeader + Separator + SolutionBlocks(risks.value)
  }

  /** `create_risk_list_presentation`; it has no `modifies` clause, so it leaves
      the dict and every record as they were. */
  method CreateRiskListPresentation(analysisResult: AnalysisResult) returns (text: string)
    ensures text == RiskListText(analysisResult.Value().risks)
  {
    text := RiskListHeader;
    text := text + Separator;
    var risks := analysisResult.risks;
    if risks.None? || risks.value.Length == 0 {
      return NoRisksMessage;
    }
    var list := risks.value;
    for i := 0 to list.Length
      invariant text == RiskListHeader + Separator + RiskBlocks(Values(list[..i]))
    {
      var risk := list[i];
      assert list[..i + 1][..i] == list[..i];
      var line1 := NumberedLine(i, risk.summary.GetOr(UnknownSummary));
      var line2 := TriggerLine(risk.trigger.GetOr(MissingTrigger));
      assert Values(list[..i + 1]) == Values(list[..i]) + [risk.Value()];
      assert RiskBlocks(Values(list[..i + 1])) == RiskBlocks(Values(list[..i])) + (line1 + line2);
      ConcatAssoc(RiskListHeader + Separator, RiskBlocks(Values(list[..i])), line1 + line2);
      ConcatAssoc(text, line1, line2);
      text := text + line1;
      text := text + line2;
    }
    assert list[..list.Length] == list[..];
  }

  /** `create_solution_presentation`; like the risk list, it changes nothing. */
  method CreateSolutionPresentation(analysisResult: AnalysisResult) returns (text: string)
    ensures text == SolutionListText(analysisResult.Value().risks)
  {
    text := SolutionListHeader;
    text := text + Separator;
    var risks := analysisResult.risks;
    if risks.None? || risks.value.Length == 0 {
      return NoRisksMessage;
    }
    var list := risks.value;
    for i := 0 to list.Length
      invariant text == SolutionListHeader + Separator + SolutionBlocks(Values(list[..i]))
    {
      var risk := list[i];
      assert list[..i + 1][..i] == list[..i];
      var riskSummary := risk.summary.GetOr(UnknownSummary);
      var solution := risk.solution.GetOr(DefaultSolution);
      var line1 := CheckedLine(riskSummary);
      var line2 := SolutionLine(solution);
      ConcatAssoc(SolutionListHeader + Separator, SolutionBlocks(Values(list[..i])), line1 + line2);
      ConcatAssoc(text, line1, line2);
      text := text + line1;
      text := text + line2;
    }
    assert list[..list.Length] == list[..];
  }

  /** Either text is the "no risks" message exactly when there is no risk to show. */
  lemma NoRisksMessageIff(risks: Option<seq<Entry>>)
    ensures RiskListText(risks) == NoRisksMessage <==> NoRisks(risks)
    ensures SolutionListText(risks) == NoRisksMessage <==> NoRisks(risks)
  {
    if !NoRisks(risks) {
      assert RiskListText(risks)[0] == '【' != NoRisksMessage[0];
      assert SolutionListText(risks)[0] == '【' != NoRisksMessage[0];
    }
  }

  /** Appending a risk to a non-empty list appends exactly its block to the risk list. */
  lemma RiskListAppend(es: seq<Entry>, e: Entry)
    requires es != []
    ensures RiskListText(Some(es + [e])) == RiskListText(Some(es)) + RiskBlock(|es|, e)
  {
    assert (es + [e])[..|es|] == es;
    ConcatAssoc(RiskListHeader + Separator, RiskBlocks(es), RiskBlock(|es|, e));
  }

  /** Appending a risk to a non-empty list appends exactly its block to the solution list. */
  lemma SolutionListAppend(es: seq<Entry>, e: Entry)
    requires es != []
    ensures SolutionListText(Some(es + [e])) == SolutionListText(Some(es)) + SolutionBlock(e)
  {
    assert (es + [e])[..|es|] == es;
    ConcatAssoc(SolutionListHeader + Separator, SolutionBlocks(es), SolutionBlock(e));
  }

  /** The blocks of the risk list, block `i` for risk `i`. */
  function RiskBlockList(es: seq<Entry>): seq<string> {
    seq(|es|, i requires 0 <= i < |es| => RiskBlock(i, es[i]))
  }

  /** The blocks of the solution list, one per risk. */
  function SolutionBlockList(es: seq<Entry>): seq<string> {
    seq(|es|, i requires 0 <= i < |es| => SolutionBlock(es[i]))
  }

  /** The risk list is the header, the separator and the blocks in list order, numbered from 1. */
  lemma {:induction false} RiskListLayout(es: seq<Entry>)
    requires es != []
    ensures RiskListText(Some(es)) == RiskListHeader + Separator + Join(RiskBlockList(es))
  {
    RiskBlocksJoin(es);
  }

  lemma {:induction false} RiskBlocksJoin(es: seq<Entry>)
    ensures RiskBlocks(es) == Join(RiskBlockList(es))
  {
    if es != [] {
      var n := |es|;
      RiskBlocksJoin(es[..n - 1]);
      assert RiskBlockList(es)[..n - 1] == RiskBlockList(es[..n - 1]);
    }
  }

  /** The solution list is the header, the separator and the blocks in list order. */
  lemma {:induction false} SolutionListLayout(es: seq<Entry>)
    requires es != []
    ensures SolutionListText(Some(es)) == SolutionListHeader + Separator + Join(SolutionBlockList(es))
  {
    SolutionBlocksJoin(es);
  }

  lemma {:induction false} SolutionBlocksJoin(es: seq<Entry>)
    ensures SolutionBlocks(es) == Join(SolutionBlockList(es))
  {
    if es != [] {
      var n := |es|;
      SolutionBlocksJoin(es[..n - 1]);
      assert SolutionBlockList(es)[..n - 1] == SolutionBlockList(es[..n - 1]);
    }
  }

  /** Block `i` opens with the decimal number `i + 1`, without a leading zero, and ". ". */
  lemma RiskBlockNumber(i: nat, e: Entry)
    ensures var d := NatToDecimal(i + 1);
      RiskBlock(i, e)[..|d| + 2] == d + ". " && DecimalValue(d) == i + 1 && d[0] != '0'
  {
    DecimalRoundTrip(i + 1);
  }

  /** Defaults replace only absent keys: a present but empty value is printed
      as the empty string, which differs from what an absent key prints. */
  lemma EmptyValueIsNotDefault(i: nat, e: Entry)
    ensures RiskBlock(i, e.(summary := Some(""))) != RiskBlock(i, e.(summary := None))
    ensures RiskBlock(i, e.(trigger := Some(""))) != RiskBlock(i, e.(trigger := None))
    ensures SolutionBlock(e.(summary := Some(""))) != SolutionBlock(e.(summary := None))
    ensures SolutionBlock(e.(solution := Some(""))) != SolutionBlock(e.(solution := None))
  {
    assert |RiskBlock(i, e.(summary := Some("")))| < |RiskBlock(i, e.(summary := None))|;
    assert |RiskBlock(i, e.(trigger := Some("")))| < |RiskBlock(i, e.(trigger := None))|;
    assert |SolutionBlock(e.(summary := Some("")))| < |SolutionBlock(e.(summary := None))|;
    assert |SolutionBlock(e.(solution := Some("")))| < |SolutionBlock(e.(solution := None))|;
  }
}
