/**
 * The data the core passes around: the object `json.loads` returns for the
 * extraction response (a dict with a `risks` list of dicts), both as values
 * and as the mutable objects the annotation loop updates in place.
 */
module Records {
  import opened Wrappers

  /** The value of one element of the `risks` list. `None` means the key is
      absent. `others` holds every other key (`risk_category`, for one) with
      its JSON text; the core never reads or writes them. */
  datatype Entry = Entry(
    summary: Option<string>,    // "risk_summary"
    trigger: Option<string>,    // "trigger_phrase"
    solution: Option<string>,   // "recommended_solution"
    others: map<string, string>)

  /** The value of the parsed top-level object: `risks` is `None` when the
      key is absent (or null), and `others` holds the remaining keys. */
  datatype Document = Document(risks: Option<seq<Entry>>, others: map<string, string>)

  /** The `risks` value is falsy: the key is absent (or null) or the list is
      empty. Both `analysis_result.get("risks")` in the analyzer's guard and
      `analysis_result.get("risks", [])` in the renderers test this. */
  predicate NoRisks(risks: Option<seq<Entry>>) {
    risks.None? || risks.value == []
  }

  /** One risk dict, which the annotation loop updates in place. */
  class RiskRecord {
    var summary: Option<string>
    var trigger: Option<string>
    var solution: Option<string>
    var others: map<string, string>

    constructor (e: Entry)
      ensures Value() == e
    {
      summary, trigger, solution, others := e.summary, e.trigger, e.solution, e.others;
    }

    function Value(): Entry
      reads this
    {
      Entry(summary, trigger, solution, others)
    }
  }

  /** The values of a list of record objects, in list order. */
  function Values(rs: seq<RiskRecord>): (es: seq<Entry>)
    reads rs
    ensures |es| == |rs|
    ensures forall k :: 0 <= k < |rs| ==> es[k] == rs[k].Value()
  {
    if rs == [] then [] else Values(rs[..|rs| - 1]) + [rs[|rs| - 1].Value()]
  }

  /** No record object appears twice in the list. */
  predicate Distinct(rs: seq<RiskRecord>) {
    forall j, k :: 0 <= j < k < |rs| ==> rs[j] != rs[k]
  }

  /** The parsed top-level dict. */
  class AnalysisResult {
    var risks: Option<array<RiskRecord>>
    var others: map<string, string>

    constructor (risks: Option<array<RiskRecord>>, others: map<string, string>)
      ensures this.risks == risks && this.others == others
    {
      this.risks, this.others := risks, others;
    }

    /** The objects the value of this dict depends on. */
    function Repr(): set<object>
      reads this
    {
      if risks.None? then {} else {risks.value}
    }

    /** The record objects of the `risks` list. */
    function RecordObjects(): seq<RiskRecord>
      reads this, Repr()
    {
      if risks.None? then [] else risks.value[..]
    }

    function Value(): Document
      reads this, Repr(), RecordObjects()
    {
      Document(if risks.None? then None else Some(Values(risks.value[..])), others)
    }
  }

  /** The part of `json.loads` that builds the objects: a fresh dict per
      element of the `risks` list, a fresh list, a fresh top-level dict. */
  method Load(doc: Document) returns (result: AnalysisResult)
    ensures fresh(result)
    ensures result.risks.None? <==> doc.risks.None?
    ensures result.risks.Some? ==> fresh(result.risks.value) && Distinct(result.risks.value[..])
    ensures result.risks.Some? ==>
              forall k :: 0 <= k < result.risks.value.Length ==> fresh(result.risks.value[k])
    ensures result.Value() == doc
  {
    if doc.risks.None? {
      result := new AnalysisResult(None, doc.others);
      return;
    }
    var es := doc.risks.value;
    var rs: seq<RiskRecord> := [];
    for i := 0 to |es|
      invariant |rs| == i && Distinct(rs)
      invariant forall k :: 0 <= k < i ==> fresh(rs[k]) && rs[k].Value() == es[k]
    {
      var r := new RiskRecord(es[i]);
      rs := rs + [r];
    }
    var list := new RiskRecord[|rs|](k requires 0 <= k < |rs| => rs[k]);
    assert list[..] == rs;
    result := new AnalysisResult(Some(list), doc.others);
    assert Values(list[..]) == es;
  }
}
