/** The scan request handler (scan_contract): both analyses, the merge, the overview and
    the stats block. */
module Pipeline {
  import opened Wrappers
  import opened Registry
  import opened Findings
  import opened Scanner
  import opened LlmAdapter
  import opened Reconcile
  import opened SeverityStats

  /** The response body of a successful scan. */
  datatype Report = Report(vulnerabilities: seq<Finding>, overview: string, stats: Stats)

  /** The model's overview whenever its result has the key, even when it is empty; otherwise
      the rule-based one; the literal "Analysis complete" only when neither has the key. */
  function ChooseOverview(llm: AnalysisResult, rule: AnalysisResult): (s: string)
    ensures llm.overview.Some? ==> s == llm.overview.value
    ensures llm.overview.None? && rule.overview.Some? ==> s == rule.overview.value
    ensures llm.overview.None? && rule.overview.None? ==> s == "Analysis complete"
  {
    llm.overview.GetOr(rule.overview.GetOr("Analysis complete"))
  }

  /** The second half of the handler: the merge of the two results' findings (the model's
      first), the overview and the stats block. */
  function Assemble(llm: AnalysisResult, rule: AnalysisResult): Result<Report, ScanError> {
    var combined := llm.vulnerabilities.GetOr([]) + rule.vulnerabilities.GetOr([]);
    if !AllTyped(combined) then Err(MissingType)
    else
      var merged := Dedup({}, combined);
      Ok(Report(merged, ChooseOverview(llm, rule), ComputeStats(merged)))
  }

  /** What a scan request yields. `request` is the "contract_code" of the request body, None
      when the body or the key is missing; `response` is the language model's text. */
  function ScanResult(request: Option<string>, response: string, decode: string -> Option<AnalysisResult>,
                      matches: (Category, string) -> bool): Result<Report, ScanError>
  {
    match request
    case None => Err(NoContractCode)
    case Some(code) => Assemble(LlmResult(code, response, decode, matches), RuleAnalysis(code, matches))
  }

  /** scan_contract, from the request body to the response. */
  method ScanContract(request: Option<string>, response: string, decode: string -> Option<AnalysisResult>,
                      matches: (Category, string) -> bool) returns (r: Result<Report, ScanError>)
    ensures r == ScanResult(request, response, decode, matches)
    ensures request.None? <==> r == Err(NoContractCode)
  {
    if request.None? {
      return Err(NoContractCode);
    }
    var contractCode := request.value;
    var llmResult := AnalyzeWithLlm(contractCode, response, decode, matches);
    var ruleResult := RuleBasedAnalysis(contractCode, matches);
    var merged := MergeFindings(llmResult.vulnerabilities.GetOr([]), ruleResult.vulnerabilities.GetOr([]));
    if merged.Err? {
      return Err(merged.error);
    }
    var combinedVulns := merged.value;
    r := Ok(Report(combinedVulns, ChooseOverview(llmResult, ruleResult), ComputeStats(combinedVulns)));
  }

  /** Assembling fails, with MissingType, exactly when a finding of either result lacks a type. */
  lemma AssembleErrors(llm: AnalysisResult, rule: AnalysisResult)
    ensures Assemble(llm, rule).Err? <==>
      !(AllTyped(llm.vulnerabilities.GetOr([])) && AllTyped(rule.vulnerabilities.GetOr([])))
    ensures Assemble(llm, rule).Err? ==> Assemble(llm, rule).error == MissingType
  {
    TypedAppend(llm.vulnerabilities.GetOr([]), rule.vulnerabilities.GetOr([]));
  }

  /** The merged list: no two entries share a key; every key of either input is present; it is
      the deduplicated model findings followed by the rule findings with new keys; for a key
      the model reported, the model's earliest entry, with its severity, description and
      recommendation, is what is kept, and every other entry is a rule finding. */
  lemma AssembleMerged(llm: AnalysisResult, rule: AnalysisResult)
    requires AllTyped(llm.vulnerabilities.GetOr([])) && AllTyped(rule.vulnerabilities.GetOr([]))
    ensures var r, lv, rv := Assemble(llm, rule), llm.vulnerabilities.GetOr([]), rule.vulnerabilities.GetOr([]);
      && r.Ok?
      && AllTyped(r.value.vulnerabilities)
      && DistinctKeys(r.value.vulnerabilities)
      && Keys(r.value.vulnerabilities) == Keys(lv) + Keys(rv)
      && r.value.vulnerabilities == Dedup({}, lv) + Dedup(Keys(lv), rv)
      && (forall j :: 0 <= j < |r.value.vulnerabilities| ==>
            var v := r.value.vulnerabilities[j];
            && (KeyOf(v) in Keys(lv) ==> v == lv[FirstIndex(lv, KeyOf(v))])
            && (KeyOf(v) !in Keys(lv) ==> v in rv))
  {
    var lv, rv := llm.vulnerabilities.GetOr([]), rule.vulnerabilities.GetOr([]);
    DedupAppend({}, lv, rv);
    assert {} + Keys(lv) == Keys(lv);
    MergeCoverage(lv, rv);
    MergePriority(lv, rv);
  }

  /** The overview is the model's whenever its result has an "overview" key, even an empty
      one, and the rule-based one otherwise; "Analysis complete" is used only when neither
      result has the key. */
  lemma AssembleOverview(llm: AnalysisResult, rule: AnalysisResult)
    requires Assemble(llm, rule).Ok?
    ensures llm.overview.Some? ==> Assemble(llm, rule).value.overview == llm.overview.value
    ensures llm.overview.None? && rule.overview.Some? ==> Assemble(llm, rule).value.overview == rule.overview.value
    ensures Assemble(llm, rule).value.overview == "Analysis complete" ==>
      llm.overview == Some("Analysis complete") ||
      (llm.overview.None? && rule.overview in {None, Some("Analysis complete")})
  {
  }

  /** The stats block counts the merged list: its total is the list's length, the three
      buckets add up to at most the total, and to exactly the total when every entry's
      severity is "high", "medium" or "low". */
  lemma AssembleStats(llm: AnalysisResult, rule: AnalysisResult)
    requires Assemble(llm, rule).Ok?
    ensures var rep := Assemble(llm, rule).value;
      && rep.stats.total == |rep.vulnerabilities|
      && rep.stats.high == CountSeverity(rep.vulnerabilities, "high")
      && rep.stats.medium == CountSeverity(rep.vulnerabilities, "medium")
      && rep.stats.low == CountSeverity(rep.vulnerabilities, "low")
      && rep.stats.high + rep.stats.medium + rep.stats.low <= rep.stats.total
      && (rep.stats.high + rep.stats.medium + rep.stats.low == rep.stats.total
          <==> forall i :: 0 <= i < |rep.vulnerabilities| ==> Graded(rep.vulnerabilities[i]))
  {
    StatsTally(Assemble(llm, rule).value.vulnerabilities);
  }

  /** When the model's result is the rule-based result itself, and the rule findings have
      distinct keys, the report is the rule findings unchanged, with the rule overview. */
  lemma AssembleSameResult(rule: seq<Finding>, overview: string)
    requires AllTyped(rule) && DistinctKeys(rule)
    ensures var r := AnalysisResult(Some(rule), Some(overview));
      Assemble(r, r) == Ok(Report(rule, overview, ComputeStats(rule)))
  {
    DedupAppend({}, rule, rule);
    assert {} + Keys(rule) == Keys(rule);
    DedupDistinctInput({}, rule);
    DedupAllSeen(Keys(rule), rule);
    assert rule + [] == rule;
  }

  /** A request fails only for a missing contract text, or for a model finding without a
      "type" key; the rule-based findings never make it fail. */
  lemma ScanErrors(request: Option<string>, response: string, decode: string -> Option<AnalysisResult>,
                   matches: (Category, string) -> bool)
    ensures request.None? ==> ScanResult(request, response, decode, matches) == Err(NoContractCode)
    ensures ScanResult(request, response, decode, matches) == Err(NoContractCode) <==> request.None?
    ensures request.Some? ==>
      (ScanResult(request, response, decode, matches).Ok? <==>
       AllTyped(LlmResult(request.value, response, decode, matches).vulnerabilities.GetOr([])))
    ensures request.Some? ==>
      (ScanResult(request, response, decode, matches) == Err(MissingType) <==>
       !AllTyped(LlmResult(request.value, response, decode, matches).vulnerabilities.GetOr([])))
  {
    if request.Some? {
      RuleKeysDistinct(request.value, matches);
      AssembleErrors(LlmResult(request.value, response, decode, matches), RuleAnalysis(request.value, matches));
    }
  }

  /** The response overview is the model's whenever its result has the key, and otherwise
      the rule-based overview, which always exists: "Analysis complete" is never chosen unless
      the model wrote it. */
  lemma ScanOverview(code: string, response: string, decode: string -> Option<AnalysisResult>,
                     matches: (Category, string) -> bool)
    ensures var r, llm := ScanResult(Some(code), response, decode, matches), LlmResult(code, response, decode, matches);
      r.Ok? ==>
        && (llm.overview.Some? ==> r.value.overview == llm.overview.value)
        && (llm.overview.None? ==> r.value.overview == RuleOverview(|RuleFindings(code, matches)|))
        && (r.value.overview == "Analysis complete" ==> llm.overview == Some("Analysis complete"))
  {
  }

  /** When the model's answer has no {...} span, or the span does not decode, the model's result
      is the rule-based result, and since rule-based keys are distinct the report is exactly
      the rule-based findings with their overview, and every finding is counted in a bucket. */
  lemma ScanFallback(code: string, response: string, decode: string -> Option<AnalysisResult>,
                     matches: (Category, string) -> bool)
    requires LlmOutcome(response, decode).None?
    ensures var fs := RuleFindings(code, matches);
      ScanResult(Some(code), response, decode, matches) == Ok(Report(fs, RuleOverview(|fs|), ComputeStats(fs)))
    ensures var st := ComputeStats(RuleFindings(code, matches));
      st.high + st.medium + st.low == st.total
  {
    var fs := RuleFindings(code, matches);
    RuleKeysDistinct(code, matches);
    AssembleSameResult(fs, RuleOverview(|fs|));
    RuleFindingsShape(code, matches);
    StatsTally(fs);
  }

  /** The empty contract with the model unavailable: no findings, the zero overview, zero stats
      (for any patterns, like the actual ones, that do not match the empty line). */
  lemma ScanEmptyContract(response: string, decode: string -> Option<AnalysisResult>,
                          matches: (Category, string) -> bool)
    requires LlmOutcome(response, decode).None?
    requires forall c :: !matches(c, "")
    ensures ScanResult(Some(""), response, decode, matches) == Ok(Report([], RuleOverview(0), Stats(0, 0, 0, 0)))
  {
    assert Text.Split("") == [""];
    NoMatchNoFindings("", matches);
    ScanFallback("", response, decode, matches);
  }
}
