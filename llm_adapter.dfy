/** What the scan keeps of the language model's answer: the text from the first '{' to the
    last '}' (the greedy search `({[\s\S]*})`), decoded as a result dictionary, or else the
    rule-based result. The model's text and the JSON decoder are inputs of the model. */
module LlmAdapter {
  import opened Wrappers
  import opened Registry
  import opened Findings
  import opened Scanner

  /** The first position of `ch` in `s`, if any. */
  function FirstIndexOf(s: string, ch: char): (r: Option<nat>)
    ensures r.Some? ==> r.value < |s| && s[r.value] == ch && forall k :: 0 <= k < r.value ==> s[k] != ch
    ensures r.None? ==> forall k :: 0 <= k < |s| ==> s[k] != ch
  {
    if s == [] then None
    else if s[0] == ch then Some(0)
    else match FirstIndexOf(s[1..], ch)
      case None => None
      case Some(i) => Some(i + 1)
  }

  /** The last position of `ch` in `s`, if any. */
  function LastIndexOf(s: string, ch: char): (r: Option<nat>)
    ensures r.Some? ==> r.value < |s| && s[r.value] == ch && forall k :: r.value < k < |s| ==> s[k] != ch
    ensures r.None? ==> forall k :: 0 <= k < |s| ==> s[k] != ch
  {
    if s == [] then None
    else if s[|s| - 1] == ch then Some(|s| - 1)
    else LastIndexOf(s[..|s| - 1], ch)
  }

  /** The bounds of what the greedy search matches: the first '{' and the last '}' after it.
      There is a match exactly when some '{' has a '}' somewhere after it. */
  function SpanBounds(s: string): (r: Option<(nat, nat)>)
    ensures r.Some? ==>
      && r.value.0 < r.value.1 < |s|
      && s[r.value.0] == '{' && s[r.value.1] == '}'
      && (forall k :: 0 <= k < r.value.0 ==> s[k] != '{')
      && (forall k :: r.value.1 < k < |s| ==> s[k] != '}')
    ensures r.None? <==> forall i, j :: 0 <= i < j < |s| && s[i] == '{' ==> s[j] != '}'
  {
    match (FirstIndexOf(s, '{'), LastIndexOf(s, '}'))
    case (Some(i), Some(j)) => if i < j then Some((i, j)) else None
    case _ => None
  }

  /** The text handed to the JSON decoder, if the search matched. */
  function JsonSpan(response: string): (r: Option<string>)
    ensures r.Some? <==> SpanBounds(response).Some?
    ensures r.Some? ==> r.value == response[SpanBounds(response).value.0..SpanBounds(response).value.1 + 1]
    ensures r.Some? ==> |r.value| >= 2 && r.value[0] == '{' && r.value[|r.value| - 1] == '}'
  {
    match SpanBounds(response)
    case None => None
    case Some((i, j)) => Some(response[i..j + 1])
  }

  /** The decoded answer, or None when there is no span or decoding fails (JSONDecodeError). */
  function LlmOutcome(response: string, decode: string -> Option<AnalysisResult>): Option<AnalysisResult> {
    match JsonSpan(response)
    case None => None
    case Some(span) => decode(span)
  }

  /** The result of analyze_with_llm: the decoded answer, or the rule-based result in its place. */
  function LlmResult(code: string, response: string, decode: string -> Option<AnalysisResult>,
                     matches: (Category, string) -> bool): AnalysisResult
  {
    LlmOutcome(response, decode).GetOr(RuleAnalysis(code, matches))
  }

  /** analyze_with_llm once the model has produced `response`. */
  method AnalyzeWithLlm(code: string, response: string, decode: string -> Option<AnalysisResult>,
                        matches: (Category, string) -> bool) returns (result: AnalysisResult)
    ensures result == LlmResult(code, response, decode, matches)
    ensures LlmOutcome(response, decode).None? ==> result == RuleAnalysis(code, matches)
    ensures LlmOutcome(response, decode).Some? ==> result == decode(JsonSpan(response).value).value
  {
    var jsonMatch := JsonSpan(response);
    if jsonMatch.Some? {
      var decoded := decode(jsonMatch.value);
      if decoded.Some? {
        return decoded.value;
      }
      result := RuleBasedAnalysis(code, matches);
    } else {
      result := RuleBasedAnalysis(code, matches);
    }
  }
}
