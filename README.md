# Smart-contract scan pipeline, modelled in Dafny

This project models the scan pipeline of the smart-contract auditor's backend (`backend/app.py`).
A request carries a contract's source text. The pipeline does four things:

- It runs a rule-based scanner. The scanner tries each of nine vulnerability categories, in registry
  order, against every `'\n'`-separated line.
- It takes the language model's answer and keeps the text from its first `{` to its last `}`. That
  text is decoded as a result dictionary. When there is no such span, or decoding fails, the
  rule-based result is used in its place.
- It merges the model's findings (first) with the rule-based findings (second). A finding is
  dropped when its `(type, line_numbers)` key has already been seen.
- It picks an overview and counts the severities.

Two things are inputs of the model rather than code:

- The case-insensitive regular-expression search of a category's pattern in a line is the
  parameter `matches: (Category, string) -> bool`.
- The language model's text is the parameter `response`, and `json.loads` is the parameter
  `decode: string -> Option<AnalysisResult>`.

Findings are records whose every field is optional, because the model's dictionaries may lack
any key. The `type` key is the field `kind`.

Modules, leaf to root:

- `Wrappers`: `Option` and `Result`.
- `Registry`: the category table and its order.
- `Text`: `str.split('\n')` and `str(n)`.
- `Findings`: the records, the dedup key and the set of keys of a list.
- `Scanner`: `rule_based_analysis`.
- `LlmAdapter`: the span extraction and fallback of `analyze_with_llm`.
- `Reconcile`: the merge loops.
- `SeverityStats`: the stats block.
- `Pipeline`: `scan_contract`.

The model follows the code, including where it departs from what a reader might expect:

- Rule findings are ordered by category first and by line second. The outer loop runs over the
  registry and the inner loop over the lines.
- The overview is the model's whenever its dictionary has an `overview` key, even an empty one.
- The literal fallback is `"Analysis complete"`, with no period. It cannot be reached, because
  the rule-based overview is always present (`Pipeline.ScanOverview`).
- When no span is found or the span does not decode, `analyze_with_llm` returns the
  rule-based result (backend/app.py:96, 99), so the merge sees every rule finding twice. The merged list
  is still exactly the rule-based list (`Pipeline.ScanFallback`).
- A model finding without a `type` key makes the handler raise a KeyError.
  The model returns the error `MissingType` (`Pipeline.ScanErrors`).
- The rule-based overview, `Found N potential vulnerabilities through pattern matching.`, ends
  with a period.

## Model

| member | source | states |
|---|---|---|
| `Registry.Name` | backend/app.py:24-34 | the registry key of a category names that category back, so the nine keys are distinct |
| `Registry.Index` | backend/app.py:24-34 | every category is in the registry, at the position that its index gives |
| `Registry.IndexOfPattern` | backend/app.py:24-34 | each registry position holds the category whose index it is, so no category appears twice |
| `Registry.DefaultSeverity` | backend/app.py:113-117 | the severity is "high" exactly for reentrancy and access_control, and "medium" for every other category |
| `Text.Split` | backend/app.py:107 | `split('\n')` gives the number of newlines plus one pieces, none of which contains a newline |
| `Text.JoinSplit` | backend/app.py:107 | joining the split lines with newlines gives back the original text |
| `Text.SplitJoin` | backend/app.py:107 | newline-free lines are recovered exactly by splitting their join |
| `Text.DecimalString` | backend/app.py:119 | `str(n)` is a non-empty string of digits with no leading zero |
| `Text.ParseDecimalString` | backend/app.py:119 | `str(n)` reads back as n, so distinct line numbers and counts render differently |
| `Scanner.Describe` | backend/app.py:112-127 | a match's finding has the registry key of its category as type and `[k]` as line numbers; its severity is "high" iff the category is reentrancy or access_control, and never "low" |
| `Scanner.RuleOverview` | backend/app.py:131 | the overview is never "Analysis complete", and the digits after "Found " read back as the count (distinct counts are `Scanner.RuleOverviewFacts`) |
| `Findings.KeyOf` | backend/app.py:153-159 | the dedup key is the finding's type with its line numbers, a missing `line_numbers` reading as the empty list |
| `Scanner.RuleBasedAnalysis` | backend/app.py:102-132 | the nested loops build exactly the templated finding for each match in registry-then-line order, plus the counting overview |
| `Scanner.LineHitsFacts` | backend/app.py:110-111 | the matches of one category are on lines 1..n where its pattern matches, in ascending line order, and no matching line is missed |
| `Scanner.HitsSound` | backend/app.py:107-111 | every finding's line k satisfies 1 <= k <= the number of lines, and the category's pattern matches line k |
| `Scanner.HitsComplete` | backend/app.py:109-111 | every line on which a category's pattern matches yields a finding for that category and line |
| `Scanner.HitsOrdered` | backend/app.py:109-111 | findings are ordered by registry position and then by ascending line, so no (category, line) pair appears twice |
| `Scanner.RuleFindingsShape` | backend/app.py:112-127 | each finding has the registry key as type and `[k]` as line numbers; its severity is "high" iff the category is reentrancy or access_control, "medium" otherwise, and never "low" |
| `Scanner.RuleKeysDistinct` | backend/app.py:121-127 | rule findings all have a type, and no two share a (type, line_numbers) key |
| `Scanner.NoMatchNoFindings` | backend/app.py:104-132 | a text with no matching line yields no findings and the overview "Found 0 potential vulnerabilities through pattern matching." |
| `Scanner.RuleOverviewFacts` | backend/app.py:131 | different counts give different rule overviews, and no rule overview equals "Analysis complete" |
| `LlmAdapter.FirstIndexOf` | backend/app.py:89 | the first position of a character, or none when the character does not occur |
| `LlmAdapter.LastIndexOf` | backend/app.py:89 | the last position of a character, or none when the character does not occur |
| `LlmAdapter.SpanBounds` | backend/app.py:89-90 | the search matches iff some `{` has a `}` after it; the match runs from the first `{` to the last `}` |
| `LlmAdapter.JsonSpan` | backend/app.py:89-91 | the text handed to the decoder is that slice of the response, and it starts with `{` and ends with `}` |
| `LlmAdapter.AnalyzeWithLlm` | backend/app.py:86-99 | the result is the decoded span when the decoder succeeds; with no span, or a failed decode, it is the rule-based result |
| `Reconcile.Dedup` | backend/app.py:149-162 | the merged list keeps only typed entries and no more than its input; what it keeps is characterised by `Reconcile.DedupKeys`, `Reconcile.DedupDistinct` and `Reconcile.DedupKeepsFirst` |
| `Reconcile.DedupAppend` | backend/app.py:149-162 | deduplicating `a + b` is deduplicating `a`, followed by `b` deduplicated against a's keys |
| `Reconcile.DedupKeys` | backend/app.py:149-162 | the kept entries carry exactly the input keys that were not already seen |
| `Reconcile.DedupDistinct` | backend/app.py:149-162 | no two kept entries share a key, and no kept entry has a key already seen |
| `Reconcile.DedupDistinctInput` | backend/app.py:149-162 | an input with no repeated or already-seen key is kept whole and in order |
| `Reconcile.DedupAllSeen` | backend/app.py:158-162 | an input whose keys were all seen contributes nothing |
| `Reconcile.FirstIndex` | backend/app.py:152-156 | the earliest position of an input that carries a given key |
| `Reconcile.DedupKeepsFirst` | backend/app.py:149-162 | each kept entry is the earliest input entry with its key, and kept entries follow the order of those earliest positions |
| `Reconcile.MergePriority` | backend/app.py:149-162 | for a key of the model's findings, the merged entry is the model's earliest entry with that key, with its severity, description and recommendation; any other entry comes from the rule findings |
| `Reconcile.MergeCoverage` | backend/app.py:149-162 | the merged list has no repeated key and carries every key of both inputs |
| `Reconcile.AppendUnseen` | backend/app.py:152-162 | one loop appends the unseen entries and marks their keys as seen; a missing type is the error |
| `Reconcile.MergeFindings` | backend/app.py:149-162 | the two loops yield the deduplicated concatenation, model findings first; they fail iff some entry lacks a type |
| `SeverityStats.CountSeverity` | backend/app.py:169-171 | a severity count never exceeds the number of findings |
| `SeverityStats.ComputeStats` | backend/app.py:167-172 | total is the number of findings and no bucket exceeds it; the sum of the buckets is `SeverityStats.StatsTally` |
| `SeverityStats.CountAppend` | backend/app.py:169-171 | severity counts add up over concatenation |
| `SeverityStats.StatsTally` | backend/app.py:167-172 | total is the length; high + medium + low <= total, with equality iff every severity is "high", "medium" or "low" |
| `Pipeline.ScanContract` | backend/app.py:136-175 | the handler's response: the error for a missing contract text, and otherwise the assembled report of the model result and the rule result |
| `Pipeline.ChooseOverview` | backend/app.py:166 | the model's overview when its key is present, else the rule overview when present, else "Analysis complete" |
| `Pipeline.AssembleErrors` | backend/app.py:152-162 | assembling fails, with the missing-type error, exactly when some finding of either result lacks a type |
| `Pipeline.AssembleMerged` | backend/app.py:149-165 | a missing `vulnerabilities` key counts as an empty list; the report's list has distinct keys and carries every input key; it is the deduplicated model findings followed by the new rule findings; a key the model reported keeps the model's earliest entry, and every other entry is a rule finding |
| `Pipeline.AssembleOverview` | backend/app.py:166 | the overview is the model's whenever that key is present, even when empty, and otherwise the rule overview; "Analysis complete" is used only when neither result has the key |
| `Pipeline.AssembleStats` | backend/app.py:167-172 | the stats count the merged list: total is its length, and the three buckets sum to at most the total, exactly the total iff every severity is graded |
| `Pipeline.AssembleSameResult` | backend/app.py:149-162 | when the model result is the rule result itself, with distinct keys, the report's list is the rule list unchanged |
| `Pipeline.ScanErrors` | backend/app.py:139-162 | a request fails with the no-code error exactly when the contract text is missing, and with the missing-type error exactly when a model finding lacks a type; with the text present, it succeeds exactly when every model finding has a type, so rule findings never cause a failure |
| `Pipeline.ScanOverview` | backend/app.py:166 | a successful report's overview is the model's when present and otherwise the rule overview, so "Analysis complete" appears only if the model wrote it |
| `Pipeline.ScanFallback` | backend/app.py:89-99 | with no span or a failed decode, the report is exactly the rule findings with the rule overview, and every finding is counted in a bucket |
| `Pipeline.ScanEmptyContract` | backend/app.py:107-132 | the empty contract, with the model unavailable and patterns that do not match the empty line, gives no findings, the zero overview and zero stats |

## Left out

- The nine regular expressions and `re.search(..., re.IGNORECASE)` are not modelled. Whether a
  category matches a line is the input `matches`, because the regex engine is a library.
- `json.loads` is the input `decode`, because a JSON parser is a library. Only the choice of the
  `{...}` span is specified.
- Decoded values of the wrong JSON type are not modelled. Examples: a non-dictionary finding, a
  non-string `type` or `severity`, a non-list `line_numbers`. Decoded results are typed records.
- Exceptions other than JSONDecodeError from the decoder are not modelled (for example a
  RecursionError). The source does not catch them.
- Prompt construction, tokenization, `model.generate` and sampling are not modelled. They are
  foreign, nondeterministic, floating-point calls; their output is the input `response`.
- Flask routing, CORS, `jsonify`, HTTP status codes, the health endpoint, model loading and
  `app.run` are not modelled. The 400 response is the error `NoContractCode`. The KeyError that
  becomes a 500 response is the error `MissingType`.
- The request body is reduced to its `contract_code` value: `None` when the body or the key is
  missing, otherwise a string.
- A request body that is not a dictionary, and a `contract_code` that is not a string (JSON
  `null`, a number, a list), are not modelled. The source raises on them: a number or `true`
  at the `in` test (backend/app.py:139), a list or string body at the subscript
  (backend/app.py:142), a non-string value at `split` (backend/app.py:107). Each is a 500
  response, so `Pipeline.ScanErrors` holds only for well-typed requests.
- The dedup key is the pair (type, line numbers), where missing line numbers read as `[]`. The
  source uses the string `f"{type}-{line_numbers}"`. For a string type and a list of integers
  that string is injective (the list's text contains no `-[`, so the last `-[` splits it), so
  the pair is exact for the values the model represents. Collisions need badly typed values
  (`1` against `"1"`, `"[1]"` against `[1]`, `null`), which are left out above.
- Keys of a model finding other than `type`, `severity`, `description`, `line_numbers` and
  `recommendation` are forwarded unchanged by backend/app.py:156 but are not part of the
  `Finding` record, so the model does not carry them.
- Reconcile.MergeFindings: the source writes the same loop body twice. The model writes it once,
  as `AppendUnseen`, and calls it on each list with the same seen set and output list.
- The rule-based scanner runs again inside `analyze_with_llm` on fallback. The model computes
  the same pure result, so running it twice is not visible.
- Scanner.NoMatchNoFindings: the overview is stated as `RuleOverview(0)`, which is
  `"Found " + "0" + " potential vulnerabilities through pattern matching."`. It is not compared
  with the full literal.
- fine_tune.py is model-training glue with no link to the scan path. It is not part of this model.
- frontend/script.js is presentation and a fetch client. It is not part of this model.
