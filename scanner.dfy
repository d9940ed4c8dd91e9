/** The rule-based scanner (rule_based_analysis): every registry category is tried against
    every line, category by category, and each match yields one finding. */
module Scanner {
  import opened Wrappers
  import opened Registry
  import opened Text
  import opened Findings

  /** A match of category `category` on the 1-based line `line`. */
  datatype Hit = Hit(category: Category, line: nat)

  /** The matches of category `c` on the first `n` lines, in line order. */
  function LineHits(c: Category, lines: seq<string>, n: nat, matches: (Category, string) -> bool): seq<Hit>
    requires n <= |lines|
  {
    if n == 0 then []
    else LineHits(c, lines, n - 1, matches) + (if matches(c, lines[n - 1]) then [Hit(c, n)] else [])
  }

  /** The matches of the first `p` registry categories, category by category. */
  function PatternHits(lines: seq<string>, p: nat, matches: (Category, string) -> bool): seq<Hit>
    requires p <= |Patterns|
  {
    if p == 0 then []
    else PatternHits(lines, p - 1, matches) + LineHits(Patterns[p - 1], lines, |lines|, matches)
  }

  /** All matches in a contract text. */
  function Hits(code: string, matches: (Category, string) -> bool): seq<Hit> {
    PatternHits(Split(code), |Patterns|, matches)
  }

  /** The finding reported for a match, with its templated texts. */
  function Describe(h: Hit): (f: Finding)
    ensures f.kind.Some? && Named(f.kind.value) == Some(h.category)
    ensures KeyOf(f) == Key(Name(h.category), [h.line])
    ensures f.severity == Some("high") <==> h.category == Reentrancy || h.category == AccessControl
    ensures f.severity != Some("low")
  {
    Finding(
      Some(Name(h.category)),
      Some(DefaultSeverity(h.category)),
      Some("Potential " + Name(h.category) + " vulnerability detected"),
      Some([h.line]),
      Some("Review the code at line " + DecimalString(h.line) + " for potential " + Name(h.category) + " issues"))
  }

  function RuleFindings(code: string, matches: (Category, string) -> bool): seq<Finding> {
    var hits := Hits(code, matches);
    seq(|hits|, j requires 0 <= j < |hits| => Describe(hits[j]))
  }

  /** The overview of a rule-based result that found `n` findings. */
  function RuleOverview(n: nat): (s: string)
    ensures s != "Analysis complete"
    ensures 6 + |DecimalString(n)| <= |s| && s[6..6 + |DecimalString(n)|] == DecimalString(n)
    ensures ParseDecimal(s[6..6 + |DecimalString(n)|]) == n
  {
    var d := DecimalString(n);
    var s := "Found " + d + " potential vulnerabilities through pattern matching.";
    assert s[6..6 + |d|] == d;
    assert s[0] == 'F';
    ParseDecimalString(n);
    s
  }

  /** The result dictionary of the scanner. */
  function RuleAnalysis(code: string, matches: (Category, string) -> bool): AnalysisResult {
    var findings := RuleFindings(code, matches);
    AnalysisResult(Some(findings), Some(RuleOverview(|findings|)))
  }

  /** The scanner itself: nested loops over the registry and over the lines. `matches(c, line)`
      stands for a case-insensitive regular-expression search of c's pattern in the line. */
  method RuleBasedAnalysis(code: string, matches: (Category, string) -> bool) returns (result: AnalysisResult)
    ensures result == RuleAnalysis(code, matches)
  {
    var vulnerabilities: seq<Finding> := [];
    ghost var hits: seq<Hit> := [];
    var lines := Split(code);
    for p := 0 to |Patterns|
      invariant hits == PatternHits(lines, p, matches)
      invariant |vulnerabilities| == |hits|
      invariant forall j :: 0 <= j < |hits| ==> vulnerabilities[j] == Describe(hits[j])
    {
      var vulnType := Patterns[p];
      for i := 0 to |lines|
        invariant hits == PatternHits(lines, p, matches) + LineHits(vulnType, lines, i, matches)
        invariant |vulnerabilities| == |hits|
        invariant forall j :: 0 <= j < |hits| ==> vulnerabilities[j] == Describe(hits[j])
      {
        if matches(vulnType, lines[i]) {
          var description := "Potential " + Name(vulnType) + " vulnerability detected";
          var severity := "medium";
          if Name(vulnType) in ["reentrancy", "access_control"] {
            severity := "high";
          }
          var recommendation := "Review the code at line " + DecimalString(i + 1) + " for potential " + Name(vulnType) + " issues";
          var finding := Finding(Some(Name(vulnType)), Some(severity), Some(description), Some([i + 1]), Some(recommendation));
          assert finding == Describe(Hit(vulnType, i + 1));
          hits := hits + [Hit(vulnType, i + 1)];
          vulnerabilities := vulnerabilities + [finding];
        }
      }
    }
    assert vulnerabilities == RuleFindings(code, matches);
    result := AnalysisResult(Some(vulnerabilities), Some(RuleOverview(|vulnerabilities|)));
  }

  /** Registry order first, line order second. */
  predicate Before(a: Hit, b: Hit) {
    Index(a.category) < Index(b.category) || (a.category == b.category && a.line < b.line)
  }

  /** The match lies on an existing line, and its category's pattern matches that line. */
  predicate HitOn(h: Hit, lines: seq<string>, matches: (Category, string) -> bool) {
    1 <= h.line <= |lines| && matches(h.category, lines[h.line - 1])
  }

  predicate Ordered(hs: seq<Hit>) {
    forall i, j :: 0 <= i < j < |hs| ==> Before(hs[i], hs[j])
  }

  lemma {:induction false} LineHitsFacts(c: Category, lines: seq<string>, n: nat, matches: (Category, string) -> bool)
    requires n <= |lines|
    ensures forall h :: h in LineHits(c, lines, n, matches) ==> h.category == c && h.line <= n && HitOn(h, lines, matches)
    ensures forall i, j :: 0 <= i < j < |LineHits(c, lines, n, matches)| ==>
      LineHits(c, lines, n, matches)[i].line < LineHits(c, lines, n, matches)[j].line
    ensures forall i :: 0 <= i < n && matches(c, lines[i]) ==> Hit(c, i + 1) in LineHits(c, lines, n, matches)
  {
    if n > 0 {
      LineHitsFacts(c, lines, n - 1, matches);
    }
  }

  lemma {:induction false} PatternHitsSound(lines: seq<string>, p: nat, matches: (Category, string) -> bool)
    requires p <= |Patterns|
    ensures forall h :: h in PatternHits(lines, p, matches) ==> Index(h.category) < p && HitOn(h, lines, matches)
  {
    if p > 0 {
      PatternHitsSound(lines, p - 1, matches);
      LineHitsFacts(Patterns[p - 1], lines, |lines|, matches);
      IndexOfPattern(p - 1);
    }
  }

  lemma {:induction false} PatternHitsOrdered(lines: seq<string>, p: nat, matches: (Category, string) -> bool)
    requires p <= |Patterns|
    ensures Ordered(PatternHits(lines, p, matches))
  {
    if p > 0 {
      var c := Patterns[p - 1];
      var a, b := PatternHits(lines, p - 1, matches), LineHits(c, lines, |lines|, matches);
      PatternHitsOrdered(lines, p - 1, matches);
      PatternHitsSound(lines, p - 1, matches);
      LineHitsFacts(c, lines, |lines|, matches);
      IndexOfPattern(p - 1);
      var hs := a + b;
      forall i, j | 0 <= i < j < |hs|
        ensures Before(hs[i], hs[j])
      {
        if j < |a| {
          assert hs[i] == a[i] && hs[j] == a[j];
        } else if i < |a| {
          assert hs[i] == a[i] && a[i] in a;
          assert hs[j] == b[j - |a|] && b[j - |a|] in b;
        } else {
          assert hs[i] == b[i - |a|] && b[i - |a|] in b;
          assert hs[j] == b[j - |a|] && b[j - |a|] in b;
        }
      }
    }
  }

  lemma {:induction false} PatternHitsComplete(lines: seq<string>, p: nat, matches: (Category, string) -> bool)
    requires p <= |Patterns|
    ensures forall c, i :: Index(c) < p && 0 <= i < |lines| && matches(c, lines[i]) ==> Hit(c, i + 1) in PatternHits(lines, p, matches)
  {
    if p > 0 {
      var a, b := PatternHits(lines, p - 1, matches), LineHits(Patterns[p - 1], lines, |lines|, matches);
      PatternHitsComplete(lines, p - 1, matches);
      LineHitsFacts(Patterns[p - 1], lines, |lines|, matches);
      forall c, i | Index(c) < p && 0 <= i < |lines| && matches(c, lines[i])
        ensures Hit(c, i + 1) in a + b
      {
        if Index(c) < p - 1 {
          assert Hit(c, i + 1) in a;
        } else {
          assert c == Patterns[p - 1];
          assert Hit(c, i + 1) in b;
        }
      }
    }
  }

  /** Every match lies on an existing line (1 up to the number of '\n'-separated lines) on
      which its category's pattern matches. */
  lemma HitsSound(code: string, matches: (Category, string) -> bool)
    ensures forall h :: h in Hits(code, matches) ==> HitOn(h, Split(code), matches)
  {
    PatternHitsSound(Split(code), |Patterns|, matches);
  }

  /** Every line on which a category's pattern matches yields a match. */
  lemma HitsComplete(code: string, matches: (Category, string) -> bool)
    ensures forall c, i :: 0 <= i < |Split(code)| && matches(c, Split(code)[i]) ==> Hit(c, i + 1) in Hits(code, matches)
  {
    PatternHitsComplete(Split(code), |Patterns|, matches);
    forall c, i | 0 <= i < |Split(code)| && matches(c, Split(code)[i])
      ensures Hit(c, i + 1) in Hits(code, matches)
    {
      assert Index(c) < |Patterns|;
    }
  }

  /** Matches come in registry order, and by ascending line within a category; in particular
      no (category, line) pair occurs twice. */
  lemma HitsOrdered(code: string, matches: (Category, string) -> bool)
    ensures Ordered(Hits(code, matches))
    ensures forall i, j :: 0 <= i < j < |Hits(code, matches)| ==> Hits(code, matches)[i] != Hits(code, matches)[j]
  {
    PatternHitsOrdered(Split(code), |Patterns|, matches);
  }

  /** Each rule-based finding has its registry key as type, its single line as line list, and
      severity "high" exactly for reentrancy and access control, "medium" otherwise, never "low". */
  lemma RuleFindingsShape(code: string, matches: (Category, string) -> bool)
    ensures var hs, fs := Hits(code, matches), RuleFindings(code, matches);
      && |fs| == |hs|
      && forall j :: 0 <= j < |fs| ==>
        && fs[j].kind == Some(Name(hs[j].category))
        && fs[j].lineNumbers == Some([hs[j].line])
        && (fs[j].severity == Some("high") <==> hs[j].category in {Reentrancy, AccessControl})
        && (fs[j].severity == Some("medium") <==> hs[j].category !in {Reentrancy, AccessControl})
        && fs[j].severity != Some("low")
  {
  }

  /** Rule-based findings all carry a type, and no two share a (type, line list) key. */
  lemma RuleKeysDistinct(code: string, matches: (Category, string) -> bool)
    ensures AllTyped(RuleFindings(code, matches))
    ensures DistinctKeys(RuleFindings(code, matches))
  {
    var hs, fs := Hits(code, matches), RuleFindings(code, matches);
    HitsOrdered(code, matches);
  }

  lemma {:induction false} NoMatchNoHits(lines: seq<string>, p: nat, matches: (Category, string) -> bool)
    requires p <= |Patterns|
    requires forall c, i :: 0 <= i < |lines| ==> !matches(c, lines[i])
    ensures PatternHits(lines, p, matches) == []
  {
    if p > 0 {
      NoMatchNoHits(lines, p - 1, matches);
      NoMatchNoLineHits(Patterns[p - 1], lines, |lines|, matches);
    }
  }

  lemma {:induction false} NoMatchNoLineHits(c: Category, lines: seq<string>, n: nat, matches: (Category, string) -> bool)
    requires n <= |lines|
    requires forall i :: 0 <= i < |lines| ==> !matches(c, lines[i])
    ensures LineHits(c, lines, n, matches) == []
  {
    if n > 0 {
      NoMatchNoLineHits(c, lines, n - 1, matches);
    }
  }

  /** A text none of whose lines matches any pattern (the empty text, for the actual patterns)
      yields no finding, and its overview reports 0 findings. */
  lemma NoMatchNoFindings(code: string, matches: (Category, string) -> bool)
    requires forall c, i :: 0 <= i < |Split(code)| ==> !matches(c, Split(code)[i])
    ensures RuleAnalysis(code, matches) ==
      AnalysisResult(Some([]), Some(RuleOverview(0)))
    ensures RuleOverview(0) == "Found " + "0" + " potential vulnerabilities through pattern matching."
  {
    NoMatchNoHits(Split(code), |Patterns|, matches);
    assert RuleFindings(code, matches) == [];
    assert DigitChar(0) == '0';
    assert DecimalString(0) == "0";
  }

  /** Distinct counts give distinct overviews, and none is the literal "Analysis complete". */
  lemma RuleOverviewFacts(m: nat, n: nat)
    ensures RuleOverview(m) == RuleOverview(n) ==> m == n
    ensures RuleOverview(n) != "Analysis complete"
  {
    if RuleOverview(m) == RuleOverview(n) {
      var dm, dn := DecimalString(m), DecimalString(n);
      var suffix := " potential vulnerabilities through pattern matching.";
      assert |dm| == |dn|;
      assert dm == RuleOverview(m)[6..6 + |dm|];
      assert dn == RuleOverview(n)[6..6 + |dn|];
      ParseDecimalString(m);
      ParseDecimalString(n);
    }
    assert RuleOverview(n)[0] == 'F';
  }
}
