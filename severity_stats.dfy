/** The "stats" block of a report: how many findings there are and how many carry each of
    the three severities. */
module SeverityStats {
  import opened Wrappers
  import opened Findings

  datatype Stats = Stats(total: nat, high: nat, medium: nat, low: nat)

  /** The number of findings whose severity is exactly `s` (a missing severity matches none). */
  function CountSeverity(xs: seq<Finding>, s: string): (n: nat)
    ensures n <= |xs|
  {
    if xs == [] then 0
    else CountSeverity(xs[..|xs| - 1], s) + (if xs[|xs| - 1].severity == Some(s) then 1 else 0)
  }

  /** The stats block: the total and the three severity counts, none above the total. */
  function ComputeStats(xs: seq<Finding>): (st: Stats)
    ensures st.total == |xs|
    ensures st.high <= st.total && st.medium <= st.total && st.low <= st.total
  {
    Stats(|xs|, CountSeverity(xs, "high"), CountSeverity(xs, "medium"), CountSeverity(xs, "low"))
  }

  /** A severity the stats block counts. */
  predicate Graded(f: Finding) {
    f.severity == Some("high") || f.severity == Some("medium") || f.severity == Some("low")
  }

  /** Counting is additive over concatenation. */
  lemma {:induction false} CountAppend(a: seq<Finding>, b: seq<Finding>, s: string)
    ensures CountSeverity(a + b, s) == CountSeverity(a, s) + CountSeverity(b, s)
  {
    if b == [] {
      assert a + b == a;
    } else {
      CountAppend(a, b[..|b| - 1], s);
      assert (a + b)[..|a + b| - 1] == a + b[..|b| - 1];
    }
  }

  /** The three buckets never exceed the total, and fill it exactly when every finding has
      one of the three severities. */
  lemma {:induction false} StatsTally(xs: seq<Finding>)
    ensures ComputeStats(xs).total == |xs|
    ensures ComputeStats(xs).high + ComputeStats(xs).medium + ComputeStats(xs).low <= ComputeStats(xs).total
    ensures ComputeStats(xs).high + ComputeStats(xs).medium + ComputeStats(xs).low == ComputeStats(xs).total
      <==> forall i :: 0 <= i < |xs| ==> Graded(xs[i])
  {
    if xs != [] {
      var init := xs[..|xs| - 1];
      StatsTally(init);
      if forall i :: 0 <= i < |xs| ==> Graded(xs[i]) {
        assert forall i :: 0 <= i < |init| ==> Graded(init[i]) by {
          forall i | 0 <= i < |init| ensures Graded(init[i]) {
            assert init[i] == xs[i];
          }
        }
      } else {
        var i :| 0 <= i < |xs| && !Graded(xs[i]);
        if i < |init| {
          assert !Graded(init[i]);
        }
      }
    }
  }
}
