/** The records that flow through a scan request. */
module Findings {
  import opened Wrappers

  /** One entry of a "vulnerabilities" list. Entries from the language model are loosely
      structured dictionaries, so every key may be missing; `kind` is the "type" key. */
  datatype Finding = Finding(
    kind: Option<string>,
    severity: Option<string>,
    description: Option<string>,
    lineNumbers: Option<seq<int>>,
    recommendation: Option<string>)

  /** A result dictionary with its two keys, each possibly missing. */
  datatype AnalysisResult = AnalysisResult(vulnerabilities: Option<seq<Finding>>, overview: Option<string>)

  /** The identity under which two findings count as the same one: the type and the line
      numbers, a missing line list reading as the empty list. */
  datatype Key = Key(kind: string, lineNumbers: seq<int>)

  /** Why a scan request yields no report: the request carries no contract text, or a
      finding lacks its "type" key (a KeyError in the request handler). */
  datatype ScanError = NoContractCode | MissingType

  predicate AllTyped(xs: seq<Finding>) {
    forall i :: 0 <= i < |xs| ==> xs[i].kind.Some?
  }

  function KeyOf(f: Finding): (k: Key)
    requires f.kind.Some?
    ensures k.kind == f.kind.value
    ensures f.lineNumbers.Some? ==> k.lineNumbers == f.lineNumbers.value
    ensures k.lineNumbers == [] <==> f.lineNumbers.None? || f.lineNumbers == Some([])
  {
    Key(f.kind.value, f.lineNumbers.GetOr([]))
  }

  /** The keys carried by a list of findings. */
  function Keys(xs: seq<Finding>): set<Key>
    requires AllTyped(xs)
  {
    if xs == [] then {} else Keys(xs[..|xs| - 1]) + {KeyOf(xs[|xs| - 1])}
  }

  /** No two entries share a key. */
  predicate DistinctKeys(xs: seq<Finding>)
    requires AllTyped(xs)
  {
    forall i, j :: 0 <= i < j < |xs| ==> KeyOf(xs[i]) != KeyOf(xs[j])
  }

  /** A key is carried by the list exactly when some entry has it. */
  lemma {:induction false} KeysMember(xs: seq<Finding>, k: Key)
    requires AllTyped(xs)
    ensures k in Keys(xs) <==> exists i :: 0 <= i < |xs| && KeyOf(xs[i]) == k
  {
    if xs != [] {
      var init := xs[..|xs| - 1];
      KeysMember(init, k);
      if k in Keys(init) {
        var i :| 0 <= i < |init| && KeyOf(init[i]) == k;
        assert KeyOf(xs[i]) == k;
      }
    }
  }

  lemma {:induction false} KeysAppend(a: seq<Finding>, b: seq<Finding>)
    requires AllTyped(a) && AllTyped(b)
    ensures AllTyped(a + b) && Keys(a + b) == Keys(a) + Keys(b)
  {
    if b != [] {
      var init := b[..|b| - 1];
      KeysAppend(a, init);
      assert (a + b)[..|a + b| - 1] == a + init;
    } else {
      assert a + b == a;
    }
  }

  /** A concatenation is typed exactly when both parts are. */
  lemma TypedAppend(a: seq<Finding>, b: seq<Finding>)
    ensures AllTyped(a + b) <==> AllTyped(a) && AllTyped(b)
  {
    if AllTyped(a + b) {
      forall i | 0 <= i < |a| ensures a[i].kind.Some? {
        assert (a + b)[i] == a[i];
      }
      forall i | 0 <= i < |b| ensures b[i].kind.Some? {
        assert (a + b)[|a| + i] == b[i];
      }
    }
  }
}
