/** The merge of the model's findings with the rule-based ones: one pass over each list,
    keeping an entry only when its (type, line numbers) key has not been seen yet. */
module Reconcile {
  import opened Wrappers
  import opened Findings

  /** The entries of `xs` whose key is neither in `seen` nor carried by an earlier entry,
      in their order in `xs`. */
  function Dedup(seen: set<Key>, xs: seq<Finding>): (r: seq<Finding>)
    requires AllTyped(xs)
    ensures AllTyped(r) && |r| <= |xs|
  {
    if xs == [] then []
    else
      var init, x := xs[..|xs| - 1], xs[|xs| - 1];
      Dedup(seen, init) + (if KeyOf(x) in seen + Keys(init) then [] else [x])
  }

  /** One more entry: it is kept exactly when its key is new. */
  lemma DedupSnoc(seen: set<Key>, xs: seq<Finding>, x: Finding)
    requires AllTyped(xs) && x.kind.Some?
    ensures AllTyped(xs + [x])
    ensures Keys(xs + [x]) == Keys(xs) + {KeyOf(x)}
    ensures Dedup(seen, xs + [x]) == Dedup(seen, xs) + (if KeyOf(x) in seen + Keys(xs) then [] else [x])
  {
    assert (xs + [x])[..|xs|] == xs;
  }

  /** Deduplicating a concatenation is deduplicating the first part, then the second part
      against the keys of the first. */
  lemma {:induction false} DedupAppend(seen: set<Key>, a: seq<Finding>, b: seq<Finding>)
    requires AllTyped(a) && AllTyped(b)
    ensures AllTyped(a + b)
    ensures Dedup(seen, a + b) == Dedup(seen, a) + Dedup(seen + Keys(a), b)
  {
    if b == [] {
      assert a + b == a;
    } else {
      var init, y := b[..|b| - 1], b[|b| - 1];
      DedupAppend(seen, a, init);
      KeysAppend(a, init);
      assert (a + b)[..|a + b| - 1] == a + init;
      assert (a + b)[|a + b| - 1] == y;
    }
  }

  /** The kept entries carry exactly the keys of the input that were not seen before. */
  lemma {:induction false} DedupKeys(seen: set<Key>, xs: seq<Finding>)
    requires AllTyped(xs)
    ensures Keys(Dedup(seen, xs)) == Keys(xs) - seen
  {
    if xs != [] {
      var init, x := xs[..|xs| - 1], xs[|xs| - 1];
      DedupKeys(seen, init);
      var tail := if KeyOf(x) in seen + Keys(init) then [] else [x];
      KeysAppend(Dedup(seen, init), tail);
      if tail != [] {
        assert tail[..0] == [];
      }
    }
  }

  /** No two kept entries share a key, and no kept entry has a key in `seen`. */
  lemma {:induction false} DedupDistinct(seen: set<Key>, xs: seq<Finding>)
    requires AllTyped(xs)
    ensures DistinctKeys(Dedup(seen, xs))
    ensures forall j :: 0 <= j < |Dedup(seen, xs)| ==> KeyOf(Dedup(seen, xs)[j]) !in seen
  {
    if xs != [] {
      var init, x := xs[..|xs| - 1], xs[|xs| - 1];
      DedupDistinct(seen, init);
      var d := Dedup(seen, init);
      if KeyOf(x) !in seen + Keys(init) {
        DedupKeys(seen, init);
        var r := d + [x];
        forall i, j | 0 <= i < j < |r|
          ensures KeyOf(r[i]) != KeyOf(r[j])
        {
          if j == |d| {
            KeysMember(d, KeyOf(r[i]));
            assert KeyOf(d[i]) in Keys(d);
          } else {
            assert r[i] == d[i] && r[j] == d[j];
          }
        }
      }
    }
  }

  /** An input without repeated keys, none of them seen, is kept whole. */
  lemma {:induction false} DedupDistinctInput(seen: set<Key>, xs: seq<Finding>)
    requires AllTyped(xs) && DistinctKeys(xs) && Keys(xs) !! seen
    ensures Dedup(seen, xs) == xs
  {
    if xs != [] {
      var init, x := xs[..|xs| - 1], xs[|xs| - 1];
      assert DistinctKeys(init) by {
        forall i, j | 0 <= i < j < |init| ensures KeyOf(init[i]) != KeyOf(init[j]) {
          assert init[i] == xs[i] && init[j] == xs[j];
        }
      }
      KeysAppend(init, [x]);
      assert init + [x] == xs;
      assert [x][..0] == [];
      DedupDistinctInput(seen, init);
      KeysMember(init, KeyOf(x));
    }
  }

  /** An input whose keys have all been seen contributes nothing. */
  lemma {:induction false} DedupAllSeen(seen: set<Key>, xs: seq<Finding>)
    requires AllTyped(xs) && Keys(xs) <= seen
    ensures Dedup(seen, xs) == []
  {
    if xs != [] {
      DedupAllSeen(seen, xs[..|xs| - 1]);
    }
  }

  /** The position of the earliest entry of `xs` with key `k`. */
  function FirstIndex(xs: seq<Finding>, k: Key): (i: nat)
    requires AllTyped(xs) && k in Keys(xs)
    ensures i < |xs| && KeyOf(xs[i]) == k
    ensures forall j :: 0 <= j < i ==> KeyOf(xs[j]) != k
  {
    var init := xs[..|xs| - 1];
    if k in Keys(init) then FirstIndex(init, k) else (KeysMember(init, k); |xs| - 1)
  }

  /** Each kept entry is the earliest entry of the input with its key, and the kept entries
      appear in the order of those earliest positions. */
  lemma {:induction false} DedupKeepsFirst(seen: set<Key>, xs: seq<Finding>)
    requires AllTyped(xs)
    ensures forall j :: 0 <= j < |Dedup(seen, xs)| ==>
      KeyOf(Dedup(seen, xs)[j]) in Keys(xs) && Dedup(seen, xs)[j] == xs[FirstIndex(xs, KeyOf(Dedup(seen, xs)[j]))]
    ensures forall i, j :: 0 <= i < j < |Dedup(seen, xs)| ==>
      FirstIndex(xs, KeyOf(Dedup(seen, xs)[i])) < FirstIndex(xs, KeyOf(Dedup(seen, xs)[j]))
  {
    if xs != [] {
      var init, x := xs[..|xs| - 1], xs[|xs| - 1];
      DedupKeepsFirst(seen, init);
      var d := Dedup(seen, init);
      KeysAppend(init, [x]);
      assert init + [x] == xs;
      assert [x][..0] == [];
      assert Keys(xs) == Keys(init) + {KeyOf(x)};
      var r := Dedup(seen, xs);
      assert r == d + (if KeyOf(x) in seen + Keys(init) then [] else [x]);
      forall j | 0 <= j < |r|
        ensures KeyOf(r[j]) in Keys(xs) && r[j] == xs[FirstIndex(xs, KeyOf(r[j]))]
        ensures j < |d| ==> FirstIndex(xs, KeyOf(r[j])) == FirstIndex(init, KeyOf(d[j])) < |init|
        ensures j == |d| ==> FirstIndex(xs, KeyOf(r[j])) == |init|
      {
        var k := KeyOf(r[j]);
        if j < |d| {
          assert r[j] == d[j];
          assert k in Keys(init);
          assert FirstIndex(xs, k) == FirstIndex(init, k);
          assert xs[FirstIndex(init, k)] == init[FirstIndex(init, k)];
        } else {
          assert r[j] == x;
          assert k !in Keys(init);
          assert FirstIndex(xs, k) == |xs| - 1;
        }
      }
    }
  }

  /** The merged list of two inputs: for a key of the first input the earliest entry of the
      first input with that key, and otherwise an entry of the second input. */
  lemma MergePriority(a: seq<Finding>, b: seq<Finding>)
    requires AllTyped(a) && AllTyped(b)
    ensures AllTyped(a + b)
    ensures var v := Dedup({}, a + b);
      forall j :: 0 <= j < |v| ==>
        && (KeyOf(v[j]) in Keys(a) ==> v[j] == a[FirstIndex(a, KeyOf(v[j]))])
        && (KeyOf(v[j]) !in Keys(a) ==> v[j] in b)
  {
    DedupAppend({}, a, b);
    assert {} + Keys(a) == Keys(a);
    DedupKeepsFirst({}, a);
    DedupKeepsFirst(Keys(a), b);
    DedupDistinct(Keys(a), b);
    var v, d1, d2 := Dedup({}, a + b), Dedup({}, a), Dedup(Keys(a), b);
    forall j | 0 <= j < |v|
      ensures KeyOf(v[j]) in Keys(a) ==> v[j] == a[FirstIndex(a, KeyOf(v[j]))]
      ensures KeyOf(v[j]) !in Keys(a) ==> v[j] in b
    {
      if j < |d1| {
        assert v[j] == d1[j];
      } else {
        assert v[j] == d2[j - |d1|];
      }
    }
  }

  /** The merged list of two inputs has no repeated key and carries every key of both. */
  lemma MergeCoverage(a: seq<Finding>, b: seq<Finding>)
    requires AllTyped(a) && AllTyped(b)
    ensures AllTyped(a + b)
    ensures DistinctKeys(Dedup({}, a + b))
    ensures Keys(Dedup({}, a + b)) == Keys(a) + Keys(b)
  {
    KeysAppend(a, b);
    DedupDistinct({}, a + b);
    DedupKeys({}, a + b);
  }

  /** One pass of the merge over `vulns`: an entry is appended, and its key marked seen,
      when the key is not yet seen. An entry without a "type" key raises (a KeyError). */
  method AppendUnseen(seen: set<Key>, combined: seq<Finding>, vulns: seq<Finding>)
    returns (r: Result<(set<Key>, seq<Finding>), ScanError>)
    ensures r.Err? <==> !AllTyped(vulns)
    ensures r.Err? ==> r.error == MissingType
    ensures r.Ok? ==> AllTyped(vulns) && r.value == (seen + Keys(vulns), combined + Dedup(seen, vulns))
  {
    var seenVulns, combinedVulns := seen, combined;
    for i := 0 to |vulns|
      invariant AllTyped(vulns[..i])
      invariant seenVulns == seen + Keys(vulns[..i])
      invariant combinedVulns == combined + Dedup(seen, vulns[..i])
    {
      var vuln := vulns[i];
      if vuln.kind.None? {
        return Err(MissingType);
      }
      var key := KeyOf(vuln);
      assert vulns[..i + 1] == vulns[..i] + [vuln];
      DedupSnoc(seen, vulns[..i], vuln);
      if key !in seenVulns {
        seenVulns := seenVulns + {key};
        combinedVulns := combinedVulns + [vuln];
      }
    }
    assert vulns[..|vulns|] == vulns;
    return Ok((seenVulns, combinedVulns));
  }

  /** The merge step of the request handler: the model's entries first, then the rule-based
      ones, through one seen-key set. */
  method MergeFindings(first: seq<Finding>, second: seq<Finding>) returns (r: Result<seq<Finding>, ScanError>)
    ensures r.Err? <==> !AllTyped(first + second)
    ensures r.Err? ==> r.error == MissingType
    ensures r.Ok? ==> AllTyped(first + second) && r.value == Dedup({}, first + second)
  {
    TypedAppend(first, second);
    var afterFirst := AppendUnseen({}, [], first);
    if afterFirst.Err? {
      return Err(afterFirst.error);
    }
    var (seenVulns, combinedVulns) := afterFirst.value;
    var afterSecond := AppendUnseen(seenVulns, combinedVulns, second);
    if afterSecond.Err? {
      return Err(afterSecond.error);
    }
    DedupAppend({}, first, second);
    assert {} + Keys(first) == Keys(first);
    return Ok(afterSecond.value.1);
  }
}
