/**
  The totals of a bundle: how often each result stands in its rows
  (conformance/src/lib/certification-bundle-v3.ts and certification-bundle-verify.ts).
 */
module Tally {

  datatype Totals = Totals(executedPass: int, executedFail: int, skipped: int, inapplicable: int, blocked: int)

  /** Where a result stands. */
  function Holding(results: seq<string>, result: string): set<nat> {
    set k: nat | k < |results| && results[k] == result
  }

  function TotalsOf(results: seq<string>): Totals {
    Totals(|Holding(results, "executed-pass")|, |Holding(results, "executed-fail")|, |Holding(results, "skipped")|,
           |Holding(results, "inapplicable")|, |Holding(results, "blocked")|)
  }

  method CountResult(results: seq<string>, result: string) returns (n: nat)
    ensures n == |Holding(results, result)|
  {
    n := 0;
    for i := 0 to |results|
      invariant n == |Holding(results[..i], result)|
    {
      HoldingStep(results, i, result);
      if results[i] == result { n := n + 1; }
    }
    assert results[..|results|] == results;
  }

  lemma HoldingStep(results: seq<string>, i: nat, result: string)
    requires i < |results|
    ensures i !in Holding(results[..i], result)
    ensures Holding(results[..i + 1], result)
         == Holding(results[..i], result) + if results[i] == result then {i} else {}
  {}

  method CountTotals(results: seq<string>) returns (t: Totals)
    ensures t == TotalsOf(results)
  {
    var pass := CountResult(results, "executed-pass");
    var fail := CountResult(results, "executed-fail");
    var skipped := CountResult(results, "skipped");
    var inapplicable := CountResult(results, "inapplicable");
    var blocked := CountResult(results, "blocked");
    t := Totals(pass, fail, skipped, inapplicable, blocked);
  }

  /** The number of places is the multiplicity. */
  lemma {:induction false} HoldingCounts(results: seq<string>, result: string)
    ensures |Holding(results, result)| == multiset(results)[result]
  {
    if results == [] {
      assert Holding(results, result) == {};
    } else {
      var last := |results| - 1;
      HoldingCounts(results[..last], result);
      HoldingStep(results, last, result);
      assert results[..last + 1] == results && results == results[..last] + [results[last]];
    }
  }

  /** Totals do not depend on the order of the results. */
  lemma TotalsIgnoreOrder(a: seq<string>, b: seq<string>)
    requires multiset(a) == multiset(b)
    ensures TotalsOf(a) == TotalsOf(b)
  {
    forall result
      ensures |Holding(a, result)| == |Holding(b, result)|
    {
      HoldingCounts(a, result);
      HoldingCounts(b, result);
    }
  }
}
