/**
  The trajectory grader (conformance/src/lib/eval-trajectory.ts): the four match modes,
  `forbidden`, `argsMatch`, and the mode-independent `matchedCount`.
 */
module Trajectory {
  import opened Wrappers
  import opened Json
  import opened JsonMatch
  import opened Matching
  import opened Seqs

  datatype ArgsMatch = Ignore | Exact | Subset
  datatype MatchMode = ExactMode | InOrderMode | AnyOrderMode | SubsetMode
  datatype ExpectedCall = ExpectedCall(tool: string, args: Option<Json>, argsMatch: Option<ArgsMatch>)
  datatype ObservedCall = ObservedCall(tool: string, inputs: Option<Json>)
  datatype Spec = Spec(mode: MatchMode, calls: seq<ExpectedCall>, forbidden: Option<seq<string>>)
  datatype Grade = Grade(
    mode: MatchMode, matched: bool, expectedCount: nat, observedCount: nat, matchedCount: nat, forbiddenCount: nat)

  predicate CallMatches(e: ExpectedCall, o: ObservedCall) {
    if e.tool != o.tool then false
    else
      var mode := if e.argsMatch.Some? then e.argsMatch.value else Ignore;
      if mode == Ignore || e.args.None? then true
      else if o.inputs.None? then false
      else if mode == Exact then JsonEqual(e.args.value, o.inputs.value)
      else JsonSubset(e.args.value, o.inputs.value)
  }

  function CallGraph(expected: seq<ExpectedCall>, observed: seq<ObservedCall>): Graph {
    Graph(|expected|, |observed|,
          (i: nat, j: nat) => i < |expected| && j < |observed| && CallMatches(expected[i], observed[j]))
  }

  predicate SomeMatches(expected: seq<ExpectedCall>, o: ObservedCall) {
    exists i :: 0 <= i < |expected| && CallMatches(expected[i], o)
  }

  // ---------------------------------------------------------------- what the modes mean

  /** Expected call `k` is met by observed call `f[k]`. */
  ghost predicate Meets(f: seq<nat>, expected: seq<ExpectedCall>, observed: seq<ObservedCall>) {
    && |f| == |expected|
    && forall k | 0 <= k < |f| :: f[k] < |observed| && CallMatches(expected[k], observed[f[k]])
  }

  ghost predicate Increasing(f: seq<nat>) {
    forall a, b | 0 <= a < b < |f| :: f[a] < f[b]
  }

  ghost predicate Distinct(f: seq<nat>) {
    forall a, b | 0 <= a < b < |f| :: f[a] != f[b]
  }

  ghost predicate Embeds(expected: seq<ExpectedCall>, observed: seq<ObservedCall>) {
    exists f: seq<nat> :: Meets(f, expected, observed) && Increasing(f)
  }

  ghost predicate Assigns(expected: seq<ExpectedCall>, observed: seq<ObservedCall>) {
    exists f: seq<nat> :: Meets(f, expected, observed) && Distinct(f)
  }

  ghost predicate ModeHolds(mode: MatchMode, expected: seq<ExpectedCall>, observed: seq<ObservedCall>) {
    match mode
    case ExactMode =>
      |observed| == |expected| && forall i | 0 <= i < |expected| :: CallMatches(expected[i], observed[i])
    case InOrderMode => Embeds(expected, observed)
    case AnyOrderMode => Assigns(expected, observed)
    case SubsetMode => forall j | 0 <= j < |observed| :: SomeMatches(expected, observed[j])
  }

  // ---------------------------------------------------------------- grading

  /** Greedy embedding: it fails only when no order-preserving embedding exists at all. */
  method InOrder(expected: seq<ExpectedCall>, observed: seq<ObservedCall>) returns (ok: bool)
    ensures ok <==> Embeds(expected, observed)
  {
    var j := 0;
    ghost var f: seq<nat> := [];
    for k := 0 to |expected|
      invariant 0 <= j <= |observed|
      invariant Meets(f, expected[..k], observed) && Increasing(f)
      invariant forall a | 0 <= a < k :: f[a] < j
      // f is the earliest embedding: every other one is nowhere before it
      invariant forall g: seq<nat> | Meets(g, expected, observed) && Increasing(g) && k < |expected| :: j <= g[k]
    {
      while j < |observed| && !CallMatches(expected[k], observed[j])
        invariant 0 <= j <= |observed|
        invariant forall a | 0 <= a < k :: f[a] < j
        invariant forall g: seq<nat> | Meets(g, expected, observed) && Increasing(g) :: j <= g[k]
      {
        j := j + 1;
      }
      if j == |observed| {
        return false;
      }
      f := f + [j];
      j := j + 1;
    }
    assert expected[..|expected|] == expected;
    ok := true;
  }

  predicate Forbidden(spec: Spec, tool: string) {
    spec.forbidden.Some? && tool in spec.forbidden.value
  }

  /** The observed positions whose tool the spec forbids. */
  ghost function ForbiddenAt(spec: Spec, observed: seq<ObservedCall>): set<int> {
    set j | 0 <= j < |observed| && Forbidden(spec, observed[j].tool)
  }

  lemma ForbiddenStep(spec: Spec, observed: seq<ObservedCall>, k: nat)
    requires k < |observed|
    ensures k !in ForbiddenAt(spec, observed[..k])
    ensures ForbiddenAt(spec, observed[..k + 1])
         == ForbiddenAt(spec, observed[..k]) + if Forbidden(spec, observed[k].tool) then {k} else {}
  {}

  method CountForbidden(spec: Spec, observed: seq<ObservedCall>) returns (n: nat)
    ensures n == |ForbiddenAt(spec, observed)|
  {
    var forbidden := if spec.forbidden.Some? then (set t | t in spec.forbidden.value) else {};
    n := 0;
    for k := 0 to |observed|
      invariant n == |ForbiddenAt(spec, observed[..k])|
    {
      ForbiddenStep(spec, observed, k);
      if observed[k].tool in forbidden { n := n + 1; }
    }
    assert observed[..|observed|] == observed;
  }

  method GradeTrajectory(spec: Spec, observed: seq<ObservedCall>) returns (r: Grade)
    ensures r.mode == spec.mode && r.expectedCount == |spec.calls| && r.observedCount == |observed|
    ensures IsMaximumSize(CallGraph(spec.calls, observed), r.matchedCount)
    ensures r.forbiddenCount == |ForbiddenAt(spec, observed)|
    ensures r.matched <==> ModeHolds(spec.mode, spec.calls, observed) && ForbiddenAt(spec, observed) == {}
  {
    var forbiddenCount := CountForbidden(spec, observed);
    var matchedCount := MaxMatching(CallGraph(spec.calls, observed));
    var modeOk: bool;
    match spec.mode {
      case ExactMode =>
        modeOk := |observed| == |spec.calls|
                  && forall i | 0 <= i < |spec.calls| :: CallMatches(spec.calls[i], observed[i]);
      case InOrderMode =>
        modeOk := InOrder(spec.calls, observed);
      case AnyOrderMode =>
        FullMatchingIsAssignment(spec.calls, observed, matchedCount);
        modeOk := matchedCount == |spec.calls|;
      case SubsetMode =>
        modeOk := forall j | 0 <= j < |observed| :: SomeMatches(spec.calls, observed[j]);
    }
    r := Grade(spec.mode, modeOk && forbiddenCount == 0, |spec.calls|, |observed|, matchedCount, forbiddenCount);
  }

  // ---------------------------------------------------------------- any-order is a full matching

  ghost function PairsOf(f: seq<nat>): set<(nat, nat)> {
    set k: nat | k < |f| :: (k, f[k])
  }

  lemma {:induction false} PairsOfSize(f: seq<nat>)
    ensures |PairsOf(f)| == |f|
  {
    if f == [] {
    } else {
      var g := f[..|f| - 1];
      PairsOfSize(g);
      assert PairsOf(f) == PairsOf(g) + {(|g|, f[|g|])};
    }
  }

  ghost predicate Covers(s: set<(nat, nat)>, i: nat) {
    exists j: nat :: (i, j) in s
  }

  ghost function RightOf(s: set<(nat, nat)>, i: nat): (j: nat)
    requires Covers(s, i)
    ensures (i, j) in s
  {
    var j: nat :| (i, j) in s; j
  }

  /** A matching with as many pairs as left nodes covers every left node. */
  lemma FullMatchingCovers(g: Graph, s: set<(nat, nat)>, i: nat)
    requires IsMatching(g, s) && |s| == g.lefts && i < g.lefts
    ensures Covers(s, i)
  {
    if forall p | p in s :: p.0 != i {
      InjectionBounds(s, Below(g.lefts) - {i}, (p: (nat, nat)) => p.0);
      assert false;
    }
    var p :| p in s && p.0 == i;
    assert (i, p.1) in s;
  }

  lemma FullMatchingAssigns(expected: seq<ExpectedCall>, observed: seq<ObservedCall>, s: set<(nat, nat)>)
    requires IsMatching(CallGraph(expected, observed), s) && |s| == |expected|
    ensures Assigns(expected, observed)
  {
    var g := CallGraph(expected, observed);
    forall i | 0 <= i < |expected|
      ensures Covers(s, i)
    { FullMatchingCovers(g, s, i); }
    var f: seq<nat> := seq(|expected|, (i: nat) requires Covers(s, i) => RightOf(s, i));
    forall k | 0 <= k < |f|
      ensures f[k] < |observed| && CallMatches(expected[k], observed[f[k]])
    {
      var pair := (k, f[k]);
      assert pair in s;
    }
    forall a, b | 0 <= a < b < |f|
      ensures f[a] != f[b]
    {
      var pa, pb := (a, f[a]), (b, f[b]);
      assert pa in s && pb in s && pa.0 != pb.0;
    }
    assert Meets(f, expected, observed) && Distinct(f);
  }

  lemma AssignmentIsMatching(expected: seq<ExpectedCall>, observed: seq<ObservedCall>)
    requires Assigns(expected, observed)
    ensures exists s :: IsMatching(CallGraph(expected, observed), s) && |s| == |expected|
  {
    var f :| Meets(f, expected, observed) && Distinct(f);
    PairsOfSize(f);
    assert IsMatching(CallGraph(expected, observed), PairsOf(f));
  }

  lemma MatchingFitsLeft(g: Graph, s: set<(nat, nat)>)
    requires IsMatching(g, s)
    ensures |s| <= g.lefts
  {
    InjectionBounds(s, Below(g.lefts), (p: (nat, nat)) => p.0);
  }

  /** `any-order` as the code decides it: the matching is full exactly when each call can be given its own match. */
  lemma FullMatchingIsAssignment(expected: seq<ExpectedCall>, observed: seq<ObservedCall>, n: nat)
    requires IsMaximumSize(CallGraph(expected, observed), n)
    ensures n == |expected| <==> Assigns(expected, observed)
  {
    var g := CallGraph(expected, observed);
    var s: set<(nat, nat)> :| IsMatching(g, s) && |s| == n;
    MatchingFitsLeft(g, s);
    if n == |expected| {
      FullMatchingAssigns(expected, observed, s);
    }
    if Assigns(expected, observed) {
      AssignmentIsMatching(expected, observed);
    }
  }

  // ---------------------------------------------------------------- how the modes relate

  /** exact implies in-order implies any-order, and exact implies subset. */
  lemma ModesAreOrdered(expected: seq<ExpectedCall>, observed: seq<ObservedCall>)
    ensures ModeHolds(ExactMode, expected, observed) ==> ModeHolds(InOrderMode, expected, observed)
    ensures ModeHolds(InOrderMode, expected, observed) ==> ModeHolds(AnyOrderMode, expected, observed)
    ensures ModeHolds(ExactMode, expected, observed) ==> ModeHolds(SubsetMode, expected, observed)
  {
    if ModeHolds(ExactMode, expected, observed) {
      var f: seq<nat> := seq(|expected|, i => i);
      assert Meets(f, expected, observed) && Increasing(f);
    }
    if Embeds(expected, observed) {
      var f :| Meets(f, expected, observed) && Increasing(f);
      assert Distinct(f);
    }
    if ModeHolds(ExactMode, expected, observed) {
      forall j | 0 <= j < |observed|
        ensures SomeMatches(expected, observed[j])
      { assert CallMatches(expected[j], observed[j]); }
    }
  }

  // ---------------------------------------------------------------- matchedCount ignores order

  lemma {:induction false} FindPermutation<T>(a: seq<T>, b: seq<T>) returns (p: seq<nat>)
    requires multiset(a) == multiset(b)
    ensures |p| == |a| == |b| && Distinct(p)
    ensures forall i | 0 <= i < |a| :: p[i] < |b| && b[p[i]] == a[i]
    decreases |a|
  {
    assert |a| == |multiset(a)| == |multiset(b)| == |b|;
    if a == [] {
      p := [];
    } else {
      var n := |a| - 1;
      assert a[n] in multiset(a) && a[n] in multiset(b);
      var k :| 0 <= k < |b| && b[k] == a[n];
      var q := FindPermutation(Without(a, n), Without(b, k));
      p := Reinsert(q, k);
      ReinsertFinds(a, b, k, q, p);
    }
  }

  lemma ReinsertFinds<T>(a: seq<T>, b: seq<T>, k: nat, q: seq<nat>, p: seq<nat>)
    requires a != [] && k < |b| == |a| && b[k] == a[|a| - 1] && Distinct(q) && p == Reinsert(q, k) && |q| == |a| - 1
    requires forall i | 0 <= i < |q| :: q[i] < |b| - 1 && Without(b, k)[q[i]] == Without(a, |a| - 1)[i]
    ensures forall i | 0 <= i < |a| :: p[i] < |b| && b[p[i]] == a[i]
  {
    forall i | 0 <= i < |q|
      ensures p[i] < |b| && b[p[i]] == a[i]
    { assert Without(b, k)[q[i]] == b[p[i]] && Without(a, |a| - 1)[i] == a[i]; }
  }

  /** Indices into a list without position `k`, read as indices into the whole list, with `k` last. */
  ghost function Reinsert(q: seq<nat>, k: nat): (p: seq<nat>)
    requires Distinct(q)
    ensures |p| == |q| + 1 && p[|q|] == k && Distinct(p)
    ensures forall i | 0 <= i < |q| :: p[i] == if q[i] < k then q[i] else q[i] + 1
  {
    seq(|q| + 1, i requires 0 <= i <= |q| => if i == |q| then k else if q[i] < k then q[i] else q[i] + 1)
  }

  ghost function Renamed(p: seq<nat>, s: set<(nat, nat)>): set<(nat, nat)> {
    set q | q in s && q.1 < |p| :: (q.0, p[q.1])
  }

  lemma {:induction false} RenamedSize(p: seq<nat>, s: set<(nat, nat)>)
    requires Distinct(p) && forall q | q in s :: q.1 < |p|
    ensures |Renamed(p, s)| == |s|
  {
    if s != {} {
      var q :| q in s;
      RenamedSize(p, s - {q});
      assert Renamed(p, s) == Renamed(p, s - {q}) + {(q.0, p[q.1])};
      assert (q.0, p[q.1]) !in Renamed(p, s - {q});
    }
  }

  /** Renaming right nodes by an injection that keeps edges takes matchings to matchings of the same size. */
  lemma RenamedMatching(g: Graph, g': Graph, p: seq<nat>, s: set<(nat, nat)>)
    requires IsMatching(g, s) && |p| == g.rights && g.lefts == g'.lefts && Distinct(p)
    requires forall q: (nat, nat) | q in s :: p[q.1] < g'.rights && g'.edge(q.0, p[q.1])
    ensures IsMatching(g', Renamed(p, s)) && |Renamed(p, s)| == |s|
  {
    RenamedSize(p, s);
    forall q, r | q in Renamed(p, s) && r in Renamed(p, s) && (q.0 == r.0 || q.1 == r.1)
      ensures q == r
    {
      var x :| x in s && q == (x.0, p[x.1]);
      var y :| y in s && r == (y.0, p[y.1]);
      assert x.0 == y.0 || x.1 == y.1;
    }
  }

  lemma PermutedMatching(expected: seq<ExpectedCall>, o: seq<ObservedCall>, o': seq<ObservedCall>, s: set<(nat, nat)>)
    requires multiset(o) == multiset(o')
    requires IsMatching(CallGraph(expected, o), s)
    ensures exists s' :: IsMatching(CallGraph(expected, o'), s') && |s'| == |s|
  {
    var p := FindPermutation(o, o');
    RenamedMatching(CallGraph(expected, o), CallGraph(expected, o'), p, s);
  }

  /** `matchedCount` does not depend on the order of the observed calls. */
  lemma MatchedCountIgnoresOrder(expected: seq<ExpectedCall>, o: seq<ObservedCall>, o': seq<ObservedCall>, n: nat)
    requires multiset(o) == multiset(o')
    requires IsMaximumSize(CallGraph(expected, o), n)
    ensures IsMaximumSize(CallGraph(expected, o'), n)
  {
    var s: set<(nat, nat)> :| IsMatching(CallGraph(expected, o), s) && |s| == n;
    PermutedMatching(expected, o, o', s);
    forall t | IsMatching(CallGraph(expected, o'), t)
      ensures |t| <= n
    { PermutedMatching(expected, o', o, t); }
  }

  // ---------------------------------------------------------------- loosening argsMatch

  function Strictness(e: ExpectedCall): nat {
    match e.argsMatch
    case None => 0
    case Some(Ignore) => 0
    case Some(Subset) => 1
    case Some(Exact) => 2
  }

  ghost predicate Loosens(e: ExpectedCall, e': ExpectedCall) {
    e'.tool == e.tool && e'.args == e.args && Strictness(e') <= Strictness(e)
  }

  /** Loosening `argsMatch` from exact to subset to ignore never lowers `matchedCount`. */
  lemma LooseningNeverLowers(
      expected: seq<ExpectedCall>, expected': seq<ExpectedCall>, observed: seq<ObservedCall>, n: nat, n': nat)
    requires |expected| == |expected'| && forall i | 0 <= i < |expected| :: Loosens(expected[i], expected'[i])
    requires IsMaximumSize(CallGraph(expected, observed), n) && IsMaximumSize(CallGraph(expected', observed), n')
    ensures n <= n'
  {
    var s: set<(nat, nat)> :| IsMatching(CallGraph(expected, observed), s) && |s| == n;
    forall p: (nat, nat) | p in s
      ensures CallMatches(expected'[p.0], observed[p.1])
    {
      var e, o := expected[p.0], observed[p.1];
      if e.args.Some? && o.inputs.Some? && Strictness(e) == 2 {
        EqualImpliesSubset(e.args.value, o.inputs.value);
      }
    }
    assert IsMatching(CallGraph(expected', observed), s);
  }
}
