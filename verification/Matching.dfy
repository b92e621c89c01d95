/**
  The maximum one-to-one matching behind `matchedCount`
  (conformance/src/lib/eval-trajectory.ts, `maxMatching`).

  `owner[j]` is the left node that right node `j` is matched to. `Augment` is the
  recursive search for an augmenting path; it shares one `seen` array over a whole
  top-level search, so a right node is tried at most once.

  Maximality is the Hungarian-tree argument. Every failed search leaves a set of
  right nodes that is CLOSED: each is owned, and the neighbours of its owner are
  in the set again. A later successful search cannot pass through a closed set,
  so the sets of all failures accumulate into one.
 */
module Matching {
  import opened Seqs
  import opened Wrappers

  /** A bipartite graph: an edge test over `lefts` left and `rights` right nodes. */
  datatype Graph = Graph(lefts: nat, rights: nat, edge: (nat, nat) -> bool)

  type Owners = seq<Option<nat>>

  // ---------------------------------------------------------------- what is computed

  ghost predicate IsMatching(g: Graph, s: set<(nat, nat)>) {
    && (forall p | p in s :: p.0 < g.lefts && p.1 < g.rights && g.edge(p.0, p.1))
    && (forall p, q | p in s && q in s && (p.0 == q.0 || p.1 == q.1) :: p == q)
  }

  ghost predicate IsMaximumSize(g: Graph, n: nat) {
    && (exists s :: IsMatching(g, s) && |s| == n)
    && (forall s :: IsMatching(g, s) ==> |s| <= n)
  }

  // ---------------------------------------------------------------- the search state

  ghost function Neighbours(g: Graph, i: nat): set<nat> {
    set j: nat | j < g.rights && g.edge(i, j)
  }

  ghost predicate OnEdges(g: Graph, owner: Owners) {
    && |owner| == g.rights
    && forall j | 0 <= j < |owner| && owner[j].Some? :: owner[j].value < g.lefts && g.edge(owner[j].value, j)
  }

  /** No left node owns two right nodes outside `seen`. */
  ghost predicate OneToOne(owner: Owners, seen: seq<bool>)
    requires |owner| == |seen|
  {
    forall j, k | 0 <= j < k < |owner| && !seen[j] && !seen[k] && owner[j].Some? :: owner[j] != owner[k]
  }

  /** The left nodes that own a right node outside `seen`. */
  ghost function Owned(owner: Owners, seen: seq<bool>): set<nat>
    requires |owner| == |seen|
  {
    set j | 0 <= j < |owner| && !seen[j] && owner[j].Some? :: owner[j].value
  }

  ghost predicate Closed(g: Graph, owner: Owners, c: set<nat>) {
    forall j | j in c :: j < |owner| && owner[j].Some? && Neighbours(g, owner[j].value) <= c
  }

  ghost predicate AllSeen(g: Graph, i: nat, seen: seq<bool>) {
    forall j: nat | j < |seen| && j < g.rights && g.edge(i, j) :: seen[j]
  }

  /** What a failed search adds to `seen`: owned nodes whose owners have only seen neighbours. */
  ghost predicate ClosedSince(g: Graph, owner: Owners, before: seq<bool>, seen: seq<bool>) {
    && |before| == |seen| == |owner|
    && (forall j | 0 <= j < |seen| && before[j] :: seen[j])
    && (forall j | 0 <= j < |seen| && seen[j] && !before[j] :: owner[j].Some? && AllSeen(g, owner[j].value, seen))
  }

  ghost function SeenNodes(seen: seq<bool>): set<nat> {
    set j: nat | j < |seen| && seen[j]
  }

  ghost function Unseen(seen: seq<bool>): set<nat> {
    set j: nat | j < |seen| && !seen[j]
  }

  /** Re-owning `j` by `i`, once `j`'s former owner has moved outside `seen`, adds exactly `i`. */
  lemma ReownAddsOne(o: Owners, o': Owners, before: seq<bool>, seen: seq<bool>, i: nat, j: nat)
    requires |o| == |o'| == |before| == |seen| && j < |o|
    requires forall k | 0 <= k < |o| && before[k] :: seen[k]
    requires !before[j] && seen[j]
    requires OneToOne(o, before) && i !in Owned(o, before)
    requires forall k | 0 <= k < |o| && seen[k] :: o'[k] == o[k]
    requires if o[j].None? then o' == o
             else OneToOne(o', seen) && Owned(o', seen) == Owned(o, seen) + {o[j].value}
    ensures OneToOne(o'[j := Some(i)], before)
    ensures Owned(o'[j := Some(i)], before) == Owned(o, before) + {i}
  {
    var r := o'[j := Some(i)];
    forall k | 0 <= k < |o| && !before[k] && k != j && r[k].Some?
      ensures r[k].value in Owned(o, before)
    {
      if !seen[k] && o[j].Some? {
        assert r[k].value in Owned(o', seen);
        assert o[j].value in Owned(o, before);
      }
    }
    assert OneToOne(r, before) by {
      forall a, b | 0 <= a < b < |r| && !before[a] && !before[b] && r[a].Some?
        ensures r[a] != r[b]
      {
        if a != j && b != j && o[j].Some? && seen[a] != seen[b] && r[b].Some? {
          // one kept its owner, the other took it from outside `seen`
          var u := if seen[a] then b else a;
          assert r[u].value in Owned(o', seen);
        }
      }
    }
    forall x | x in Owned(o, before)
      ensures x in Owned(r, before)
    {
      var k :| 0 <= k < |o| && !before[k] && o[k].Some? && o[k].value == x;
      if o[j].Some? && (k == j || !seen[k]) {
        assert x in Owned(o', seen) by {
          if k != j { assert x in Owned(o, seen); }
        }
        var k' :| 0 <= k' < |o| && !seen[k'] && o'[k'].Some? && o'[k'].value == x;
        assert r[k'] == Some(x);
      } else {
        assert r[k] == Some(x);
      }
    }
    assert r[j] == Some(i);
  }

  method Augment(g: Graph, i: nat, owner: array<Option<nat>>, seen: array<bool>, ghost c: set<nat>) returns (ok: bool)
    requires i < g.lefts && owner.Length == seen.Length == g.rights
    requires OnEdges(g, owner[..]) && OneToOne(owner[..], seen[..])
    requires i !in Owned(owner[..], seen[..])
    requires Closed(g, owner[..], c)
    modifies owner, seen
    ensures OnEdges(g, owner[..])
    ensures forall j | 0 <= j < seen.Length && old(seen[j]) :: seen[j] && owner[j] == old(owner[j])
    ensures !ok ==> owner[..] == old(owner[..]) && AllSeen(g, i, seen[..])
    ensures !ok ==> ClosedSince(g, owner[..], old(seen[..]), seen[..])
    ensures ok ==> OneToOne(owner[..], old(seen[..]))
    ensures ok ==> Owned(owner[..], old(seen[..])) == old(Owned(owner[..], seen[..])) + {i}
    ensures ok ==> (forall j | j in c :: owner[j] == old(owner[j])) && !(Neighbours(g, i) <= c)
    decreases Unseen(seen[..])
  {
    ghost var o, before := owner[..], seen[..];
    for j := 0 to g.rights
      invariant owner[..] == o
      invariant ClosedSince(g, o, before, seen[..])
      invariant forall k: nat | k < j && g.edge(i, k) :: seen[k]
    {
      if seen[j] || !g.edge(i, j) { continue; }
      seen[j] := true;
      ghost var marked := seen[..];
      assert Unseen(marked) < Unseen(before) by { assert j in Unseen(before) && j !in Unseen(marked); }
      var free := owner[j].None?;
      if !free {
        assert owner[j].value !in Owned(o, marked);
        free := Augment(g, owner[j].value, owner, seen, c);
      }
      if free {
        ReownAddsOne(o, owner[..], before, marked, i, j);
        assert j in Neighbours(g, i);
        ghost var moved := owner[..];
        owner[j] := Some(i);
        assert owner[..] == moved[j := Some(i)];
        return true;
      }
    }
    return false;
  }

  // ---------------------------------------------------------------- maximality

  ghost function Pairs(owner: Owners): set<(nat, nat)> {
    set j: nat | j < |owner| && owner[j].Some? :: (owner[j].value, j)
  }

  function NoneSeen(m: nat): (s: seq<bool>) {
    seq(m, _ => false)
  }

  /** The pairs of a valid `owner` are a matching with one pair per owned left node. */
  lemma PairsAreMatching(g: Graph, owner: Owners)
    requires OnEdges(g, owner) && OneToOne(owner, NoneSeen(|owner|))
    ensures IsMatching(g, Pairs(owner)) && |Pairs(owner)| == |Owned(owner, NoneSeen(|owner|))|
  {
    var none := NoneSeen(|owner|);
    assert forall j | 0 <= j < |owner| :: !none[j];
    forall i | i in Owned(owner, none)
      ensures exists p :: p in Pairs(owner) && p.0 == i
    {
      var j :| 0 <= j < |owner| && owner[j] == Some(i);
      assert (i, j) in Pairs(owner);
    }
    BySameSize(Pairs(owner), Owned(owner, none), (p: (nat, nat)) => p.0);
  }

  ghost function OwnersOf(owner: Owners, c: set<nat>): set<nat>
    requires forall j | j in c :: j < |owner| && owner[j].Some?
  {
    set j | j in c :: owner[j].value
  }

  lemma OwnersOfSize(owner: Owners, c: set<nat>)
    requires forall j | j in c :: j < |owner| && owner[j].Some?
    requires OneToOne(owner, NoneSeen(|owner|))
    ensures |OwnersOf(owner, c)| == |c|
  {
    var none := NoneSeen(|owner|);
    assert forall j | 0 <= j < |owner| :: !none[j];
    BySameSize(c, OwnersOf(owner, c), (j: nat) => if j < |owner| && owner[j].Some? then owner[j].value else 0);
  }

  /** If the neighbours of `a` all lie in `c`, a matching leaves all but `|c|` of `a` unmatched. */
  lemma HallBound(g: Graph, a: set<nat>, c: set<nat>, s: set<(nat, nat)>)
    requires a <= Below(g.lefts) && forall i | i in a :: Neighbours(g, i) <= c
    requires IsMatching(g, s)
    ensures |s| + |a| <= g.lefts + |c|
  {
    var inside := set p | p in s && p.0 in a;
    var outside := s - inside;
    assert |s| == |inside| + |outside| by { assert s == inside + outside; }
    assert |inside| <= |c| by {
      forall p | p in inside
        ensures p.1 in c
      {
        assert p.1 in Neighbours(g, p.0);
      }
      InjectionBounds(inside, c, (p: (nat, nat)) => p.1);
    }
    var rest := Below(g.lefts) - a;
    assert |outside| <= |rest| by { InjectionBounds(outside, rest, (p: (nat, nat)) => p.0); }
    assert |rest| + |a| == g.lefts by { assert rest + a == Below(g.lefts); }
  }

  /**
    The duality bound. Let `failed` be left nodes whose neighbours all lie in a closed
    set `c`. Then `failed` and the owners of `c` together compete for `c` only, so every
    matching misses at least `|failed|` left nodes.
   */
  lemma ClosedSetBounds(g: Graph, owner: Owners, failed: set<nat>, c: set<nat>, s: set<(nat, nat)>)
    requires OnEdges(g, owner) && OneToOne(owner, NoneSeen(|owner|)) && Closed(g, owner, c)
    requires forall i | i in failed :: i < g.lefts && i !in Owned(owner, NoneSeen(|owner|)) && Neighbours(g, i) <= c
    requires IsMatching(g, s)
    ensures |s| + |failed| <= g.lefts
  {
    var owners := OwnersOf(owner, c);
    assert |owners| == |c| by { OwnersOfSize(owner, c); }
    assert failed !! owners;
    assert |failed + owners| == |failed| + |c|;
    HallBound(g, failed + owners, c, s);
  }

  /**
    What holds once the searches from left nodes below `i` are done: `n` of them are
    owned, the rest are in `failed`, and `c` is one closed set behind every failure.
   */
  ghost predicate Progress(g: Graph, owner: Owners, failed: set<nat>, c: set<nat>, i: nat, n: nat) {
    && OnEdges(g, owner) && OneToOne(owner, NoneSeen(|owner|)) && Closed(g, owner, c)
    && (forall k | k in failed :: Neighbours(g, k) <= c)
    && var owned := Owned(owner, NoneSeen(|owner|));
       owned !! failed && owned + failed == Below(i) && |owned| == n
  }

  lemma ProgressOnSuccess(g: Graph, o: Owners, o': Owners, failed: set<nat>, c: set<nat>, i: nat, n: nat)
    requires Progress(g, o, failed, c, i, n)
    requires OnEdges(g, o') && OneToOne(o', NoneSeen(|o|))
    requires Owned(o', NoneSeen(|o|)) == Owned(o, NoneSeen(|o|)) + {i}
    requires forall j | j in c :: o'[j] == o[j]
    ensures Progress(g, o', failed, c, i + 1, n + 1)
  {
    StillClosed(g, o, o', c);
    OwnedGrows(Owned(o, NoneSeen(|o|)), Owned(o', NoneSeen(|o|)), failed, i);
  }

  lemma StillClosed(g: Graph, o: Owners, o': Owners, c: set<nat>)
    requires Closed(g, o, c) && OnEdges(g, o') && |o'| == |o| && forall j | j in c :: o'[j] == o[j]
    ensures Closed(g, o', c)
  {}

  lemma OwnedGrows(owned: set<nat>, more: set<nat>, failed: set<nat>, i: nat)
    requires owned !! failed && owned + failed == Below(i) && more == owned + {i}
    ensures more !! failed && more + failed == Below(i + 1) && |more| == |owned| + 1
  {
    assert i !in Below(i);
  }

  lemma ProgressOnFailure(g: Graph, o: Owners, failed: set<nat>, c: set<nat>, i: nat, n: nat, seen: seq<bool>)
    requires Progress(g, o, failed, c, i, n)
    requires ClosedSince(g, o, NoneSeen(|o|), seen) && AllSeen(g, i, seen)
    ensures Progress(g, o, failed + {i}, c + SeenNodes(seen), i + 1, n)
  {
    SeenIsClosed(g, o, c, seen);
    NeighboursSeen(g, i, seen);
    FailedGrows(Owned(o, NoneSeen(|o|)), failed, i);
  }

  lemma NeighboursSeen(g: Graph, i: nat, seen: seq<bool>)
    requires AllSeen(g, i, seen) && |seen| == g.rights
    ensures Neighbours(g, i) <= SeenNodes(seen)
  {}

  lemma SeenIsClosed(g: Graph, o: Owners, c: set<nat>, seen: seq<bool>)
    requires Closed(g, o, c) && ClosedSince(g, o, NoneSeen(|o|), seen) && |o| == g.rights
    ensures Closed(g, o, c + SeenNodes(seen))
  {
    forall j | j in SeenNodes(seen)
      ensures o[j].Some? && Neighbours(g, o[j].value) <= SeenNodes(seen)
    { NeighboursSeen(g, o[j].value, seen); }
  }

  lemma FailedGrows(owned: set<nat>, failed: set<nat>, i: nat)
    requires owned !! failed && owned + failed == Below(i)
    ensures owned !! failed + {i} && owned + (failed + {i}) == Below(i + 1)
  {
    assert i !in owned + failed;
  }

  lemma ProgressIsMaximum(g: Graph, owner: Owners, failed: set<nat>, c: set<nat>, n: nat)
    requires Progress(g, owner, failed, c, g.lefts, n)
    ensures IsMaximumSize(g, n)
  {
    PairsAreMatching(g, owner);
    var owned := Owned(owner, NoneSeen(|owner|));
    assert |owned + failed| == n + |failed|;
    forall s | IsMatching(g, s)
      ensures |s| <= n
    {
      forall k | k in failed
        ensures k < g.lefts && k !in owned
      {
        assert k in owned + failed;
      }
      ClosedSetBounds(g, owner, failed, c, s);
    }
  }

  /** One top-level search, with its own `seen`; returns the grown failure record. */
  method Search(g: Graph, i: nat, owner: array<Option<nat>>, ghost failed: set<nat>, ghost c: set<nat>, ghost n: nat)
    returns (ok: bool, ghost failed': set<nat>, ghost c': set<nat>)
    requires i < g.lefts && owner.Length == g.rights
    requires Progress(g, owner[..], failed, c, i, n)
    modifies owner
    ensures Progress(g, owner[..], failed', c', i + 1, if ok then n + 1 else n)
  {
    failed', c' := failed, c;
    var seen := new bool[g.rights](_ => false);
    assert seen[..] == NoneSeen(g.rights);
    ghost var o := owner[..];
    NotYetOwned(g, o, failed, c, i, n);
    ok := Augment(g, i, owner, seen, c);
    if ok {
      ProgressOnSuccess(g, o, owner[..], failed, c, i, n);
    } else {
      ProgressOnFailure(g, o, failed, c, i, n, seen[..]);
      failed', c' := failed + {i}, c + SeenNodes(seen[..]);
    }
  }

  lemma NotYetOwned(g: Graph, o: Owners, failed: set<nat>, c: set<nat>, i: nat, n: nat)
    requires Progress(g, o, failed, c, i, n)
    ensures OnEdges(g, o) && OneToOne(o, NoneSeen(|o|)) && Closed(g, o, c) && i !in Owned(o, NoneSeen(|o|))
  {
    assert i !in Owned(o, NoneSeen(|o|)) + failed;
  }

  /** The size of a maximum matching, for every bipartite graph. */
  method MaxMatching(g: Graph) returns (n: nat)
    ensures IsMaximumSize(g, n)
  {
    var owner := new Option<nat>[g.rights](_ => None);
    ghost var failed: set<nat>, c: set<nat> := {}, {};
    n := 0;
    for i := 0 to g.lefts
      invariant Progress(g, owner[..], failed, c, i, n)
    {
      var ok;
      ok, failed, c := Search(g, i, owner, failed, c, n);
      if ok { n := n + 1; }
    }
    ProgressIsMaximum(g, owner[..], failed, c, n);
  }
}
