/**
  The audit checkpoint root (conformance/src/lib/audit-checkpoint.ts): pairwise, one
  level at a time, a last odd node promoted unchanged, no leaf/interior separation.

  The hash is a parameter of which only the output format is assumed. Binding is stated
  as a reduction: two leaf lists with one root either agree or exhibit a hash collision.
 */
module Merkle {
  import opened Wrappers

  type Hash = string -> string

  datatype PreimageError = EmptyRange | WrongCount | BadLeaf

  predicate IsHex64(s: string) {
    |s| == 64 && forall k | 0 <= k < 64 :: '0' <= s[k] <= '9' || 'a' <= s[k] <= 'f'
  }

  /** What the source relies on: a digest is 64 lowercase hex characters. */
  ghost predicate HexHash(h: Hash) {
    forall s :: IsHex64(h(s))
  }

  ghost predicate AllHex64(nodes: seq<string>) {
    forall k | 0 <= k < |nodes| :: IsHex64(nodes[k])
  }

  // ---------------------------------------------------------------- the level loop

  /** One pass of the inner loop: pair up neighbours, promote a last odd node. */
  function NextLevel(h: Hash, level: seq<string>): (next: seq<string>)
    ensures |next| == (|level| + 1) / 2
  {
    if |level| == 0 then []
    else if |level| == 1 then level
    else [h(level[0] + level[1])] + NextLevel(h, level[2..])
  }

  /** The root the tree has by definition; see `Build` for the tree itself. */
  function Root(h: Hash, t: Tree): string {
    match t
    case Leaf(node) => node
    case Node(left, right) => h(Root(h, left) + Root(h, right))
  }

  /** Every refusal of the source, in its order. */
  function Refusal(leaves: seq<string>, expectedLeaves: Option<int>): Option<PreimageError> {
    if |leaves| == 0 then Some(EmptyRange)
    else if expectedLeaves.Some? && |leaves| != expectedLeaves.value then Some(WrongCount)
    else if exists k :: 0 <= k < |leaves| && !IsHex64(leaves[k]) then Some(BadLeaf)
    else None
  }

  /** The inner loop. */
  method PairUp(h: Hash, level: seq<string>) returns (next: seq<string>, hashes: nat)
    ensures next == NextLevel(h, level) && hashes == |level| / 2
  {
    next, hashes := [], 0;
    var i := 0;
    while i < |level|
      invariant 0 <= i <= |level| + 1 && i % 2 == 0
      invariant hashes == (if i <= |level| then i else |level|) / 2
      invariant next + NextLevel(h, if i <= |level| then level[i..] else []) == NextLevel(h, level)
    {
      if i + 1 < |level| {
        assert level[i..][2..] == level[i + 2..];
        next := next + [h(level[i] + level[i + 1])];
        hashes := hashes + 1;
      } else {
        next := next + [level[i]];
      }
      i := i + 2;
    }
  }

  /**
    The source's loop. Its value is the root of the tree of RFC 6962 section 2.1 (without
    that section's prefixes), and it hashes once less than there are leaves.
   */
  method CheckpointMerkleRoot(h: Hash, leaves: seq<string>, expectedLeaves: Option<int>)
    returns (r: Result<string, PreimageError>, hashes: nat)
    ensures r.Err? <==> Refusal(leaves, expectedLeaves).Some?
    ensures r.Err? ==> r.error == Refusal(leaves, expectedLeaves).value && hashes == 0
    ensures r.Ok? ==> r.value == Root(h, Build(leaves)) && hashes == |leaves| - 1
  {
    hashes := 0;
    if |leaves| == 0 { return Err(EmptyRange), 0; }
    if expectedLeaves.Some? && |leaves| != expectedLeaves.value { return Err(WrongCount), 0; }
    for k := 0 to |leaves|
      invariant forall j | 0 <= j < k :: IsHex64(leaves[j])
    {
      if !IsHex64(leaves[k]) { return Err(BadLeaf), 0; }
    }
    var level := leaves;
    while |level| > 1
      invariant |level| >= 1 && hashes + |level| == |leaves|
      invariant Root(h, Build(level)) == Root(h, Build(leaves))
      decreases |level|
    {
      NextLevelKeepsRoot(h, level);
      var next, n := PairUp(h, level);
      level, hashes := next, hashes + n;
    }
    assert Build(level) == Leaf(level[0]);
    r := Ok(level[0]);
  }

  // ---------------------------------------------------------------- the tree

  datatype Tree = Leaf(node: string) | Node(left: Tree, right: Tree)

  /** The largest power of two below `n`. */
  function Split(n: nat): (k: nat)
    requires n >= 2
    ensures k < n <= 2 * k
    ensures IsPowerOfTwo(k)
  {
    if n == 2 then 1 else 2 * Split((n + 1) / 2)
  }

  predicate IsPowerOfTwo(k: nat) {
    k == 1 || (k > 1 && k % 2 == 0 && IsPowerOfTwo(k / 2))
  }

  /** Split at the largest power of two below the leaf count. */
  function Build(leaves: seq<string>): (t: Tree)
    requires |leaves| >= 1
    ensures Leaves(t) == leaves
    decreases |leaves|
  {
    if |leaves| == 1 then Leaf(leaves[0])
    else
      var k := Split(|leaves|);
      assert leaves == leaves[..k] + leaves[k..];
      Node(Build(leaves[..k]), Build(leaves[k..]))
  }

  function Leaves(t: Tree): (s: seq<string>)
    ensures |s| >= 1
  {
    match t
    case Leaf(node) => [node]
    case Node(left, right) => Leaves(left) + Leaves(right)
  }

  lemma {:induction false} NextLevelSplits(h: Hash, level: seq<string>, k: nat)
    requires k <= |level| && k % 2 == 0
    ensures NextLevel(h, level) == NextLevel(h, level[..k]) + NextLevel(h, level[k..])
  {
    if k == 0 {
      assert level[0..] == level;
    } else {
      NextLevelSplits(h, level[2..], k - 2);
      assert level[2..][..k - 2] == level[..k][2..];
      assert level[2..][k - 2..] == level[k..];
    }
  }

  /** One level up leaves the root alone: odd promotion is what the power-of-two split gives. */
  lemma {:induction false} NextLevelKeepsRoot(h: Hash, level: seq<string>)
    requires |level| >= 2
    ensures Root(h, Build(NextLevel(h, level))) == Root(h, Build(level))
    decreases |level|
  {
    if |level| == 2 {
      assert level[..1] == [level[0]] && level[1..] == [level[1]];
      assert NextLevel(h, level) == [h(level[0] + level[1])];
    } else {
      var n := |level|;
      var k := Split(n);
      var next := NextLevel(h, level);
      assert Split(|next|) == k / 2;
      NextLevelSplits(h, level, k);
      assert next[..k / 2] == NextLevel(h, level[..k]) && next[k / 2..] == NextLevel(h, level[k..]);
      NextLevelKeepsRoot(h, level[..k]);
      if n - k >= 2 { NextLevelKeepsRoot(h, level[k..]); }
    }
  }

  // ---------------------------------------------------------------- binding

  /** The strings hashed while computing the root of `t`. */
  ghost function Hashed(h: Hash, t: Tree): set<string> {
    match t
    case Leaf(_) => {}
    case Node(left, right) => {Root(h, left) + Root(h, right)} + Hashed(h, left) + Hashed(h, right)
  }

  /** The two computations hashed different strings to one value: a collision in hand. */
  ghost predicate Collide(h: Hash, t: Tree, u: Tree) {
    exists x, y :: x in Hashed(h, t) && y in Hashed(h, u) && x != y && h(x) == h(y)
  }

  /** A leaf of `t` is an interior node of `u`. */
  ghost predicate ShowsInteriorOf(h: Hash, t: Tree, u: Tree) {
    exists x :: x in Hashed(h, u) && h(x) in Leaves(t)
  }

  ghost predicate SomethingShared(h: Hash, t: Tree, u: Tree) {
    Collide(h, t, u) || ShowsInteriorOf(h, t, u) || ShowsInteriorOf(h, u, t)
  }

  lemma {:induction false} RootIsHex(h: Hash, t: Tree)
    requires HexHash(h) && AllHex64(Leaves(t))
    ensures IsHex64(Root(h, t))
  {
    if t.Leaf? {
      assert IsHex64(Leaves(t)[0]);
    }
  }

  /** A child of `t`, together with where its leaves sit in those of `t`. */
  lemma ChildLeaves(t: Tree)
    requires t.Node? && AllHex64(Leaves(t))
    ensures AllHex64(Leaves(t.left)) && AllHex64(Leaves(t.right))
  {
    forall k | 0 <= k < |Leaves(t.left)|
      ensures IsHex64(Leaves(t.left)[k])
    {
      assert Leaves(t)[k] == Leaves(t.left)[k];
    }
    forall k | 0 <= k < |Leaves(t.right)|
      ensures IsHex64(Leaves(t.right)[k])
    {
      assert Leaves(t)[|Leaves(t.left)| + k] == Leaves(t.right)[k];
    }
  }

  lemma ChildRootsAreHex(h: Hash, t: Tree)
    requires HexHash(h) && t.Node? && AllHex64(Leaves(t))
    ensures AllHex64(Leaves(t.left)) && AllHex64(Leaves(t.right))
    ensures IsHex64(Root(h, t.left)) && IsHex64(Root(h, t.right))
  {
    ChildLeaves(t);
    RootIsHex(h, t.left);
    RootIsHex(h, t.right);
  }

  /** Equal interior nodes have equal children, unless their two preimages collide. */
  lemma PairsAgree(h: Hash, t: Tree, u: Tree)
    requires t.Node? && u.Node? && HexHash(h) && AllHex64(Leaves(t)) && AllHex64(Leaves(u))
    requires Root(h, t) == Root(h, u)
    ensures (Root(h, t.left) == Root(h, u.left) && Root(h, t.right) == Root(h, u.right)) || Collide(h, t, u)
  {
    ChildRootsAreHex(h, t);
    ChildRootsAreHex(h, u);
    var x, y := Root(h, t.left) + Root(h, t.right), Root(h, u.left) + Root(h, u.right);
    if x == y {
      assert Root(h, t.left) == x[..64] == Root(h, u.left);
      assert Root(h, t.right) == x[64..] == Root(h, u.right);
    } else {
      assert x in Hashed(h, t) && y in Hashed(h, u);
    }
  }

  lemma SharedInWhole(h: Hash, t: Tree, u: Tree, tp: Tree, up: Tree)
    requires t.Node? && (tp == t.left || tp == t.right)
    requires u.Node? && (up == u.left || up == u.right)
    ensures SomethingShared(h, tp, up) ==> SomethingShared(h, t, u)
  {}

  /** Trees of any two shapes with one root: the same tree, or a collision, or an interior node shown as a leaf. */
  lemma {:induction false} EqualRoots(h: Hash, t: Tree, u: Tree)
    requires HexHash(h) && AllHex64(Leaves(t)) && AllHex64(Leaves(u))
    requires Root(h, t) == Root(h, u)
    ensures t == u || SomethingShared(h, t, u)
    decreases t, u
  {
    if t.Node? && u.Node? {
      PairsAgree(h, t, u);
      if !Collide(h, t, u) {
        ChildLeaves(t);
        ChildLeaves(u);
        EqualRoots(h, t.left, u.left);
        EqualRoots(h, t.right, u.right);
        SharedInWhole(h, t, u, t.left, u.left);
        SharedInWhole(h, t, u, t.right, u.right);
      }
    } else if t.Leaf? && u.Node? {
      assert h(Root(h, u.left) + Root(h, u.right)) in Leaves(t);
    } else if t.Node? && u.Leaf? {
      assert h(Root(h, t.left) + Root(h, t.right)) in Leaves(u);
    }
  }

  /** Without a leaf count, short of a collision, a second list must show an interior node of the first as a leaf. */
  lemma BindingWithoutCount(h: Hash, a: seq<string>, b: seq<string>)
    requires HexHash(h) && |a| >= 1 && |b| >= 1 && AllHex64(a) && AllHex64(b)
    requires Root(h, Build(a)) == Root(h, Build(b))
    ensures a == b || SomethingShared(h, Build(a), Build(b))
  {
    EqualRoots(h, Build(a), Build(b));
  }

  /** That way is always open: two or more leaves share their root with a shorter list that only the count refuses. */
  lemma InteriorNodesShareTheRoot(h: Hash, a: seq<string>)
    requires HexHash(h) && |a| >= 2 && AllHex64(a)
    ensures 1 <= |NextLevel(h, a)| < |a|
    ensures Root(h, Build(NextLevel(h, a))) == Root(h, Build(a))
    ensures Refusal(NextLevel(h, a), None) == None
    ensures Refusal(NextLevel(h, a), Some(|a|)) == Some(WrongCount)
  {
    NextLevelKeepsRoot(h, a);
    NextLevelIsHex(h, a);
  }

  lemma {:induction false} NextLevelIsHex(h: Hash, a: seq<string>)
    requires HexHash(h) && AllHex64(a)
    ensures AllHex64(NextLevel(h, a))
  {
    if |a| < 2 {
    } else {
      NextLevelIsHex(h, a[2..]);
    }
  }

  /** With the count held the shape is fixed, and two different leaf lists under one root are a collision in hand. */
  lemma {:induction false} BindingWithCount(h: Hash, a: seq<string>, b: seq<string>)
    requires HexHash(h) && |a| == |b| >= 1 && AllHex64(a) && AllHex64(b)
    requires Root(h, Build(a)) == Root(h, Build(b))
    ensures a == b || Collide(h, Build(a), Build(b))
    decreases |a|
  {
    if |a| <= 1 {
    } else {
      var k := Split(|a|);
      PairsAgree(h, Build(a), Build(b));
      if !Collide(h, Build(a), Build(b)) {
        assert a == a[..k] + a[k..] && b == b[..k] + b[k..];
        BindingWithCount(h, a[..k], b[..k]);
        BindingWithCount(h, a[k..], b[k..]);
      }
    }
  }
}
