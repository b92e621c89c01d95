/** Facts about sequences and finite sets that several modules use. */
module Seqs {

  ghost function Without<T>(s: seq<T>, k: nat): (r: seq<T>)
    requires k < |s|
    ensures |r| == |s| - 1 && multiset(r) == multiset(s) - multiset{s[k]}
    ensures forall i | 0 <= i < |r| :: r[i] == if i < k then s[i] else s[i + 1]
  {
    assert s == s[..k] + [s[k]] + s[k + 1..];
    s[..k] + s[k + 1..]
  }

  /** The naturals below `n`. */
  ghost function Below(n: nat): (s: set<nat>)
    ensures |s| == n && forall i: nat :: i in s <==> i < n
  {
    if n == 0 then {} else Below(n - 1) + {n - 1}
  }

  function Map<T, U>(f: T -> U, xs: seq<T>): seq<U> {
    seq(|xs|, i requires 0 <= i < |xs| => f(xs[i]))
  }

  /** Mapping the same elements in another order gives the same elements. */
  lemma {:induction false} MapKeepsBags<T, U>(f: T -> U, a: seq<T>, b: seq<T>)
    requires multiset(a) == multiset(b)
    ensures multiset(Map(f, a)) == multiset(Map(f, b))
    decreases |a|
  {
    if a == [] {
      assert |multiset(b)| == 0;
    } else {
      var last := |a| - 1;
      assert a[last] in multiset(b);
      var k :| 0 <= k < |b| && b[k] == a[last];
      MapKeepsBags(f, Without(a, last), Without(b, k));
      MapWithout(f, a, last);
      MapWithout(f, b, k);
    }
  }

  lemma MapWithout<T, U>(f: T -> U, xs: seq<T>, k: nat)
    requires k < |xs|
    ensures multiset(Map(f, xs)) == multiset(Map(f, Without(xs, k))) + multiset{f(xs[k])}
  {
    assert Map(f, Without(xs, k)) == Without(Map(f, xs), k);
    assert Map(f, xs)[k] in multiset(Map(f, xs));
  }

  /** A function that is injective on `s` and maps it onto `t` keeps the size. */
  lemma {:induction false} BySameSize<A, B>(s: set<A>, t: set<B>, f: A -> B)
    requires forall x, y | x in s && y in s && f(x) == f(y) :: x == y
    requires forall x | x in s :: f(x) in t
    requires forall z | z in t :: exists x :: x in s && f(x) == z
    ensures |s| == |t|
    decreases s
  {
    if s == {} {
      assert t == {};
    } else {
      var x :| x in s;
      forall z | z in t - {f(x)}
        ensures exists y :: y in s - {x} && f(y) == z
      {
        var y :| y in s && f(y) == z;
        assert y in s - {x};
      }
      BySameSize(s - {x}, t - {f(x)}, f);
    }
  }

  lemma InjectionBounds<A, B>(s: set<A>, t: set<B>, f: A -> B)
    requires forall x, y | x in s && y in s && f(x) == f(y) :: x == y
    requires forall x | x in s :: f(x) in t
    ensures |s| <= |t|
  {
    var image := set x | x in s :: f(x);
    BySameSize(s, image, f);
    SubsetSize(image, t);
  }

  lemma SubsetSize<T>(s: set<T>, t: set<T>)
    requires s <= t
    ensures |s| <= |t|
  {
    assert |t - s| + |s| == |t| by { assert (t - s) + s == t; }
  }
}
