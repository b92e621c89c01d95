/**
  Order by UTF-16 code units (conformance/src/lib/jcs.ts, `codeUnitCompare`), and the
  stable sort by a key in that order.
 */
module CodeUnits {
  import Utf

  // ---------------------------------------------------------------- the order

  /** Scalar values in the order of their UTF-16 code units: surrogates sort below U+E000. */
  function Rank(c: char): int {
    if c as int >= 0x10000 then c as int - 0x10000 + 0xD800
    else if c as int >= 0xE000 then c as int + 0x100000
    else c as int
  }

  predicate CodeUnitLeq(a: string, b: string) {
    a == "" || (b != "" && (Rank(a[0]) < Rank(b[0]) || (a[0] == b[0] && CodeUnitLeq(a[1..], b[1..]))))
  }

  lemma {:induction false} LeqTotal(a: string, b: string)
    ensures CodeUnitLeq(a, b) || CodeUnitLeq(b, a)
  {
    if a == "" || b == "" {
    } else {
      LeqTotal(a[1..], b[1..]);
    }
  }

  lemma {:induction false} LeqAntisymmetric(a: string, b: string)
    requires CodeUnitLeq(a, b) && CodeUnitLeq(b, a)
    ensures a == b
  {
    if a == "" || b == "" {
    } else {
      LeqAntisymmetric(a[1..], b[1..]);
      assert a == [a[0]] + a[1..] && b == [b[0]] + b[1..];
    }
  }

  lemma {:induction false} LeqTransitive(a: string, b: string, c: string)
    requires CodeUnitLeq(a, b) && CodeUnitLeq(b, c)
    ensures CodeUnitLeq(a, c)
  {
    if a == "" || a[0] != b[0] || b[0] != c[0] {
    } else {
      LeqTransitive(a[1..], b[1..], c[1..]);
    }
  }

  function Scalars(s: string): seq<Utf.Scalar> {
    if s == "" then [] else [s[0] as int] + Scalars(s[1..])
  }

  /** A string's code units, as JavaScript holds it. */
  function Units(s: string): seq<Utf.Unit> {
    Utf.ToUnits(Scalars(s))
  }

  /** The comparison of the source: unit by unit, then by length. */
  predicate UnitsLeq(a: seq<Utf.Unit>, b: seq<Utf.Unit>) {
    a == [] || (b != [] && (a[0] < b[0] || (a[0] == b[0] && UnitsLeq(a[1..], b[1..]))))
  }

  lemma UnitsOfHead(s: string)
    requires s != ""
    ensures Units(s) == Utf.UnitsOf(s[0] as int) + Units(s[1..])
  {}

  /** Different characters are told apart by the first unit in which they differ. */
  lemma HeadsDecide(c: char, d: char, x: seq<Utf.Unit>, y: seq<Utf.Unit>)
    requires c != d
    ensures UnitsLeq(Utf.UnitsOf(c as int) + x, Utf.UnitsOf(d as int) + y) <==> Rank(c) < Rank(d)
  {}

  lemma SameHeads(c: char, x: seq<Utf.Unit>, y: seq<Utf.Unit>)
    ensures UnitsLeq(Utf.UnitsOf(c as int) + x, Utf.UnitsOf(c as int) + y) <==> UnitsLeq(x, y)
  {
    var u := Utf.UnitsOf(c as int);
    assert (u + x)[|u|..] == x && (u + y)[|u|..] == y;
    if |u| == 2 { assert (u + x)[1..][1..] == x && (u + y)[1..][1..] == y; }
  }

  /** Comparing characters by `Rank` is comparing code units. */
  lemma {:induction false} LeqComparesUnits(a: string, b: string)
    ensures CodeUnitLeq(a, b) <==> UnitsLeq(Units(a), Units(b))
  {
    if a == "" || b == "" {
    } else {
      var x, y := Units(a[1..]), Units(b[1..]);
      UnitsOfHead(a);
      UnitsOfHead(b);
      if a[0] == b[0] {
        SameHeads(a[0], x, y);
        LeqComparesUnits(a[1..], b[1..]);
      } else {
        HeadsDecide(a[0], b[0], x, y);
      }
    }
  }

  // ---------------------------------------------------------------- the stable sort

  function Insert<T>(xs: seq<T>, r: T, key: T -> string): seq<T> {
    if xs == [] || CodeUnitLeq(key(xs[|xs| - 1]), key(r)) then xs + [r]
    else Insert(xs[..|xs| - 1], r, key) + [xs[|xs| - 1]]
  }

  function Sort<T>(xs: seq<T>, key: T -> string): seq<T> {
    if xs == [] then [] else Insert(Sort(xs[..|xs| - 1], key), xs[|xs| - 1], key)
  }

  ghost predicate Sorted<T>(xs: seq<T>, key: T -> string) {
    forall i, k | 0 <= i < k < |xs| :: CodeUnitLeq(key(xs[i]), key(xs[k]))
  }

  /** The elements with one key, in order. */
  ghost function WithKey<T>(xs: seq<T>, id: string, key: T -> string): seq<T> {
    if xs == [] then []
    else WithKey(xs[..|xs| - 1], id, key) + if key(xs[|xs| - 1]) == id then [xs[|xs| - 1]] else []
  }

  lemma {:induction false} InsertSorts<T>(xs: seq<T>, r: T, key: T -> string)
    requires Sorted(xs, key)
    ensures Sorted(Insert(xs, r, key), key) && multiset(Insert(xs, r, key)) == multiset(xs) + multiset{r}
  {
    if xs == [] {
    } else {
      var rest, last := xs[..|xs| - 1], xs[|xs| - 1];
      assert xs == rest + [last];
      if CodeUnitLeq(key(last), key(r)) {
        forall i | 0 <= i < |xs|
          ensures CodeUnitLeq(key(xs[i]), key(r))
        { if i < |rest| { LeqTransitive(key(xs[i]), key(last), key(r)); } }
      } else {
        InsertSorts(rest, r, key);
        LeqTotal(key(last), key(r));
        var ins := Insert(rest, r, key);
        forall i | 0 <= i < |ins|
          ensures CodeUnitLeq(key(ins[i]), key(last))
        { assert ins[i] in multiset(ins); }
      }
    }
  }

  lemma {:induction false} SortSorts<T>(xs: seq<T>, key: T -> string)
    ensures Sorted(Sort(xs, key), key) && multiset(Sort(xs, key)) == multiset(xs)
  {
    if xs == [] {
    } else {
      var rest := xs[..|xs| - 1];
      SortSorts(rest, key);
      InsertSorts(Sort(rest, key), xs[|xs| - 1], key);
      assert xs == rest + [xs[|xs| - 1]];
    }
  }

  lemma {:induction false} InsertIsStable<T>(xs: seq<T>, r: T, id: string, key: T -> string)
    requires Sorted(xs, key)
    ensures WithKey(Insert(xs, r, key), id, key) == WithKey(xs, id, key) + if key(r) == id then [r] else []
  {
    if xs == [] || CodeUnitLeq(key(xs[|xs| - 1]), key(r)) {
      assert (xs + [r])[..|xs|] == xs;
    } else {
      var rest, last := xs[..|xs| - 1], xs[|xs| - 1];
      InsertIsStable(rest, r, id, key);
      var ins := Insert(rest, r, key);
      assert (ins + [last])[..|ins|] == ins;
      LeqTotal(key(last), key(r));
    }
  }

  lemma {:induction false} SortIsStable<T>(xs: seq<T>, id: string, key: T -> string)
    ensures WithKey(Sort(xs, key), id, key) == WithKey(xs, id, key)
  {
    if xs == [] {
    } else {
      var rest := xs[..|xs| - 1];
      SortIsStable(rest, id, key);
      SortSorts(rest, key);
      InsertIsStable(Sort(rest, key), xs[|xs| - 1], id, key);
    }
  }

  /** Elements with one key are the same. Distinct keys are the usual case. */
  ghost predicate OnePerKey<T>(xs: seq<T>, key: T -> string) {
    forall r, s | r in xs && s in xs && key(r) == key(s) :: r == s
  }

  lemma LastIsGreatest<T>(xs: seq<T>, r: T, key: T -> string)
    requires Sorted(xs, key) && r in multiset(xs)
    ensures CodeUnitLeq(key(r), key(xs[|xs| - 1]))
  {
    var i :| 0 <= i < |xs| && xs[i] == r;
    LeqTotal(key(r), key(r));
  }

  lemma SameLast<T>(a: seq<T>, b: seq<T>, key: T -> string)
    requires Sorted(a, key) && Sorted(b, key) && multiset(a) == multiset(b) && OnePerKey(a, key) && a != [] && b != []
    ensures a[|a| - 1] == b[|b| - 1]
  {
    var r, s := a[|a| - 1], b[|b| - 1];
    assert r in multiset(a) && s in multiset(b);
    assert s in a by { assert s in multiset(a); }
    LastIsGreatest(b, r, key);
    LastIsGreatest(a, s, key);
    LeqAntisymmetric(key(r), key(s));
  }

  lemma DropLast<T>(a: seq<T>, key: T -> string)
    requires a != [] && Sorted(a, key)
    ensures Sorted(a[..|a| - 1], key) && multiset(a[..|a| - 1]) == multiset(a) - multiset{a[|a| - 1]}
    ensures OnePerKey(a, key) ==> OnePerKey(a[..|a| - 1], key)
  {
    assert a == a[..|a| - 1] + [a[|a| - 1]];
  }

  lemma {:induction false} SortedIsUnique<T>(a: seq<T>, b: seq<T>, key: T -> string)
    requires Sorted(a, key) && Sorted(b, key) && multiset(a) == multiset(b) && OnePerKey(a, key)
    ensures a == b
    decreases |a|
  {
    assert |a| == |multiset(a)| == |multiset(b)| == |b|;
    if a == [] {
    } else {
      SameLast(a, b, key);
      DropLast(a, key);
      DropLast(b, key);
      SortedIsUnique(a[..|a| - 1], b[..|b| - 1], key);
    }
  }

  lemma {:induction false} WithKeyOfPrefix<T>(xs: seq<T>, k: nat, id: string, key: T -> string)
    requires k <= |xs|
    ensures WithKey(xs[..k], id, key) <= WithKey(xs, id, key)
    decreases |xs|
  {
    if k < |xs| {
      WithKeyOfPrefix(xs[..|xs| - 1], k, id, key);
      assert xs[..|xs| - 1][..k] == xs[..k];
    } else {
      assert xs[..k] == xs;
    }
  }

  /** Exchanging two different elements with one key changes what the stable sort produces. */
  lemma SwapShows<T>(xs: seq<T>, i: nat, k: nat, key: T -> string)
    requires i < k < |xs| && key(xs[i]) == key(xs[k]) && xs[i] != xs[k]
    ensures Sort(xs[i := xs[k]][k := xs[i]], key) != Sort(xs, key)
  {
    var id, swapped := key(xs[i]), xs[i := xs[k]][k := xs[i]];
    SortIsStable(xs, id, key);
    SortIsStable(swapped, id, key);
    assert swapped[..i] == xs[..i];
    var p := |WithKey(xs[..i], id, key)|;
    assert xs[..i + 1][..i] == xs[..i] && swapped[..i + 1][..i] == xs[..i];
    WithKeyOfPrefix(xs, i + 1, id, key);
    WithKeyOfPrefix(swapped, i + 1, id, key);
    assert WithKey(xs, id, key)[p] == xs[i] && WithKey(swapped, id, key)[p] == xs[k];
  }

  lemma OrderForgotten<T>(xs: seq<T>, other: seq<T>, key: T -> string)
    requires OnePerKey(xs, key) && multiset(other) == multiset(xs)
    ensures Sort(other, key) == Sort(xs, key)
  {
    SortSorts(xs, key);
    SortSorts(other, key);
    forall r | r in Sort(xs, key)
      ensures r in xs
    { assert r in multiset(Sort(xs, key)) && r in multiset(xs); }
    SortedIsUnique(Sort(xs, key), Sort(other, key), key);
  }

  lemma OrderShows<T>(xs: seq<T>, key: T -> string) returns (other: seq<T>)
    requires !OnePerKey(xs, key)
    ensures multiset(other) == multiset(xs) && Sort(other, key) != Sort(xs, key)
  {
    var r, s :| r in xs && s in xs && key(r) == key(s) && r != s;
    var a :| 0 <= a < |xs| && xs[a] == r;
    var b :| 0 <= b < |xs| && xs[b] == s;
    var i, k := if a < b then a else b, if a < b then b else a;
    SwapShows(xs, i, k, key);
    other := xs[i := xs[k]][k := xs[i]];
  }

  /** The sorted list does not depend on the order of its elements if and only if no key has two different elements. */
  lemma SortIgnoresOrder<T(!new)>(xs: seq<T>, key: T -> string)
    ensures (forall other: seq<T> | multiset(other) == multiset(xs) :: Sort(other, key) == Sort(xs, key))
            <==> OnePerKey(xs, key)
  {
    if OnePerKey(xs, key) {
      forall other: seq<T> | multiset(other) == multiset(xs)
        ensures Sort(other, key) == Sort(xs, key)
      { OrderForgotten(xs, other, key); }
    } else {
      var other := OrderShows(xs, key);
    }
  }
}
