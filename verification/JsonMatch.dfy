/**
  `jsonEqual` and `jsonSubset` (conformance/src/lib/eval-trajectory.ts).

  Both ask `k in actual`, which in JavaScript also sees what an object inherits from
  `Object.prototype`. All inherited names but one hold functions, and no JSON value
  equals a function. The one exception is `__proto__`: it holds an object without own
  keys, so a missing `__proto__` member passes for `{}`. The two `...Exactly` lemmas
  say for which expected values that makes a difference.
 */
module JsonMatch {
  import opened Json

  const PROTO := "__proto__"

  predicate JsonEqual(a: Json, b: Json) {
    match a
    case Arr(xs) =>
      b.Arr? && |xs| == |b.items| && forall i | 0 <= i < |xs| :: JsonEqual(xs[i], b.items[i])
    case Obj(ms) =>
      b.Obj? && |ms| == |b.members| && forall i | 0 <= i < |ms| ::
        if ms[i].key in Keys(b.members)
        then JsonEqual(ms[i].value, b.members[Find(b.members, ms[i].key)].value)
        else ms[i].key == PROTO && ms[i].value == Obj([])
    case _ => a == b
  }

  predicate JsonSubset(expected: Json, actual: Json) {
    match expected
    case Obj(ms) =>
      actual.Obj? && forall i | 0 <= i < |ms| ::
        if ms[i].key in Keys(actual.members)
        then JsonSubset(ms[i].value, actual.members[Find(actual.members, ms[i].key)].value)
        else ms[i].key == PROTO && PassesForPrototype(ms[i].value)
    case _ => JsonEqual(expected, actual)
  }

  /** `jsonSubset(v, Object.prototype)`, whose own `__proto__` is null. */
  predicate PassesForPrototype(v: Json) {
    v == Obj([]) || v == Obj([Member(PROTO, Null)])
  }

  // ---------------------------------------------------------------- the reference relations

  /** Key-path inclusion: equal, except that an object may have more members. */
  predicate Included(e: Value, a: Value) {
    match e
    case VObj(m) => a.VObj? && forall k | k in m :: k in a.members && Included(m[k], a.members[k])
    case _ => e == a
  }

  lemma {:induction false} IncludedReflexive(e: Value)
    ensures Included(e, e)
  {
    if !e.VObj? {
    } else {
      forall k | k in e.members
        ensures Included(e.members[k], e.members[k])
      { IncludedReflexive(e.members[k]); }
    }
  }

  lemma {:induction false} IncludedTransitive(e: Value, f: Value, g: Value)
    requires Included(e, f) && Included(f, g)
    ensures Included(e, g)
  {
    if !e.VObj? {
    } else {
      forall k | k in e.members
        ensures k in g.members && Included(e.members[k], g.members[k])
      { IncludedTransitive(e.members[k], f.members[k], g.members[k]); }
    }
  }

  lemma {:induction false} IncludedAntisymmetric(e: Value, f: Value)
    requires Included(e, f) && Included(f, e)
    ensures e == f
  {
    if !e.VObj? {
    } else {
      assert e.members.Keys == f.members.Keys;
      forall k | k in e.members
        ensures e.members[k] == f.members[k]
      { IncludedAntisymmetric(e.members[k], f.members[k]); }
      assert e.members == f.members;
    }
  }

  // ---------------------------------------------------------------- where the code meets them

  /** No member named `__proto__` holds the empty object, at any depth. */
  predicate NoEmptyProto(j: Json) {
    match j
    case Arr(xs) => forall i | 0 <= i < |xs| :: NoEmptyProto(xs[i])
    case Obj(ms) =>
      forall i | 0 <= i < |ms| :: !(ms[i].key == PROTO && ms[i].value == Obj([])) && NoEmptyProto(ms[i].value)
    case _ => true
  }

  /** The same for `jsonSubset`, which recurses through objects and falls back to `jsonEqual` elsewhere. */
  predicate NoPrototypeLookalike(j: Json) {
    match j
    case Obj(ms) =>
      forall i | 0 <= i < |ms| ::
        !(ms[i].key == PROTO && PassesForPrototype(ms[i].value)) && NoPrototypeLookalike(ms[i].value)
    case _ => NoEmptyProto(j)
  }

  lemma {:induction false} EqualReflexive(a: Json)
    requires WellFormed(a)
    ensures JsonEqual(a, a)
  {
    match a
    case Arr(xs) => forall i | 0 <= i < |xs| ensures JsonEqual(xs[i], xs[i]) { EqualReflexive(xs[i]); }
    case Obj(ms) =>
      forall i | 0 <= i < |ms|
        ensures ms[i].key in Keys(ms) && JsonEqual(ms[i].value, ms[Find(ms, ms[i].key)].value)
      {
        FindIsUnique(ms, i);
        EqualReflexive(ms[i].value);
      }
    case _ =>
  }

  lemma {:induction false} EqualIsSameMeaning(a: Json, b: Json)
    requires WellFormed(a) && WellFormed(b) && NoEmptyProto(a)
    ensures JsonEqual(a, b) <==> Meaning(a) == Meaning(b)
  {
    if a.Arr? && b.Arr? && |a.items| == |b.items| {
      forall i | 0 <= i < |a.items|
        ensures JsonEqual(a.items[i], b.items[i]) <==> Meaning(a).items[i] == Meaning(b).items[i]
      { EqualIsSameMeaning(a.items[i], b.items[i]); }
      if JsonEqual(a, b) { assert Meaning(a).items == Meaning(b).items; }
    } else if a.Arr? && b.Arr? {
      assert |Meaning(a).items| != |Meaning(b).items|;
    } else if a.Obj? && b.Obj? {
      var ms, ns := a.members, b.members;
      forall i | 0 <= i < |ms| && ms[i].key in Keys(ns)
        ensures JsonEqual(ms[i].value, ns[Find(ns, ms[i].key)].value)
            <==> Meaning(ms[i].value) == Meaning(ns[Find(ns, ms[i].key)].value)
      { EqualIsSameMeaning(ms[i].value, ns[Find(ns, ms[i].key)].value); }
      if JsonEqual(a, b) {
        EqualObjectsMeanTheSame(ms, ns);
      } else if Meaning(a) == Meaning(b) {
        SameMeaningMembers(ms, ns);
      }
    }
  }

  /** The other object has the member, with the same meaning. */
  ghost predicate Carries(ns: seq<Member>, m: Member) {
    m.key in Keys(ns) && Meaning(m.value) == Meaning(ns[Find(ns, m.key)].value)
  }

  lemma EqualObjectsMeanTheSame(ms: seq<Member>, ns: seq<Member>)
    requires DistinctKeys(ms) && DistinctKeys(ns) && |ms| == |ns|
    requires forall i | 0 <= i < |ms| :: Carries(ns, ms[i])
    ensures Meaning(Obj(ms)) == Meaning(Obj(ns))
  {
    AllKeysShared(ms, ns);
    var m, n := Meaning(Obj(ms)).members, Meaning(Obj(ns)).members;
    forall k | k in m
      ensures m[k] == n[k]
    { assert Carries(ns, ms[Find(ms, k)]); }
    assert m == n;
  }

  lemma AllKeysShared(ms: seq<Member>, ns: seq<Member>)
    requires DistinctKeys(ms) && DistinctKeys(ns) && |ms| == |ns|
    requires forall i | 0 <= i < |ms| :: Carries(ns, ms[i])
    ensures Keys(ms) == Keys(ns)
  {
    KeyCount(ms);
    KeyCount(ns);
    SubsetOfSameSize(Keys(ms), Keys(ns));
  }

  lemma SameMeaningMembers(ms: seq<Member>, ns: seq<Member>)
    requires DistinctKeys(ms) && DistinctKeys(ns)
    requires Meaning(Obj(ms)) == Meaning(Obj(ns))
    ensures |ms| == |ns|
    ensures forall i | 0 <= i < |ms| :: Carries(ns, ms[i])
  {
    SameMeaningKeys(ms, ns);
    forall i | 0 <= i < |ms|
      ensures Carries(ns, ms[i])
    { MeaningOfMember(ms, i); }
  }

  lemma SameMeaningKeys(ms: seq<Member>, ns: seq<Member>)
    requires DistinctKeys(ms) && DistinctKeys(ns)
    requires Meaning(Obj(ms)) == Meaning(Obj(ns))
    ensures Keys(ms) == Keys(ns) && |ms| == |ns|
  {
    assert Keys(ms) == Meaning(Obj(ms)).members.Keys && Keys(ns) == Meaning(Obj(ns)).members.Keys;
    KeyCount(ms);
    KeyCount(ns);
  }

  lemma SubsetOfSameSize<T>(s: set<T>, t: set<T>)
    requires s <= t && |s| == |t|
    ensures s == t
  {
    assert |t - s| == 0 by { assert t == s + (t - s); }
  }

  // ---------------------------------------------------------------- and nowhere else

  function LongestKey(ms: seq<Member>): (n: nat)
    ensures forall i | 0 <= i < |ms| :: |ms[i].key| <= n
  {
    if ms == [] then 0 else
    var n := LongestKey(ms[1..]);
    assert forall i | 1 <= i < |ms| :: ms[i] == ms[1..][i - 1];
    if |ms[0].key| > n then |ms[0].key| else n
  }

  function FreshKey(ms: seq<Member>): (k: string)
    ensures k !in Keys(ms)
  {
    seq(LongestKey(ms) + 1, _ => 'x')
  }

  lemma ReplacedMember(ms: seq<Member>, i: nat, m: Member)
    requires DistinctKeys(ms) && i < |ms|
    requires m.key == ms[i].key || m.key !in Keys(ms)
    ensures DistinctKeys(ms[i := m])
    ensures WellFormed(Obj(ms)) && WellFormed(m.value) ==> WellFormed(Obj(ms[i := m]))
    ensures forall k | 0 <= k < |ms| && k != i :: ms[k].key in Keys(ms[i := m]) && Find(ms[i := m], ms[k].key) == k
    ensures m.key in Keys(ms[i := m]) && Find(ms[i := m], m.key) == i
  {
    var ns := ms[i := m];
    assert DistinctKeys(ns) by {
      forall x | 0 <= x < |ms| && x != i
        ensures ms[x].key != m.key
      { if m.key != ms[i].key { assert ms[x].key in Keys(ms); } }
    }
    forall k | 0 <= k < |ms|
      ensures ns[k].key in Keys(ns) && Find(ns, ns[k].key) == k
    { FindIsUnique(ns, k); }
    assert forall k | 0 <= k < |ms| && k != i :: ns[k] == ms[k];
    assert ns[i] == m;
  }

  /** Replacing one member's value, or renaming a member to a fresh name, changes the meaning. */
  lemma ReplacedMeaning(ms: seq<Member>, i: nat, m: Member)
    requires DistinctKeys(ms) && i < |ms|
    requires m.key !in Keys(ms) || (m.key == ms[i].key && Meaning(m.value) != Meaning(ms[i].value))
    ensures Meaning(Obj(ms)) != Meaning(Obj(ms[i := m]))
  {
    ReplacedMember(ms, i, m);
    MeaningOfMember(ms, i);
    MeaningOfMember(ms[i := m], i);
  }

  lemma ReplacedEqual(ms: seq<Member>, i: nat, m: Member)
    requires WellFormed(Obj(ms)) && i < |ms|
    requires (m.key == ms[i].key && JsonEqual(ms[i].value, m.value))
          || (m.key !in Keys(ms) && ms[i] == Member(PROTO, Obj([])))
    ensures JsonEqual(Obj(ms), Obj(ms[i := m]))
  {
    var ns := ms[i := m];
    ReplacedMember(ms, i, m);
    forall k | 0 <= k < |ms| && ms[k].key in Keys(ns)
      ensures JsonEqual(ms[k].value, ns[Find(ns, ms[k].key)].value)
    { if k != i { EqualReflexive(ms[k].value); } }
  }

  /** A value outside the condition equals, by the code, a value that is not the same. */
  lemma {:induction false} EqualConfuses(a: Json) returns (b: Json)
    requires WellFormed(a) && !NoEmptyProto(a)
    ensures WellFormed(b) && JsonEqual(a, b) && Meaning(a) != Meaning(b)
    ensures a.Obj? <==> b.Obj?
  {
    if a.Arr? {
      var i :| 0 <= i < |a.items| && !NoEmptyProto(a.items[i]);
      var x := EqualConfuses(a.items[i]);
      b := Arr(a.items[i := x]);
      forall k | 0 <= k < |a.items| && k != i ensures JsonEqual(a.items[k], a.items[k]) { EqualReflexive(a.items[k]); }
      assert Meaning(a).items[i] != Meaning(b).items[i];
    } else {
      var ms := a.members;
      var i :| 0 <= i < |ms| && (!NoEmptyProto(ms[i].value) || ms[i] == Member(PROTO, Obj([])));
      var m := Member(FreshKey(ms), Null);
      if !NoEmptyProto(ms[i].value) {
        var x := EqualConfuses(ms[i].value);
        m := Member(ms[i].key, x);
      }
      b := Obj(ms[i := m]);
      ReplacedMember(ms, i, m);
      ReplacedEqual(ms, i, m);
      ReplacedMeaning(ms, i, m);
    }
  }

  /** `jsonEqual` decides sameness if and only if no `__proto__` member of the expected value is empty. */
  lemma EqualExactly(a: Json)
    requires WellFormed(a)
    ensures (forall b | WellFormed(b) :: JsonEqual(a, b) <==> Meaning(a) == Meaning(b)) <==> NoEmptyProto(a)
  {
    if NoEmptyProto(a) {
      forall b | WellFormed(b)
        ensures JsonEqual(a, b) <==> Meaning(a) == Meaning(b)
      { EqualIsSameMeaning(a, b); }
    } else {
      var b := EqualConfuses(a);
    }
  }

  lemma {:induction false} SubsetIsIncluded(e: Json, a: Json)
    requires WellFormed(e) && WellFormed(a) && NoPrototypeLookalike(e)
    ensures JsonSubset(e, a) <==> Included(Meaning(e), Meaning(a))
  {
    if e.Obj? && a.Obj? {
      var ms, ns := e.members, a.members;
      var m, n := Meaning(e).members, Meaning(a).members;
      forall i | 0 <= i < |ms| && ms[i].key in Keys(ns)
        ensures JsonSubset(ms[i].value, ns[Find(ns, ms[i].key)].value) <==> Included(m[ms[i].key], n[ms[i].key])
      {
        MeaningOfMember(ms, i);
        SubsetIsIncluded(ms[i].value, ns[Find(ns, ms[i].key)].value);
      }
      if JsonSubset(e, a) {
        forall k | k in m
          ensures k in n && Included(m[k], n[k])
        { assert ms[Find(ms, k)].key == k; }
      } else if Included(Meaning(e), Meaning(a)) {
        forall i | 0 <= i < |ms|
          ensures ms[i].key in Keys(ns) && JsonSubset(ms[i].value, ns[Find(ns, ms[i].key)].value)
        { MeaningOfMember(ms, i); }
      }
    } else if !e.Obj? {
      EqualIsSameMeaning(e, a);
    }
  }

  lemma {:induction false} SubsetReflexive(e: Json)
    requires WellFormed(e)
    ensures JsonSubset(e, e)
  {
    if e.Obj? {
      forall i | 0 <= i < |e.members|
        ensures e.members[i].key in Keys(e.members)
        ensures JsonSubset(e.members[i].value, e.members[Find(e.members, e.members[i].key)].value)
      {
        FindIsUnique(e.members, i);
        SubsetReflexive(e.members[i].value);
      }
    } else {
      EqualReflexive(e);
    }
  }

  lemma ReplacedSubset(ms: seq<Member>, i: nat, m: Member)
    requires WellFormed(Obj(ms)) && i < |ms|
    requires (m.key == ms[i].key && JsonSubset(ms[i].value, m.value))
          || (m.key !in Keys(ms) && ms[i].key == PROTO && PassesForPrototype(ms[i].value))
    ensures JsonSubset(Obj(ms), Obj(ms[i := m]))
  {
    var ns := ms[i := m];
    ReplacedMember(ms, i, m);
    forall k | 0 <= k < |ms| && ms[k].key in Keys(ns)
      ensures JsonSubset(ms[k].value, ns[Find(ns, ms[k].key)].value)
    { if k != i { SubsetReflexive(ms[k].value); } }
  }

  lemma ReplacedNotIncluded(ms: seq<Member>, i: nat, m: Member)
    requires DistinctKeys(ms) && i < |ms|
    requires m.key !in Keys(ms) || (m.key == ms[i].key && !Included(Meaning(ms[i].value), Meaning(m.value)))
    ensures !Included(Meaning(Obj(ms)), Meaning(Obj(ms[i := m])))
  {
    var ns := ms[i := m];
    ReplacedMember(ms, i, m);
    MeaningOfMember(ms, i);
    MeaningOfMember(ns, i);
    if m.key !in Keys(ms) {
      assert ms[i].key !in Keys(ns);
    }
  }

  lemma {:induction false} SubsetConfuses(e: Json) returns (a: Json)
    requires WellFormed(e) && !NoPrototypeLookalike(e)
    ensures WellFormed(a) && JsonSubset(e, a) && !Included(Meaning(e), Meaning(a))
  {
    if !e.Obj? {
      a := EqualConfuses(e);
    } else {
      var ms := e.members;
      var i :| 0 <= i < |ms|
               && (!NoPrototypeLookalike(ms[i].value) || (ms[i].key == PROTO && PassesForPrototype(ms[i].value)));
      var m := Member(FreshKey(ms), Null);
      if !(ms[i].key == PROTO && PassesForPrototype(ms[i].value)) {
        var x := SubsetConfuses(ms[i].value);
        m := Member(ms[i].key, x);
      }
      a := Obj(ms[i := m]);
      ReplacedMember(ms, i, m);
      ReplacedSubset(ms, i, m);
      ReplacedNotIncluded(ms, i, m);
    }
  }

  /** `jsonSubset` decides key-path inclusion if and only if no `__proto__` member passes for the prototype. */
  lemma SubsetExactly(e: Json)
    requires WellFormed(e)
    ensures (forall a | WellFormed(a) :: JsonSubset(e, a) <==> Included(Meaning(e), Meaning(a)))
            <==> NoPrototypeLookalike(e)
  {
    if NoPrototypeLookalike(e) {
      forall a | WellFormed(a)
        ensures JsonSubset(e, a) <==> Included(Meaning(e), Meaning(a))
      { SubsetIsIncluded(e, a); }
    } else {
      var a := SubsetConfuses(e);
    }
  }

  /** `subset` is looser than `exact`, for every pair of values. */
  lemma {:induction false} EqualImpliesSubset(e: Json, a: Json)
    requires JsonEqual(e, a)
    ensures JsonSubset(e, a)
  {
    if !e.Obj? {
    } else {
      forall i | 0 <= i < |e.members| && e.members[i].key in Keys(a.members)
        ensures JsonSubset(e.members[i].value, a.members[Find(a.members, e.members[i].key)].value)
      { EqualImpliesSubset(e.members[i].value, a.members[Find(a.members, e.members[i].key)].value); }
    }
  }
}
