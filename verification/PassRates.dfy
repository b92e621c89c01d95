/**
  pass@k and pass^k (conformance/src/lib/eval-trajectory.ts, `binomRatio`,
  `ratioToNumber`, `passAtK`, `passHatK`).

  The arithmetic is exact up to `ratioToNumber`'s 64-bit quotient; the last rounding of
  that quotient to a double is not modelled. Ratios are compared cross-multiplied.
 */
module PassRates {
  import opened Wrappers
  import Seqs

  // ---------------------------------------------------------------- counting samples

  /** The `k`-element samples of the trials `u`. */
  ghost function Samples(u: set<nat>, k: nat): set<set<nat>> {
    set s | s <= u && |s| == k
  }

  /** Binomial coefficient, by Pascal's rule. */
  ghost function Choose(n: nat, k: nat): nat {
    if k == 0 then 1 else if n == 0 then 0 else Choose(n - 1, k - 1) + Choose(n - 1, k)
  }

  ghost function AddToEach(ss: set<set<nat>>, x: nat): set<set<nat>> {
    set s | s in ss :: s + {x}
  }

  lemma AddIsInjective(s: set<nat>, t: set<nat>, x: nat)
    requires x !in s && x !in t && s + {x} == t + {x}
    ensures s == t
  {}

  lemma AddToEachSize(ss: set<set<nat>>, x: nat)
    requires forall s | s in ss :: x !in s
    ensures |AddToEach(ss, x)| == |ss|
  {
    forall s, t | s in ss && t in ss && s + {x} == t + {x}
      ensures s == t
    { AddIsInjective(s, t, x); }
    Seqs.BySameSize(ss, AddToEach(ss, x), s => s + {x});
  }

  /** A sample either leaves `x` out, or is a smaller sample of the rest with `x` added. */
  lemma SamplesSplit(u: set<nat>, k: nat, x: nat)
    requires x in u && k > 0
    ensures Samples(u, k) == AddToEach(Samples(u - {x}, k - 1), x) + Samples(u - {x}, k)
  {
    forall s | s in Samples(u, k) && x in s
      ensures s in AddToEach(Samples(u - {x}, k - 1), x)
    { assert s - {x} in Samples(u - {x}, k - 1) && s == (s - {x}) + {x}; }
  }

  lemma UnionSize<T>(a: set<T>, b: set<T>)
    requires a !! b
    ensures |a + b| == |a| + |b|
  {}

  lemma SplitIsDisjoint(ss: set<set<nat>>, tt: set<set<nat>>, x: nat)
    requires forall t | t in tt :: x !in t
    ensures AddToEach(ss, x) !! tt
  {}

  lemma SplitSizes(u: set<nat>, k: nat, x: nat)
    requires x in u && k > 0
    ensures |Samples(u, k)| == |Samples(u - {x}, k - 1)| + |Samples(u - {x}, k)|
  {
    SamplesSplit(u, k, x);
    var ss, tt := Samples(u - {x}, k - 1), Samples(u - {x}, k);
    assert AddToEach(ss, x) !! tt by { SplitIsDisjoint(ss, tt, x); }
    assert |AddToEach(ss, x)| == |ss| by { AddToEachSize(ss, x); }
    UnionSize(AddToEach(ss, x), tt);
  }

  lemma SamplesOfNothing(u: set<nat>, k: nat)
    requires k == 0 || u == {}
    ensures |Samples(u, k)| == if k == 0 then 1 else 0
  {
    assert Samples(u, k) == if k == 0 then {{}} else {};
  }

  /** `Choose` counts samples. */
  lemma {:induction false} SampleCount(u: set<nat>, k: nat)
    ensures |Samples(u, k)| == Choose(|u|, k)
    decreases |u|
  {
    if k == 0 || u == {} {
      SamplesOfNothing(u, k);
    } else {
      var x :| x in u;
      SampleCount(u - {x}, k - 1);
      SampleCount(u - {x}, k);
      SplitSizes(u, k, x);
    }
  }

  // ---------------------------------------------------------------- the telescoped products

  /** `a (a-1) ... (a-k+1)`, what the loop multiplies up. */
  function Falling(a: int, k: nat): int {
    if k == 0 then 1 else Falling(a, k - 1) * (a - (k - 1))
  }

  ghost function Factorial(k: nat): (f: nat)
    ensures f >= 1
  {
    if k == 0 then 1 else k * Factorial(k - 1)
  }

  lemma {:induction false} FallingFromTheFront(a: int, k: nat)
    requires k >= 1
    ensures Falling(a, k) == a * Falling(a - 1, k - 1)
  {
    if k > 1 {
      FallingFromTheFront(a, k - 1);
      Associate(a, Falling(a - 1, k - 2), a - (k - 1));
    } else {
      assert Falling(a, 1) == Falling(a, 0) * a;
    }
  }

  lemma {:induction false} FallingIsChoose(n: nat, k: nat)
    ensures Falling(n, k) == Factorial(k) * Choose(n, k)
  {
    if k == 0 {
    } else if n == 0 {
      FallingFromTheFront(0, k);
    } else {
      FallingIsChoose(n - 1, k - 1);
      FallingIsChoose(n - 1, k);
      FallingFromTheFront(n, k);
      PascalStep(n, k, Falling(n - 1, k - 1), Factorial(k - 1), Choose(n - 1, k - 1), Choose(n - 1, k));
    }
  }

  lemma PascalStep(n: nat, k: nat, f: int, g: nat, x: nat, y: nat)
    requires f == g * x && f * (n - k) == (k * g) * y
    ensures n * f == (k * g) * (x + y)
  {}

  lemma Associate(x: int, y: int, z: int)
    ensures (x * y) * z == x * (y * z)
  {}

  lemma {:induction false} FallingMonotone(a: int, b: int, k: nat)
    requires k <= a <= b
    ensures 0 < Falling(a, k) <= Falling(b, k)
  {
    if k == 0 {
    } else {
      FallingMonotone(a, b, k - 1);
      MulMonotone(Falling(a, k - 1), a - (k - 1), Falling(b, k - 1), b - (k - 1));
    }
  }

  lemma MulMonotone(x: int, y: int, x': int, y': int)
    requires 0 <= x <= x' && 0 <= y <= y'
    ensures 0 <= x * y <= x' * y' && (x > 0 && y > 0 ==> x * y > 0)
  {}

  lemma ChoosePositive(n: nat, k: nat)
    requires k <= n
    ensures Choose(n, k) > 0
  {}

  lemma {:induction false} ChooseZero(n: nat, k: nat)
    requires k > n
    ensures Choose(n, k) == 0
  {
    if n == 0 {
    } else {
      ChooseZero(n - 1, k - 1);
      ChooseZero(n - 1, k);
    }
  }

  // ---------------------------------------------------------------- powers of two

  function Pow2(n: nat): (p: nat)
    ensures p >= 1
  {
    if n == 0 then 1 else 2 * Pow2(n - 1)
  }

  lemma {:induction false} Pow2Adds(m: nat, n: nat)
    ensures Pow2(m + n) == Pow2(m) * Pow2(n)
  {
    if m == 0 {
    } else {
      Pow2Adds(m - 1, n);
      Associate(2, Pow2(m - 1), Pow2(n));
    }
  }

  /** Binary digits of a positive number: `x.toString(2).length`. */
  function BitLength(x: nat): (n: nat)
    requires x >= 1
    ensures n >= 1 && Pow2(n - 1) <= x < Pow2(n)
  {
    if x == 1 then 1 else 1 + BitLength(x / 2)
  }

  lemma {:induction false} BitLengthMonotone(x: nat, y: nat)
    requires 1 <= x <= y
    ensures BitLength(x) <= BitLength(y)
  {
    if x <= 1 {
    } else {
      BitLengthMonotone(x / 2, y / 2);
    }
  }

  /** `q` is the integer quotient of `n` by `d`. */
  ghost predicate IsQuotient(n: nat, d: nat, q: nat) {
    d * q <= n < d * q + d
  }

  /** `(num << shift) / den`. */
  function ShiftedQuotient(num: nat, den: nat, shift: nat): (q: nat)
    requires den >= 1
    ensures IsQuotient(num * Pow2(shift), den, q)
  {
    num * Pow2(shift) / den
  }

  lemma QuotientAtLeast(n: nat, d: nat, q: nat, m: nat)
    requires IsQuotient(n, d, q) && d * m <= n
    ensures m <= q
  {
    if q < m {
      MulMonotone(d, q + 1, d, m);
      assert false;
    }
  }

  lemma QuotientBelow(n: nat, d: nat, q: nat, m: nat)
    requires IsQuotient(n, d, q) && n < d * m
    ensures q < m
  {}

  lemma QuotientLow(num: nat, den: nat, ln: nat, ld: nat, guard: nat, shift: nat, q: nat)
    requires 1 <= den < Pow2(ld) && ln >= 1 && Pow2(ln - 1) <= num && guard >= 1 && shift == ld - ln + guard
    requires IsQuotient(num * Pow2(shift), den, q)
    ensures Pow2(guard - 1) <= q
  {
    // den * 2^(guard-1) <= 2^ld * 2^(guard-1) == 2^(ln-1) * 2^shift <= num * 2^shift
    Pow2Adds(ld, guard - 1);
    Pow2Adds(ln - 1, shift);
    assert ld + (guard - 1) == (ln - 1) + shift;
    MulMonotone(den, Pow2(guard - 1), Pow2(ld), Pow2(guard - 1));
    MulMonotone(Pow2(ln - 1), Pow2(shift), num, Pow2(shift));
    QuotientAtLeast(num * Pow2(shift), den, q, Pow2(guard - 1));
  }

  lemma ShiftBelow(x: nat, y: nat, p: nat)
    requires x < y && p > 0
    ensures x * p < y * p
  {}

  lemma QuotientHigh(num: nat, den: nat, ln: nat, ld: nat, guard: nat, shift: nat, q: nat)
    requires ld >= 1 && Pow2(ld - 1) <= den && num < Pow2(ln) && shift == ld - ln + guard
    requires IsQuotient(num * Pow2(shift), den, q)
    ensures q < Pow2(guard + 1)
  {
    // num * 2^shift < 2^ln * 2^shift == 2^(ld-1) * 2^(guard+1) <= den * 2^(guard+1)
    Pow2Adds(ln, shift);
    Pow2Adds(ld - 1, guard + 1);
    assert ln + shift == (ld - 1) + (guard + 1);
    MulMonotone(Pow2(ld - 1), Pow2(guard + 1), den, Pow2(guard + 1));
    ShiftBelow(num, Pow2(ln), Pow2(shift));
    QuotientBelow(num * Pow2(shift), den, q, Pow2(guard + 1));
  }

  // ---------------------------------------------------------------- the conversion

  /** The number m * 2^-e. Every finite double is one. */
  datatype Dyadic = Dyadic(m: int, e: nat)

  ghost predicate AtMost(x: Dyadic, y: Dyadic) {
    x.m * Pow2(y.e) <= y.m * Pow2(x.e)
  }

  function OneMinus(x: Dyadic): Dyadic {
    Dyadic(Pow2(x.e) - x.m, x.e)
  }

  /** Bits `ratioToNumber` shifts in, and the step of its rescaling loop. */
  const GUARD: nat := 64
  const CHUNK: nat := 1000

  /** `v` is num/den truncated: below it, by at most a 2^(1-guard) part of it. */
  ghost predicate TruncatesBy(v: Dyadic, num: int, den: int, guard: nat)
    requires guard >= 1
  {
    var n := num * Pow2(v.e);
    v.m * den <= n && (n - v.m * den) * Pow2(guard - 1) <= n
  }

  ghost predicate Truncates(v: Dyadic, num: int, den: int) {
    TruncatesBy(v, num, den, GUARD)
  }

  /** num/den truncated, and exact when they are equal. */
  ghost predicate Computed(v: Dyadic, num: int, den: int) {
    Truncates(v, num, den) && (num == den ==> v.m == Pow2(v.e))
  }

  /** The quotient keeps at least 64 significant bits, and the rescaling loop loses none of them. */
  method RatioToNumber(num: nat, den: nat) returns (v: Dyadic)
    requires num <= den && den >= 1
    ensures Computed(v, num, den)
  {
    if num == 0 { return Dyadic(0, 0); }
    BitLengthMonotone(num, den);
    var shift := BitLength(den) - BitLength(num) + GUARD;
    var q := ShiftedQuotient(num, den, shift);
    var r, e := Dyadic(q, 0), shift;
    while e > CHUNK
      invariant 0 <= e && r.m == q && r.e + e == shift
    {
      r, e := Dyadic(r.m, r.e + CHUNK), e - CHUNK;
    }
    v := Dyadic(r.m, r.e + e);
    QuotientTruncates(num, den, GUARD, shift, q);
    if num == den { WholeQuotient(num, shift, q); }
  }

  lemma WholeQuotient(n: nat, shift: nat, q: nat)
    requires n >= 1 && IsQuotient(n * Pow2(shift), n, q)
    ensures q == Pow2(shift)
  {
    QuotientAtLeast(n * Pow2(shift), n, q, Pow2(shift));
    QuotientBelow(n * Pow2(shift), n, q, Pow2(shift) + 1);
  }

  /** `q` is the quotient `ratioToNumber` takes, with `guard` extra bits shifted in. */
  ghost predicate IsShifted(num: nat, den: nat, guard: nat, shift: nat, q: nat) {
    && 1 <= num && 1 <= den && guard >= 1 && shift == BitLength(den) - BitLength(num) + guard
    && IsQuotient(num * Pow2(shift), den, q)
  }

  /** With `guard` extra bits the quotient has `guard` or `guard + 1` significant bits, which bounds what is cut off. */
  lemma QuotientTruncates(num: nat, den: nat, guard: nat, shift: nat, q: nat)
    requires IsShifted(num, den, guard, shift, q)
    ensures Pow2(guard - 1) <= q < Pow2(guard + 1)
    ensures TruncatesBy(Dyadic(q, shift), num, den, guard)
  {
    QuotientLow(num, den, BitLength(num), BitLength(den), guard, shift, q);
    QuotientHigh(num, den, BitLength(num), BitLength(den), guard, shift, q);
    WideQuotientTruncates(num, den, guard, shift, q);
  }

  lemma WideQuotientTruncates(num: nat, den: nat, guard: nat, shift: nat, q: nat)
    requires guard >= 1 && IsQuotient(num * Pow2(shift), den, q) && Pow2(guard - 1) <= q
    ensures TruncatesBy(Dyadic(q, shift), num, den, guard)
  {}

  lemma CancelTruncates(v: Dyadic, f: nat, x: nat, y: nat)
    requires f > 0 && Truncates(v, f * x, f * y)
    ensures Truncates(v, x, y)
  {}

  lemma CancelInt(f: int, x: int, y: int)
    requires f > 0
    ensures f * x == f * y ==> x == y
    ensures f * x <= f * y ==> x <= y
  {}

  // ---------------------------------------------------------------- the rates

  datatype RangeError = OutOfRange

  /** C(a, k) / C(b, k), for `a <= b`; there is no sample of more than `a`. */
  method BinomRatio(a: int, b: nat, k: int) returns (r: Result<Dyadic, RangeError>)
    requires a <= b
    ensures r.Err? <==> k < 0 || k > b
    ensures r.Ok? && a < 0 ==> r.value == Dyadic(0, 0)
    ensures r.Ok? && a >= 0 ==> Computed(r.value, Choose(a, k), Choose(b, k))
  {
    if k < 0 || k > b { return Err(OutOfRange); }
    if k > a {
      if a >= 0 {
        ChooseZero(a, k);
        ChoosePositive(b, k);
      }
      return Ok(Dyadic(0, 0));
    }
    var num, den := 1, 1;
    for i := 0 to k
      invariant num == Falling(a, i) && den == Falling(b, i)
    {
      num := num * (a - i);
      den := den * (b - i);
    }
    FallingMonotone(a, b, k);
    FallingIsChoose(a, k);
    FallingIsChoose(b, k);
    var v := RatioToNumber(num, den);
    CancelTruncates(v, Factorial(k), Choose(a, k), Choose(b, k));
    r := Ok(v);
  }

  /** 1 - C(n-c, k) / C(n, k), 0 when nothing passed. */
  ghost predicate IsPassAtK(n: nat, c: nat, k: int, v: Dyadic)
    requires c <= n
  {
    if c == 0 then v == Dyadic(0, 0) else k >= 0 && Computed(OneMinus(v), Choose(n - c, k), Choose(n, k))
  }

  /** C(c, k) / C(n, k), 0 when fewer than k passed. */
  ghost predicate IsPassHatK(n: nat, c: nat, k: int, v: Dyadic) {
    if c < k then v == Dyadic(0, 0) else k >= 0 && Computed(v, Choose(c, k), Choose(n, k))
  }

  method PassAtK(n: nat, c: nat, k: int) returns (r: Result<Dyadic, RangeError>)
    ensures r.Err? <==> c > 0 && (k < 0 || k > n)
    ensures r.Ok? && c <= n ==> IsPassAtK(n, c, k, r.value)
    ensures r.Ok? && c > n ==> r.value == Dyadic(1, 0)
  {
    if c == 0 { return Ok(Dyadic(0, 0)); }
    var q := BinomRatio(n - c, n, k);
    r := if q.Ok? then Ok(OneMinus(q.value)) else Err(q.error);
  }

  method PassHatK(n: nat, c: nat, k: int) returns (r: Result<Dyadic, RangeError>)
    requires c <= n
    ensures r.Err? <==> k < 0
    ensures r.Ok? ==> IsPassHatK(n, c, k, r.value)
  {
    if c < k { return Ok(Dyadic(0, 0)); }
    r := BinomRatio(c, n, k);
  }

  /** The samples with nothing but passing trials, and those with none. */
  ghost function AllPass(trials: set<nat>, passed: set<nat>, k: nat): set<set<nat>> {
    set s | s in Samples(trials, k) && s <= passed
  }

  ghost function NonePass(trials: set<nat>, passed: set<nat>, k: nat): set<set<nat>> {
    set s | s in Samples(trials, k) && s !! passed
  }

  /** What the two formulas count: pass^k the samples that all pass, pass@k those not without a pass. */
  lemma RatesCountSamples(trials: set<nat>, passed: set<nat>, k: nat)
    requires passed <= trials
    ensures |trials - passed| == |trials| - |passed|
    ensures |Samples(trials, k)| == Choose(|trials|, k)
    ensures |AllPass(trials, passed, k)| == Choose(|passed|, k)
    ensures |NonePass(trials, passed, k)| == Choose(|trials - passed|, k)
  {
    SampleCount(trials, k);
    SampleCount(passed, k);
    SampleCount(trials - passed, k);
    assert AllPass(trials, passed, k) == Samples(passed, k);
    assert NonePass(trials, passed, k) == Samples(trials - passed, k);
    assert (trials - passed) + passed == trials;
  }

  /** No sample both passes throughout and passes nowhere. */
  lemma ChoicesFit(n: nat, c: nat, k: nat)
    requires c <= n && k >= 1
    ensures Choose(c, k) + Choose(n - c, k) <= Choose(n, k)
  {
    var trials, passed := Seqs.Below(n), Seqs.Below(c);
    RatesCountSamples(trials, passed, k);
    var sure, none := AllPass(trials, passed, k), NonePass(trials, passed, k);
    assert sure !! none by {
      forall s | s in sure
        ensures s !in none
      { assert s * passed == s && |s| == k; }
    }
    assert |sure + none| == |sure| + |none|;
    Seqs.SubsetSize(sure + none, Samples(trials, k));
  }

  lemma Compare(h: int, p: nat, a: int, q: nat, x: nat, y: nat, total: nat)
    requires total > 0 && x + y <= total && p > 0 && q > 0
    requires h * total <= x * p && (q - a) * total <= y * q
    ensures h * q <= a * p
  {
    // h*q*total <= x*p*q and (q-a)*p*total <= y*p*q, and x + y <= total
    MulBoth(h * total, x * p, q);
    MulBoth((q - a) * total, y * q, p);
    MulBoth(x + y, total, p * q);
    assert (x + y) * (p * q) == (x * p) * q + (y * q) * p by {
      Associate(x, p, q);
      Associate(y, q, p);
    }
    assert total * (h * q) == (h * total) * q by { Associate(h, total, q); Associate(total, h, q); }
    assert total * ((q - a) * p) == ((q - a) * total) * p by { Associate(q - a, total, p); Associate(total, q - a, p); }
    assert total * (p * q) == total * (p * q - a * p) + total * (a * p);
    assert (q - a) * p == p * q - a * p;
    CancelInt(total, h * q, a * p);
  }

  lemma MulBoth(x: int, y: int, z: int)
    requires x <= y && z >= 0
    ensures x * z <= y * z
  {}

  /** pass^k <= pass@k at every sample size from 1 to n, as computed. */
  lemma HatBelowAt(n: nat, c: nat, k: nat, hat: Dyadic, at: Dyadic)
    requires c <= n && 1 <= k <= n
    requires IsPassHatK(n, c, k, hat) && IsPassAtK(n, c, k, at)
    ensures AtMost(hat, at)
  {
    ChoicesFit(n, c, k);
    ChoosePositive(n, k);
    if c < k { ChooseZero(c, k); }
    if c > 0 {
      Compare(hat.m, Pow2(hat.e), at.m, Pow2(at.e), Choose(c, k), Choose(n - c, k), Choose(n, k));
    }
  }

  /** C(a, k) / C(b, k) never grows with `k`: pass@k is non-decreasing and pass^k non-increasing. */
  lemma RatioDecreases(a: nat, b: nat, k: nat)
    requires a <= b && k < b
    ensures Choose(a, k + 1) * Choose(b, k) <= Choose(a, k) * Choose(b, k + 1)
  {
    if k + 1 > a {
      ChooseZero(a, k + 1);
      MulMonotone(0, 0, Choose(a, k), Choose(b, k + 1));
    } else {
      ChooseStep(a, k);
      ChooseStep(b, k);
      CrossStep(Choose(a, k), Choose(a, k + 1), a - k, Choose(b, k), Choose(b, k + 1), b - k, k + 1);
    }
  }

  lemma ChooseStep(n: nat, k: nat)
    requires k <= n
    ensures (k + 1) * Choose(n, k + 1) == Choose(n, k) * (n - k)
  {
    FallingIsChoose(n, k);
    FallingIsChoose(n, k + 1);
    StepCancels(Factorial(k), Choose(n, k), Choose(n, k + 1), k + 1, n - k);
  }

  lemma StepCancels(f: nat, x: nat, y: nat, s: nat, r: nat)
    requires f > 0 && (s * f) * y == (f * x) * r
    ensures s * y == x * r
  {
    Associate(f, x, r);
    Associate(f, s, y);
    assert s * f == f * s;
    CancelInt(f, s * y, x * r);
  }

  lemma CrossStep(x: nat, x': nat, p: nat, y: nat, y': nat, q: nat, f: nat)
    requires f > 0 && f * x' == x * p && f * y' == y * q && p <= q
    ensures x' * y <= x * y'
  {}

  lemma ScaleBelow(x: int, u: nat, w: nat, g: nat)
    requires x >= 0 && u < w <= g
    ensures x * (u * g) <= x * ((g - 1) * w)
  {
    MulBoth(u, w - 1, g);
    assert (w - 1) * g == w * g - g && (g - 1) * w == w * g - w;
    MulMonotone(x, u * g, x, (g - 1) * w);
  }

  lemma RatioGap(before: nat, after: nat, u: nat, w: nat, g: nat)
    requires after * w == before * u && u < w <= g
    ensures after * g <= before * (g - 1)
  {
    ScaleBelow(before, u, w, g);
    assert (after * g) * w == (after * w) * g == before * (u * g);
    assert (before * (g - 1)) * w == before * ((g - 1) * w);
    CancelInt(w, after * g, before * (g - 1));
  }

  lemma CutOff(n: int, q: int, g: nat)
    requires (n - q) * g <= n
    ensures n * (g - 1) <= q * g
  {}

  lemma UpperChain(x': nat, y: nat, y': nat, m': int, p: nat, p': nat, g: nat)
    requires m' * y' <= x' * p'
    ensures (m' * p) * (y * y' * g) <= ((x' * y) * g) * (p * p')
  {
    MulBoth(m' * y', x' * p', p * y * g);
    UpperLeft(m', p, y, y', g);
    UpperRight(x', y, g, p, p');
  }

  lemma UpperLeft(m: int, p: int, y: int, y': int, g: int)
    ensures (m * p) * (y * y' * g) == (m * y') * (p * y * g)
  {}

  lemma UpperRight(x: int, y: int, g: int, p: int, p': int)
    ensures ((x * y) * g) * (p * p') == (x * p') * (p * y * g)
  {}

  lemma LowerChain(x: nat, y: nat, y': nat, m: int, p: nat, p': nat, g: nat, h: nat)
    requires (x * p) * h <= (m * y) * g
    ensures ((x * y') * h) * (p * p') <= (m * p') * (y * y' * g)
  {}

  /** Where the ratio falls by more than was cut off, what was computed falls. */
  lemma TruncatedFalls(x: nat, y: nat, m: int, p: nat, x': nat, y': nat, m': int, p': nat, u: nat, w: nat, g: nat)
    requires y > 0 && y' > 0 && u < w <= g
    requires (x' * y) * w == (x * y') * u
    requires m' * y' <= x' * p' && (x * p - m * y) * g <= x * p
    ensures m' * p <= m * p'
  {
    RatioGap(x * y', x' * y, u, w, g);
    CutOff(x * p, m * y, g);
    UpperChain(x', y, y', m', p, p', g);
    MulBoth((x' * y) * g, (x * y') * (g - 1), p * p');
    LowerChain(x, y, y', m, p, p', g, g - 1);
    Positive(y, y', g);
    CancelInt(y * y' * g, m' * p, m * p');
  }

  lemma Positive(x: nat, y: nat, z: nat)
    requires x > 0 && y > 0 && z > 0
    ensures x * y * z > 0
  {}

  /** More trials than a double can count. */
  const MAX_TRIALS: nat := 0x8000_0000_0000_0000

  lemma MaxTrialsFit()
    ensures MAX_TRIALS == Pow2(GUARD - 1)
  {
    assert Pow2(3) == 8;
    Pow2Adds(3, 4);
    assert Pow2(4) == 16 && Pow2(7) == 128;
    Pow2Adds(4, 4);
    Pow2Adds(7, 8);
    Pow2Adds(8, 8);
    Pow2Adds(15, 16);
    Pow2Adds(16, 16);
    Pow2Adds(31, 32);
  }

  /** `v` is C(a, k) / C(b, k) as computed. */
  ghost predicate IsRatio(a: nat, b: nat, k: nat, v: Dyadic) {
    Computed(v, Choose(a, k), Choose(b, k))
  }

  /** C(a, k) / C(b, k) as computed does not grow with `k`, up to 2^63 trials. */
  lemma ComputedFalls(a: nat, b: nat, k: nat, v: Dyadic, v': Dyadic)
    requires a <= b && k < b <= MAX_TRIALS && IsRatio(a, b, k, v) && IsRatio(a, b, k + 1, v')
    ensures AtMost(v', v)
  {
    MaxTrialsFit();
    var x, y, x', y' := Choose(a, k), Choose(b, k), Choose(a, k + 1), Choose(b, k + 1);
    ChoosePositive(b, k);
    ChoosePositive(b, k + 1);
    if a == b {
      assert v'.m * Pow2(v.e) == v.m * Pow2(v'.e);
    } else {
      var u := RatioStep(a, b, k);
      TruncatedFalls(x, y, v.m, Pow2(v.e), x', y', v'.m, Pow2(v'.e), u, b - k, Pow2(GUARD - 1));
    }
  }

  /** From `k` to `k + 1` the ratio is multiplied by u/(b-k). */
  lemma RatioStep(a: nat, b: nat, k: nat) returns (u: nat)
    requires a < b && k < b
    ensures u < b - k && (Choose(a, k + 1) * Choose(b, k)) * (b - k) == (Choose(a, k) * Choose(b, k + 1)) * u
  {
    u := if k <= a then a - k else 0;
    ChooseStep(b, k);
    if k <= a {
      ChooseStep(a, k);
      CrossEqual(Choose(a, k), Choose(a, k + 1), u, Choose(b, k), Choose(b, k + 1), b - k, k + 1);
    } else {
      ChooseZero(a, k);
      ChooseZero(a, k + 1);
    }
  }

  lemma CrossEqual(x: nat, x': nat, u: nat, y: nat, y': nat, w: nat, f: nat)
    requires f > 0 && f * x' == x * u && f * y' == y * w
    ensures (x' * y) * w == (x * y') * u
  {}

  /** As computed, pass^k is non-increasing in k, up to 2^63 trials. */
  lemma HatFalls(n: nat, c: nat, k: nat, hat: Dyadic, hat': Dyadic)
    requires c <= n && k < n <= MAX_TRIALS && IsPassHatK(n, c, k, hat) && IsPassHatK(n, c, k + 1, hat')
    ensures AtMost(hat', hat)
  {
    HatIsComputed(n, c, k, hat);
    HatIsComputed(n, c, k + 1, hat');
    ComputedFalls(c, n, k, hat, hat');
  }

  /** As computed, pass@k is non-decreasing in k, up to 2^63 trials. */
  lemma AtRises(n: nat, c: nat, k: nat, at: Dyadic, at': Dyadic)
    requires c <= n && k < n <= MAX_TRIALS && IsPassAtK(n, c, k, at) && IsPassAtK(n, c, k + 1, at')
    ensures AtMost(at, at')
  {
    if c > 0 {
      ComputedFalls(n - c, n, k, OneMinus(at), OneMinus(at'));
      ComplementsTurn(at, at');
    }
  }

  lemma HatIsComputed(n: nat, c: nat, k: nat, hat: Dyadic)
    requires k <= n && IsPassHatK(n, c, k, hat)
    ensures IsRatio(c, n, k, hat)
  {
    ChoosePositive(n, k);
    if c < k { ChooseZero(c, k); }
  }

  lemma ComplementsTurn(x: Dyadic, y: Dyadic)
    requires AtMost(OneMinus(y), OneMinus(x))
    ensures AtMost(x, y)
  {}
}
