/**
  The fan-out sweep line (conformance/src/lib/fan-out-witness.ts, `maxInFlight`).
 */
module SweepLine {
  import opened Seqs

  datatype Window = Window(start: int, end: int)

  /** A window opens (`delta` 1) or closes (`delta` -1). */
  datatype Point = Point(at: int, delta: int)

  // ---------------------------------------------------------------- what is measured

  /** The windows in flight at `t`, not counting their first `tolerance`. */
  ghost function InFlight(ws: seq<Window>, tolerance: int, t: int): set<nat> {
    set i: nat | i < |ws| && ws[i].start + tolerance <= t < ws[i].end
  }

  /** A set of windows whose common intersection is longer than the tolerance. */
  ghost predicate Overlap(ws: seq<Window>, tolerance: int, s: set<nat>) {
    && (forall i | i in s :: i < |ws|)
    && (forall i, j | i in s && j in s :: ws[i].start + tolerance < ws[j].end)
  }

  // ---------------------------------------------------------------- the sweep

  function PointsOf(ws: seq<Window>, tolerance: int): (points: seq<Point>)
    ensures forall p | p in points :: p.delta == 1 || p.delta == -1
  {
    if ws == [] then []
    else
      var w := ws[|ws| - 1];
      PointsOf(ws[..|ws| - 1], tolerance)
      + if w.start + tolerance < w.end then [Point(w.start + tolerance, 1), Point(w.end, -1)] else []
  }

  /** At the same instant an end sorts before a start. */
  predicate InOrder(p: Point, q: Point) {
    p.at < q.at || (p.at == q.at && p.delta <= q.delta)
  }

  ghost predicate Sorted(points: seq<Point>) {
    forall i, j | 0 <= i < j < |points| :: InOrder(points[i], points[j])
  }

  method Insert(points: seq<Point>, p: Point) returns (r: seq<Point>)
    requires Sorted(points)
    ensures Sorted(r) && multiset(r) == multiset(points) + multiset{p}
  {
    var i := |points|;
    while i > 0 && !InOrder(points[i - 1], p)
      invariant 0 <= i <= |points|
      invariant forall k | i <= k < |points| :: InOrder(p, points[k])
    {
      i := i - 1;
    }
    r := points[..i] + [p] + points[i..];
    assert multiset(r) == multiset(points) + multiset{p} by { assert points == points[..i] + points[i..]; }
    InsertedSorted(points, i, p);
  }

  lemma InsertedSorted(points: seq<Point>, i: nat, p: Point)
    requires Sorted(points) && i <= |points|
    requires i > 0 ==> InOrder(points[i - 1], p)
    requires forall k | i <= k < |points| :: InOrder(p, points[k])
    ensures Sorted(points[..i] + [p] + points[i..])
  {}

  method Sort(points: seq<Point>) returns (r: seq<Point>)
    ensures Sorted(r) && multiset(r) == multiset(points)
  {
    r := [];
    for k := 0 to |points|
      invariant Sorted(r) && multiset(r) == multiset(points[..k])
    {
      assert points[..k + 1] == points[..k] + [points[k]];
      r := Insert(r, points[k]);
    }
    assert points[..|points|] == points;
  }

  /** Opened minus closed, over the whole list, and over the part of it up to an instant. */
  ghost function Net(points: seq<Point>): int {
    if points == [] then 0 else Net(points[..|points| - 1]) + points[|points| - 1].delta
  }

  ghost function NetAt(points: seq<Point>, t: int): int {
    if points == [] then 0
    else NetAt(points[..|points| - 1], t) + if points[|points| - 1].at <= t then points[|points| - 1].delta else 0
  }

  /** The running sum's maximum, but at least 1. */
  method Sweep(points: seq<Point>) returns (best: nat)
    ensures best >= 1 && forall j | 0 <= j <= |points| :: Net(points[..j]) <= best
    ensures best > 1 ==> exists j :: 0 <= j <= |points| && Net(points[..j]) == best
  {
    var cur := 0;
    best := 1;
    for k := 0 to |points|
      invariant cur == Net(points[..k]) && best >= 1
      invariant forall j | 0 <= j <= k :: Net(points[..j]) <= best
      invariant best > 1 ==> exists j :: 0 <= j <= k && Net(points[..j]) == best
    {
      assert points[..k + 1][..k] == points[..k];
      cur := cur + points[k].delta;
      best := if cur > best then cur else best;
    }
  }

  /** The larger of 1 and the greatest number of windows in flight at any instant; 0 without windows. */
  method MaxInFlight(windows: seq<Window>, tolerance: int) returns (best: nat)
    ensures windows == [] ==> best == 0
    ensures windows != [] ==> best >= 1
    ensures windows != [] ==> forall t :: |InFlight(windows, tolerance, t)| <= best
    ensures best > 1 ==> exists t :: |InFlight(windows, tolerance, t)| == best
  {
    if windows == [] { return 0; }
    var points := PointsOf(windows, tolerance);
    var sorted := Sort(points);
    forall p | p in sorted
      ensures p.delta == 1 || p.delta == -1
    { assert p in multiset(sorted) && p in multiset(points); }
    best := Sweep(sorted);
    BestIsMaximum(windows, tolerance, sorted, best);
  }

  /** The prefix sums of the sorted points and the instants have the same maximum. */
  lemma BestIsMaximum(ws: seq<Window>, tolerance: int, sorted: seq<Point>, best: nat)
    requires Sorted(sorted) && multiset(sorted) == multiset(PointsOf(ws, tolerance))
    requires forall p | p in sorted :: p.delta == 1 || p.delta == -1
    requires forall j | 0 <= j <= |sorted| :: Net(sorted[..j]) <= best
    requires best > 1 ==> exists j :: 0 <= j <= |sorted| && Net(sorted[..j]) == best
    ensures forall t :: |InFlight(ws, tolerance, t)| <= best
    ensures best > 1 ==> exists t :: |InFlight(ws, tolerance, t)| == best
  {
    forall t
      ensures |InFlight(ws, tolerance, t)| == NetAt(sorted, t) <= best
    {
      NetCountsInFlight(ws, tolerance, t);
      NetAtPermutes(PointsOf(ws, tolerance), sorted, t);
      var k := NetAtIsPrefix(sorted, t);
    }
    if best > 1 {
      var j :| 0 <= j <= |sorted| && Net(sorted[..j]) == best;
      var t := PrefixBelowInstant(sorted, j);
      assert |InFlight(ws, tolerance, t)| == best;
    }
  }

  // ---------------------------------------------------------------- prefixes and instants

  lemma PointsOfStep(ws: seq<Window>, tolerance: int, t: int)
    requires ws != []
    ensures var w := ws[|ws| - 1];
            NetAt(PointsOf(ws, tolerance), t)
            == NetAt(PointsOf(ws[..|ws| - 1], tolerance), t) + if w.start + tolerance <= t < w.end then 1 else 0
  {
    var w := ws[|ws| - 1];
    var before := PointsOf(ws[..|ws| - 1], tolerance);
    if w.start + tolerance < w.end {
      var pair := [Point(w.start + tolerance, 1), Point(w.end, -1)];
      assert PointsOf(ws, tolerance) == before + pair;
      NetAtConcat(before, pair, t);
      assert pair[..1] == [pair[0]] && [pair[0]][..0] == [];
      assert NetAt(pair, t) == NetAt([pair[0]], t) + if w.end <= t then -1 else 0;
    } else {
      assert before + [] == before;
    }
  }

  lemma InFlightStep(ws: seq<Window>, tolerance: int, t: int)
    requires ws != []
    ensures var w := ws[|ws| - 1];
            |InFlight(ws, tolerance, t)|
            == |InFlight(ws[..|ws| - 1], tolerance, t)| + if w.start + tolerance <= t < w.end then 1 else 0
  {
    var rest, w := ws[..|ws| - 1], ws[|ws| - 1];
    assert InFlight(ws, tolerance, t)
        == InFlight(rest, tolerance, t) + if w.start + tolerance <= t < w.end then {|rest|} else {};
  }

  lemma {:induction false} NetCountsInFlight(ws: seq<Window>, tolerance: int, t: int)
    ensures |InFlight(ws, tolerance, t)| == NetAt(PointsOf(ws, tolerance), t)
  {
    if ws == [] {
    } else {
      NetCountsInFlight(ws[..|ws| - 1], tolerance, t);
      PointsOfStep(ws, tolerance, t);
      InFlightStep(ws, tolerance, t);
    }
  }

  lemma {:induction false} NetAtConcat(a: seq<Point>, b: seq<Point>, t: int)
    ensures NetAt(a + b, t) == NetAt(a, t) + NetAt(b, t)
  {
    if b == [] {
      assert a + b == a;
    } else {
      NetAtConcat(a, b[..|b| - 1], t);
      assert (a + b)[..|a + b| - 1] == a + b[..|b| - 1];
    }
  }

  lemma {:induction false} NetConcat(a: seq<Point>, b: seq<Point>)
    ensures Net(a + b) == Net(a) + Net(b)
  {
    if b == [] {
      assert a + b == a;
    } else {
      NetConcat(a, b[..|b| - 1]);
      assert (a + b)[..|a + b| - 1] == a + b[..|b| - 1];
    }
  }

  lemma NetAtWithout(s: seq<Point>, k: nat, t: int)
    requires k < |s|
    ensures NetAt(s, t) == NetAt(Without(s, k), t) + if s[k].at <= t then s[k].delta else 0
  {
    assert s == s[..k] + ([s[k]] + s[k + 1..]);
    assert Without(s, k) == s[..k] + s[k + 1..];
    NetAtConcat(s[..k], [s[k]] + s[k + 1..], t);
    NetAtConcat([s[k]], s[k + 1..], t);
    NetAtConcat(s[..k], s[k + 1..], t);
    assert [s[k]][..0] == [];
  }

  lemma {:induction false} NetAtPermutes(a: seq<Point>, b: seq<Point>, t: int)
    requires multiset(a) == multiset(b)
    ensures NetAt(a, t) == NetAt(b, t)
    decreases |a|
  {
    assert |a| == |multiset(a)| == |multiset(b)| == |b|;
    if a == [] {
    } else {
      var n := |a| - 1;
      assert a[n] in multiset(a) && a[n] in multiset(b);
      var k :| 0 <= k < |b| && b[k] == a[n];
      NetAtWithout(a, n, t);
      NetAtWithout(b, k, t);
      NetAtPermutes(Without(a, n), Without(b, k), t);
    }
  }

  lemma {:induction false} NetAtAll(points: seq<Point>, t: int)
    ensures (forall p | p in points :: p.at <= t) ==> NetAt(points, t) == Net(points)
    ensures (forall p | p in points :: p.at > t) ==> NetAt(points, t) == 0
  {
    if points == [] {
    } else {
      NetAtAll(points[..|points| - 1], t);
    }
  }

  /** Split at any place where the points up to `t` end. */
  lemma NetAtSplit(points: seq<Point>, k: nat, t: int)
    requires k <= |points|
    requires forall i | 0 <= i < |points| :: points[i].at <= t <==> i < k
    ensures NetAt(points, t) == Net(points[..k])
  {
    assert points == points[..k] + points[k..];
    NetAtConcat(points[..k], points[k..], t);
    NetAtAll(points[..k], t);
    NetAtAll(points[k..], t);
  }

  /** In a sorted list the points up to `t` are a prefix. */
  lemma NetAtIsPrefix(points: seq<Point>, t: int) returns (k: nat)
    requires Sorted(points)
    ensures k <= |points| && NetAt(points, t) == Net(points[..k])
    ensures forall i | 0 <= i < |points| :: points[i].at <= t <==> i < k
  {
    k := |points|;
    while k > 0 && points[k - 1].at > t
      invariant k <= |points| && forall i | k <= i < |points| :: points[i].at > t
    {
      k := k - 1;
    }
    forall i | 0 <= i < k
      ensures points[i].at <= t
    { if i < k - 1 { assert InOrder(points[i], points[k - 1]); } }
    NetAtSplit(points, k, t);
  }

  lemma {:induction false} NetOfOpenings(points: seq<Point>)
    requires forall p | p in points :: p.delta == 1
    ensures Net(points) >= 0
  {
    if points == [] {
    } else {
      NetOfOpenings(points[..|points| - 1]);
    }
  }

  /** Every prefix sum is reached, or exceeded, at some instant, because ends sort before starts. */
  lemma {:induction false} PrefixBelowInstant(points: seq<Point>, k: nat) returns (t: int)
    requires Sorted(points) && forall p | p in points :: p.delta == 1 || p.delta == -1
    requires k <= |points| && Net(points[..k]) > 0
    ensures Net(points[..k]) <= NetAt(points, t)
  {
    var p := points[k - 1];
    assert points[..k][..k - 1] == points[..k - 1];
    if p.delta == -1 {
      t := PrefixBelowInstant(points, k - 1);
    } else {
      t := p.at;
      var m := NetAtIsPrefix(points, t);
      assert points[..m] == points[..k] + points[k..m];
      NetConcat(points[..k], points[k..m]);
      forall q | q in points[k..m]
        ensures q.delta == 1
      {
        var i :| k <= i < m && points[i] == q;
        assert InOrder(p, q);
      }
      NetOfOpenings(points[k..m]);
    }
  }

  // ---------------------------------------------------------------- instants and intersections

  lemma {:induction false} LatestStart(ws: seq<Window>, s: set<nat>) returns (m: nat)
    requires s != {} && forall i | i in s :: i < |ws|
    ensures m in s && forall i | i in s :: ws[i].start <= ws[m].start
  {
    var x :| x in s;
    if s == {x} {
      m := x;
    } else {
      var n := LatestStart(ws, s - {x});
      m := if ws[n].start <= ws[x].start then x else n;
    }
  }

  lemma {:induction false} SmallerSubset(s: set<nat>, n: nat) returns (r: set<nat>)
    requires n <= |s|
    ensures r <= s && |r| == n
  {
    if n == |s| {
      r := s;
    } else {
      var x :| x in s;
      r := SmallerSubset(s - {x}, n);
    }
  }

  /** `n` windows are in flight at one instant exactly when `n` windows intersect for longer than the tolerance. */
  lemma InFlightIsOverlap(ws: seq<Window>, tolerance: int, n: nat)
    requires n >= 1
    ensures (exists t :: |InFlight(ws, tolerance, t)| >= n) <==> (exists s :: |s| == n && Overlap(ws, tolerance, s))
  {
    if t :| |InFlight(ws, tolerance, t)| >= n {
      var s := SmallerSubset(InFlight(ws, tolerance, t), n);
      assert Overlap(ws, tolerance, s);
    }
    if s :| |s| == n && Overlap(ws, tolerance, s) {
      var m := LatestStart(ws, s);
      var t := ws[m].start + tolerance;
      assert s <= InFlight(ws, tolerance, t);
      assert |InFlight(ws, tolerance, t)| >= n by {
        assert InFlight(ws, tolerance, t) == s + (InFlight(ws, tolerance, t) - s);
      }
    }
  }
}
