/** Cumulative route length on the dashboard. The pairwise great-circle
    distance is a parameter `d`; only symmetry and `d(p, p) == 0` are ever
    assumed of it, and only by the lemmas that need them. */
module Distance {
  import opened Telemetry

  type Metric = (Waypoint, Waypoint) -> real

  ghost predicate Symmetric(d: Metric) {
    forall p, q :: d(p, q) == d(q, p)
  }

  ghost predicate ZeroOnSame(d: Metric) {
    forall p :: d(p, p) == 0.0
  }

  ghost predicate NonNegative(d: Metric) {
    forall p, q :: d(p, q) >= 0.0
  }

  /** Sum of `d(route[i-1], route[i])` for `i` in `1 .. |route| - 1`,
      accumulated in route order. */
  function PathLength(d: Metric, route: seq<Waypoint>): (length: real)
    decreases |route|
  {
    if |route| < 2 then 0.0
    else PathLength(d, route[..|route| - 1]) + d(route[|route| - 2], route[|route| - 1])
  }

  /** The route read backwards. */
  function Reverse(s: seq<Waypoint>): (r: seq<Waypoint>)
    ensures |r| == |s|
    ensures forall i :: 0 <= i < |s| ==> r[i] == s[|s| - 1 - i]
  {
    if s == [] then [] else [s[|s| - 1]] + Reverse(s[..|s| - 1])
  }

  /** The dashboard's loop: `total` starts at 0 and gains one pairwise
      distance per consecutive pair. */
  method TotalDistance(d: Metric, route: seq<Waypoint>) returns (total: real)
    ensures total == PathLength(d, route)
    ensures |route| < 2 ==> total == 0.0
  {
    total := 0.0;
    var i := 1;
    while i < |route|
      invariant 1 <= i
      invariant |route| > 0 ==> i <= |route| && total == PathLength(d, route[..i])
      invariant |route| == 0 ==> total == 0.0
    {
      assert route[..i + 1][..i] == route[..i];
      total := total + d(route[i - 1], route[i]);
      i := i + 1;
    }
    assert |route| > 0 ==> route[..|route|] == route;
  }

  /** Appending `p` to a non-empty route adds exactly `d(last, p)`. */
  lemma AppendPoint(d: Metric, route: seq<Waypoint>, p: Waypoint)
    requires |route| > 0
    ensures PathLength(d, route + [p]) == PathLength(d, route) + d(route[|route| - 1], p)
  {
    assert (route + [p])[..|route|] == route;
  }

  /** Prepending `p` to a non-empty route adds exactly `d(p, first)`. */
  lemma {:induction false} PrependPoint(d: Metric, p: Waypoint, route: seq<Waypoint>)
    requires |route| > 0
    ensures PathLength(d, [p] + route) == d(p, route[0]) + PathLength(d, route)
    decreases |route|
  {
    if |route| == 1 {
      assert [p] + route == [p, route[0]];
      assert [p, route[0]][..1] == [p];
    } else {
      var front := route[..|route| - 1];
      assert ([p] + route)[..|route|] == [p] + front;
      PrependPoint(d, p, front);
    }
  }

  /** Joining two non-empty routes adds the one pair at the seam. */
  lemma {:induction false} Concat(d: Metric, a: seq<Waypoint>, b: seq<Waypoint>)
    requires |a| > 0 && |b| > 0
    ensures PathLength(d, a + b) == PathLength(d, a) + d(a[|a| - 1], b[0]) + PathLength(d, b)
    decreases |b|
  {
    if |b| == 1 {
      AppendPoint(d, a, b[0]);
    } else {
      var front, last := b[..|b| - 1], b[|b| - 1];
      assert a + b == (a + front) + [last];
      assert b == front + [last];
      AppendPoint(d, a + front, last);
      AppendPoint(d, front, last);
      Concat(d, a, front);
    }
  }

  /** With a symmetric `d`, the route read backwards has the same length. */
  lemma {:induction false} ReverseLength(d: Metric, route: seq<Waypoint>)
    requires Symmetric(d)
    ensures PathLength(d, Reverse(route)) == PathLength(d, route)
    decreases |route|
  {
    if |route| >= 2 {
      var n := |route|;
      var front := route[..n - 1];
      assert Reverse(route) == [route[n - 1]] + Reverse(front);
      PrependPoint(d, route[n - 1], Reverse(front));
      ReverseLength(d, front);
      assert d(route[n - 1], route[n - 2]) == d(route[n - 2], route[n - 1]);
    }
  }

  /** With `d(p, p) == 0`, repeating the point at index `i` right after
      itself leaves the length unchanged. */
  lemma DuplicatePoint(d: Metric, route: seq<Waypoint>, i: nat)
    requires ZeroOnSame(d)
    requires i < |route|
    ensures PathLength(d, route[..i + 1] + [route[i]] + route[i + 1..]) == PathLength(d, route)
  {
    var a, b := route[..i + 1], route[i + 1..];
    var a' := a + [route[i]];
    assert route == a + b;
    assert route[..i + 1] + [route[i]] + route[i + 1..] == a' + b;
    assert a[|a| - 1] == route[i];
    assert d(route[i], route[i]) == 0.0;
    AppendPoint(d, a, route[i]);
    assert PathLength(d, a') == PathLength(d, a);
    if |b| > 0 {
      Concat(d, a', b);
      Concat(d, a, b);
    } else {
      assert a' + b == a';
      assert a + b == a;
    }
  }

  /** With a non-negative `d`, every route has a non-negative length. */
  lemma {:induction false} LengthNonNegative(d: Metric, route: seq<Waypoint>)
    requires NonNegative(d)
    ensures PathLength(d, route) >= 0.0
    decreases |route|
  {
    if |route| >= 2 {
      LengthNonNegative(d, route[..|route| - 1]);
      assert d(route[|route| - 2], route[|route| - 1]) >= 0.0;
    }
  }
}
