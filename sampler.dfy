/** The backend's periodic sampler: one tick reads the waypoint under the
    cursor, attaches the weather, synthesizes battery, altitude and speed,
    emits the sample and advances the cursor around the route. */
module Sampler {
  import opened Telemetry

  /** What the weather request produced. `Success` is a payload that has
      `main`, `weather[0]` and `wind`; each numeric leaf may still be absent
      or null (`None`) and is then copied as it is. `Failure` is everything
      that ends in the `catch`: a transport error, a non-2xx answer, or a
      payload missing `main`, `weather[0]` or `wind`. */
  datatype WeatherFetch =
    | Success(temp: Option<real>, humidity: Option<real>, description: string, wind: Option<real>)
    | Failure

  /** The weather attached to a sample: either the fallback reading as a
      whole, or every field from the payload; never some fields of each. */
  function WeatherOf(fetch: WeatherFetch): (w: WeatherReading)
    ensures fetch.Failure? ==> w == UnknownWeather
    ensures fetch.Success? ==>
      w.temp == fetch.temp && w.humidity == fetch.humidity &&
      w.description == fetch.description && w.windSpeed == fetch.wind
  {
    match fetch
    case Success(t, h, desc, wind) => WeatherReading(t, h, desc, wind)
    case Failure => UnknownWeather
  }

  /** A payload that lacks only `main.temp` does not throw: the reading has
      an unknown temperature next to the fetched description, and is not the
      fallback. */
  lemma MissingLeafIsNotFallback(humidity: real, wind: real)
    ensures WeatherOf(Success(None, Some(humidity), "clear", Some(wind))).temp == None
    ensures WeatherOf(Success(None, Some(humidity), "clear", Some(wind))).description == "clear"
    ensures WeatherOf(Success(None, Some(humidity), "clear", Some(wind))) != UnknownWeather
  {
  }

  /** Synthetic battery level for the waypoint at `cursor`: 27 minus the
      cursor, floored at 20. */
  function Battery(cursor: nat): (b: int)
    ensures 20 <= b <= 27
    ensures b >= 27 - cursor
    ensures b == 20 || b == 27 - cursor
    ensures cursor >= 7 ==> b == 20
    ensures cursor == 0 ==> b == 27
  {
    if 27 - cursor > 20 then 27 - cursor else 20
  }

  /** Altitude from a uniform draw `u` in [0, 1). */
  function Altitude(u: real): (a: real)
    requires 0.0 <= u < 1.0
    ensures 50.0 <= a < 60.0
  {
    50.0 + u * 10.0
  }

  /** Speed from a uniform draw `u` in [0, 1). */
  function Speed(u: real): (s: real)
    requires 0.0 <= u < 1.0
    ensures 5.0 <= s < 8.0
  {
    5.0 + u * 3.0
  }

  /** The cursor after one tick on a route of `n` waypoints. */
  function Next(cursor: nat, n: nat): (c: nat)
    requires n > 0
    ensures c < n
    ensures cursor < n ==> c == if cursor + 1 < n then cursor + 1 else 0
  {
    (cursor + 1) % n
  }

  /** The cursor after `k` ticks starting from `start`. */
  function CursorAfter(start: nat, k: nat, n: nat): (c: nat)
    requires n > 0 && start < n
    ensures c < n
  {
    if k == 0 then start else Next(CursorAfter(start, k - 1, n), n)
  }

  lemma MulAtLeast(a: int, n: int)
    requires a >= 1 && n > 0
    ensures a * n >= n
  {
  }

  /** Euclidean division is unique: `q * n + r` with `0 <= r < n` leaves
      remainder `r`. */
  lemma ModUnique(x: int, n: int, q: int, r: int)
    requires n > 0 && 0 <= r < n && x == q * n + r
    ensures x % n == r
  {
    var q', r' := x / n, x % n;
    assert x == q' * n + r';
    assert (q - q') * n == r' - r;
    if q > q' {
      MulAtLeast(q - q', n);
    } else if q < q' {
      MulAtLeast(q' - q, n);
    }
  }

  lemma ModAddPeriod(x: nat, n: nat)
    requires n > 0
    ensures (x + n) % n == x % n
  {
    var q := x / n;
    assert x == q * n + x % n;
    assert (q + 1) * n == q * n + n;
    ModUnique(x + n, n, q + 1, x % n);
  }

  lemma NextMod(x: nat, n: nat)
    requires n > 0
    ensures Next(x % n, n) == (x + 1) % n
  {
    var q, m := x / n, x % n;
    assert x == q * n + m;
    if m + 1 < n {
      ModUnique(m + 1, n, 0, m + 1);
      ModUnique(x + 1, n, q, m + 1);
    } else {
      ModUnique(m + 1, n, 1, 0);
      assert (q + 1) * n == q * n + n;
      ModUnique(x + 1, n, q + 1, 0);
    }
  }

  /** After `k` ticks the cursor is `(start + k) % n`. */
  lemma {:induction false} CursorAfterIsMod(start: nat, k: nat, n: nat)
    requires n > 0 && start < n
    ensures CursorAfter(start, k, n) == (start + k) % n
  {
    if k > 0 {
      CursorAfterIsMod(start, k - 1, n);
      NextMod(start + k - 1, n);
    }
  }

  /** `n` consecutive ticks bring the cursor back to where it started, and
      the cursor sequence is periodic with period `n`. */
  lemma CursorPeriodic(start: nat, k: nat, n: nat)
    requires n > 0 && start < n
    ensures CursorAfter(start, n, n) == start
    ensures CursorAfter(start, k + n, n) == CursorAfter(start, k, n)
  {
    CursorAfterIsMod(start, n, n);
    CursorAfterIsMod(start, k, n);
    CursorAfterIsMod(start, k + n, n);
    ModAddPeriod(start, n);
    ModUnique(start, n, 0, start);
    ModAddPeriod(start + k, n);
  }

  /** The battery follows the wrapped cursor, so it climbs back to 27 on the
      tick after the cursor wraps: on a route of two waypoints the emitted
      levels are 27, 26, 27. */
  lemma BatteryNotMonotone()
    ensures Battery(CursorAfter(0, 0, 2)) == 27
    ensures Battery(CursorAfter(0, 1, 2)) == 26
    ensures Battery(CursorAfter(0, 2, 2)) == 27
  {
  }

  /** On a route of three waypoints, the fifth sample is emitted with the
      cursor at 1 and so carries battery 26. */
  lemma FifthSampleOnThreeWaypoints()
    ensures CursorAfter(0, 4, 3) == 1
    ensures Battery(CursorAfter(0, 4, 3)) == 26
  {
    CursorAfterIsMod(0, 4, 3);
  }

  /** Whenever a tick moves the cursor from the last waypoint, the next
      sample carries a full synthetic battery again. */
  lemma BatteryResetsAfterWrap(start: nat, k: nat, n: nat)
    requires n > 0 && start < n
    requires CursorAfter(start, k, n) == n - 1
    ensures Battery(CursorAfter(start, k + 1, n)) == 27
  {
  }

  /** The sampler: a fixed route table and a cursor into it. */
  class TelemetrySampler {
    const route: seq<Waypoint>
    var cursor: nat

    ghost predicate Valid()
      reads this
    {
      0 < |route| && cursor < |route|
    }

    constructor (route: seq<Waypoint>)
      requires |route| > 0
      ensures Valid()
      ensures this.route == route && cursor == 0
    {
      this.route := route;
      cursor := 0;
    }

    /** One tick. `fetch` is the weather request's outcome, `u1` and `u2`
        the two uniform draws; the returned sample is what is emitted. */
    method Tick(fetch: WeatherFetch, u1: real, u2: real) returns (sample: Sample)
      requires Valid()
      requires 0.0 <= u1 < 1.0 && 0.0 <= u2 < 1.0
      modifies this
      ensures Valid()
      ensures sample.gps == route[old(cursor)]
      ensures sample.battery == Battery(old(cursor))
      ensures sample.weather == WeatherOf(fetch)
      ensures sample.altitude == Altitude(u1) && sample.speed == Speed(u2)
      ensures cursor == Next(old(cursor), |route|)
    {
      var position := route[cursor];
      var weather := UnknownWeather;
      if fetch.Success? {
        weather := WeatherReading(fetch.temp, fetch.humidity, fetch.description, fetch.wind);
      }
      sample := Sample(position, Battery(cursor), Altitude(u1), Speed(u2), weather);
      cursor := (cursor + 1) % |route|;
    }
  }
}
