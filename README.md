# Drone monitoring core, modelled in Dafny

This project models the two pieces of sequential logic in the drone monitoring
system:

- **The telemetry sampler** (`Backend/index.js`). Once per second it reads the
  waypoint under a module-level cursor, asks a weather provider about that
  point (falling back to an "unknown" reading on any failure), synthesizes
  battery, altitude and speed, emits one sample to every connected dashboard,
  and advances the cursor modulo the route length.
- **The dashboard session** (`frontend/src/App.js`). It keeps the latest
  sample and the route recorded in the current session (one point per
  received sample). It computes the route's cumulative length as a loop over
  consecutive pairs, and it keeps a flight history. The history is appended to
  on save, filtered on delete, and mirrored into the browser's key/value store
  under `"flightHistory"`.

Files:

| file | module | models |
|---|---|---|
| `telemetry.dfy` | `Telemetry` | waypoint, weather reading, sample (the payload of the `telemetry` event) |
| `sampler.dfy` | `Sampler` | weather fallback, battery, altitude and speed formulas, the cursor, the `TelemetrySampler` class and its `Tick` |
| `distance.dfy` | `Distance` | `calculateTotalDistance` as a loop proved against `PathLength`, and the algebra of `PathLength` |
| `history.dfy` | `FlightHistory` | flight records, loading the history from the store, the delete filter |
| `dashboard.dfy` | `Dashboard` | the `Session` class: telemetry handler, "Clean Route", save, delete |

The haversine distance is a parameter `d: (Waypoint, Waypoint) -> real`. Lemmas
that need symmetry, `d(p, p) == 0` or non-negativity take it as a `requires`.
The two `Math.random()` draws are parameters in `[0, 1)`. The `Date.now()` id
and the `toLocaleString()` date are parameters of `SaveFlight`. The weather
request becomes an input `WeatherFetch = Success(temp, humidity, description,
wind) | Failure`. `Failure` covers everything that lands in the `catch` at
`Backend/index.js:64`: a transport error, a non-2xx answer, and a payload
missing `main`, `weather[0]` or `wind`. A payload that has those objects but
lacks a numeric leaf does not throw. Its reading then has that one field
unknown beside the fetched ones (`Sampler.MissingLeafIsNotFallback`).

The system's intended behaviour differs from what the code does in a few
places. The model follows the code:

- **Battery.** A steadily draining battery, driven by a raw tick count, would
  be the natural intent. `Backend/index.js:70` instead uses the *wrapped*
  cursor, so the battery climbs back to 27 each time the cursor wraps to 0
  (`Sampler.BatteryNotMonotone`, `Sampler.BatteryResetsAfterWrap`). The
  sampler has no tick counter at all. On a route of three waypoints, the
  fifth sample is taken at cursor 1 and carries 26, not 20
  (`Sampler.FifthSampleOnThreeWaypoints`).
- **Delete.** Deleting a flight is meant to remove that one record.
  `App.js:91` filters out *every* record with that id
  (`FlightHistory.WithoutRemovesAll`, `FlightHistory.DeleteRemovesBothDuplicates`).
- **Corrupt storage.** A corrupt stored history is meant to load as an empty
  one. `App.js:73` calls `JSON.parse` unguarded, so corrupt storage throws.
  Only an absent key yields `[]`. Serialization is not modelled, so the model
  claims nothing about corrupt input.
- **Clamp.** A haversine is normally clamped to `[0, 1]` before the inverse
  trigonometry. `App.js:56` does not clamp `a`. This does not matter here
  because `d` is abstract.

## Model

| member | source | states |
|---|---|---|
| `Sampler.WeatherOf` | Backend/index.js:40-66 | a failed fetch yields exactly `{temp: null, humidity: null, description: "N/A", windSpeed: null}`; a successful one takes every field from the payload, absent leaves included; so the reading is never a mix of fallback and fetched values |
| `Sampler.MissingLeafIsNotFallback` | Backend/index.js:57-63 | a payload lacking only `main.temp` gives an unknown temperature beside the fetched description, not the fallback |
| `Sampler.Battery` | Backend/index.js:70 | battery is the larger of 20 and `27 - cursor`, so it lies in `[20, 27]`; it is 20 from cursor 7 on and 27 at cursor 0 |
| `Sampler.Altitude` | Backend/index.js:71 | with a draw in `[0, 1)` the altitude lies in `[50, 60)` |
| `Sampler.Speed` | Backend/index.js:72 | with a draw in `[0, 1)` the speed lies in `[5, 8)` |
| `Sampler.Next` | Backend/index.js:78 | the advanced cursor is below the route length; from a valid cursor it is the successor, or 0 after the last waypoint |
| `Sampler.CursorAfter` | Backend/index.js:37-79 | the cursor after any number of ticks stays inside the route |
| `Sampler.CursorAfterIsMod` | Backend/index.js:78 | after `k` ticks from `start` the cursor is `(start + k) % n` |
| `Sampler.CursorPeriodic` | Backend/index.js:78 | `n` ticks return the cursor to its start, and the cursor sequence has period `n` |
| `Sampler.BatteryNotMonotone` | Backend/index.js:70-78 | on a two-waypoint route the emitted battery levels run 27, 26, 27 |
| `Sampler.FifthSampleOnThreeWaypoints` | Backend/index.js:70-78 | on a three-waypoint route the fifth sample is taken at cursor 1 and carries battery 26 |
| `Sampler.BatteryResetsAfterWrap` | Backend/index.js:70-78 | the sample after the cursor leaves the last waypoint carries battery 27 |
| `Sampler.TelemetrySampler.constructor` | Backend/index.js:35 | the sampler starts at cursor 0 over a non-empty route |
| `Sampler.TelemetrySampler.Tick` | Backend/index.js:38-78 | one call returns exactly one sample whose gps is the waypoint under the old cursor, with the battery of the old cursor, the weather of the fetch outcome and the altitude and speed of the draws; the cursor advances exactly once whatever the weather; the route is a constant and never changes |
| `Distance.TotalDistance` | frontend/src/App.js:61-67 | the loop's total equals the sum of `d(route[i-1], route[i])` for every `i` from 1 to the last index, and is 0 for 0 or 1 points |
| `Distance.AppendPoint` | frontend/src/App.js:61-66 | appending `p` to a non-empty route adds exactly `d(last, p)` |
| `Distance.PrependPoint` | frontend/src/App.js:61-66 | prepending `p` to a non-empty route adds exactly `d(p, first)` |
| `Distance.Concat` | frontend/src/App.js:61-66 | the length of two joined routes is the sum of both lengths plus the seam pair |
| `Distance.ReverseLength` | frontend/src/App.js:61-66 | with a symmetric `d`, reversing the route leaves its length unchanged |
| `Distance.DuplicatePoint` | frontend/src/App.js:61-66 | with `d(p, p) == 0`, repeating a point right after itself leaves the length unchanged |
| `Distance.LengthNonNegative` | frontend/src/App.js:61-66 | with a non-negative `d`, the length is non-negative |
| `FlightHistory.LoadHistory` | frontend/src/App.js:71-74 | the initial history is empty when `"flightHistory"` is absent and the stored history otherwise |
| `FlightHistory.Without` | frontend/src/App.js:91 | the result holds exactly the records whose id differs, and is no longer than the input |
| `FlightHistory.WithoutAppend` | frontend/src/App.js:91 | filtering distributes over concatenation, so the kept records stay in their original order |
| `FlightHistory.WithoutAbsent` | frontend/src/App.js:91 | deleting an id that no record carries leaves the history unchanged |
| `FlightHistory.WithoutIdempotent` | frontend/src/App.js:91 | deleting an id twice is the same as deleting it once |
| `FlightHistory.WithoutRemovesAll` | frontend/src/App.js:91 | the history loses exactly as many records as carry the id |
| `FlightHistory.DeleteRemovesBothDuplicates` | frontend/src/App.js:91 | two records with the same id are both removed by one delete |
| `FlightHistory.WithoutKeepsConsistent` | frontend/src/App.js:91 | every kept record still has a distance equal to the length of its points |
| `Dashboard.Session.constructor` | frontend/src/App.js:11-12 | no current telemetry, an empty route, and the history loaded from the store as at App.js:71-74 (empty when `"flightHistory"` is absent) |
| `Dashboard.Session.OnTelemetry` | frontend/src/App.js:15-18 | the sample becomes the current telemetry; its gps is appended at the end of the route; history and store are unchanged |
| `Dashboard.Session.CleanRoute` | frontend/src/App.js:138 | the route becomes empty; telemetry, history and store are unchanged |
| `Dashboard.Session.SaveFlight` | frontend/src/App.js:76-88 | exactly one record is appended with `points` equal to the route and `distance` equal to its length; the store's `"flightHistory"` slot holds the new history; the route is emptied; consistent records stay consistent |
| `Dashboard.Session.DeleteFlight` | frontend/src/App.js:90-94 | the history becomes the filtered history and the store's slot holds it; route and telemetry are unchanged |

`Dashboard.Session.Valid` ties the history to the store. After every operation,
a fresh session loaded from the store would see the same history.

## Left out

- socket.io server, connection and disconnection handling, and the broadcast
  fan-out (`Backend/index.js:27-33, 76, 81-87`, `App.js:7, 15`): foreign
  library and concurrency. Emitting is modelled as `Tick` returning the sample.
- `setInterval` scheduling and overlapping asynchronous ticks: timing and
  concurrency. One tick is one `Tick` call, and repeated ticks are
  `CursorAfter`.
- The axios request to the weather provider and the API credential from
  dotenv: network I/O, replaced by the `WeatherFetch` input.
- Sampler.WeatherOf: an absent leaf (`undefined`) and a `null` leaf are both
  `None`; a payload whose `weather[0].description` is absent is not
  represented, because the description is a string; the `console.error` log
  at `Backend/index.js:65` is dropped.
- Reading `route.json` from disk: file I/O. The route is the constructor's
  non-empty argument.
- The haversine trigonometry (`App.js:43-59`) and `toFixed` formatting:
  floating-point numerics. `d` is abstract, and sums are exact reals rather
  than IEEE doubles.
- `Math.random()`: the draws are parameters in `[0, 1)`.
- Sampler.Altitude: computed in exact reals. With IEEE doubles, the largest
  draws round `50 + u * 10` up to exactly 60, so the program can emit 60,
  which the contract's bound `a < 60` excludes.
- `JSON.stringify`, `JSON.parse` and `localStorage` itself: the store is a map
  from keys to already-deserialized histories. So an empty-string value
  (falsy, hence `[]`) and corrupt input (an exception) are not modelled.
- `Date.now()` and `toLocaleString()`: clock reads, passed in as parameters.
  Nothing in the code makes ids unique, and the model does not assume it.
- PDF and JSON exports, tab state, JSX markup and `frontend/src/components/Map.jsx`:
  presentation.
- React's batching of `setState` updates: each handler is modelled as one
  atomic state change.
