/** Saved flights and the two pure steps the dashboard performs on them:
    reading the initial history from the store and filtering out an id. */
module FlightHistory {
  import opened Telemetry
  import Distance

  /** One saved flight: `id` and `date` come from the clock at save time. */
  datatype FlightRecord = FlightRecord(id: int, date: string, distance: real, points: seq<Waypoint>)

  /** The key/value store, with values already deserialized. */
  type Store = map<string, seq<FlightRecord>>

  const HistoryKey := "flightHistory"

  /** The history a fresh dashboard starts with. */
  function LoadHistory(store: Store): (h: seq<FlightRecord>)
    ensures HistoryKey !in store ==> h == []
    ensures HistoryKey in store ==> h == store[HistoryKey]
  {
    if HistoryKey in store then store[HistoryKey] else []
  }

  /** A record whose stored distance is the length of its own points. */
  ghost predicate Consistent(d: Distance.Metric, r: FlightRecord) {
    r.distance == Distance.PathLength(d, r.points)
  }

  ghost predicate AllConsistent(d: Distance.Metric, h: seq<FlightRecord>) {
    forall r :: r in h ==> Consistent(d, r)
  }

  /** The records whose id differs from `id`, in their original order. */
  function Without(h: seq<FlightRecord>, id: int): (r: seq<FlightRecord>)
    ensures |r| <= |h|
    ensures forall x :: x in r <==> x in h && x.id != id
  {
    if h == [] then []
    else (if h[0].id != id then [h[0]] else []) + Without(h[1..], id)
  }

  /** Number of records carrying `id`. */
  function CountId(h: seq<FlightRecord>, id: int): (count: nat) {
    if h == [] then 0 else (if h[0].id == id then 1 else 0) + CountId(h[1..], id)
  }

  /** Filtering distributes over concatenation: blocks keep their order. */
  lemma {:induction false} WithoutAppend(a: seq<FlightRecord>, b: seq<FlightRecord>, id: int)
    ensures Without(a + b, id) == Without(a, id) + Without(b, id)
    decreases |a|
  {
    if a == [] {
      assert a + b == b;
    } else {
      assert (a + b)[1..] == a[1..] + b;
      WithoutAppend(a[1..], b, id);
    }
  }

  /** Filtering an id that no record carries changes nothing. */
  lemma {:induction false} WithoutAbsent(h: seq<FlightRecord>, id: int)
    requires forall x :: x in h ==> x.id != id
    ensures Without(h, id) == h
    decreases |h|
  {
    if h != [] {
      assert h[0] in h;
      assert forall x :: x in h[1..] ==> x in h;
      WithoutAbsent(h[1..], id);
      assert h == [h[0]] + h[1..];
    }
  }

  /** Deleting the same id twice is the same as deleting it once. */
  lemma WithoutIdempotent(h: seq<FlightRecord>, id: int)
    ensures Without(Without(h, id), id) == Without(h, id)
  {
    WithoutAbsent(Without(h, id), id);
  }

  /** Exactly the records carrying `id` are removed, however many there are. */
  lemma {:induction false} WithoutRemovesAll(h: seq<FlightRecord>, id: int)
    ensures |Without(h, id)| == |h| - CountId(h, id)
    decreases |h|
  {
    if h != [] {
      WithoutRemovesAll(h[1..], id);
    }
  }

  /** Two saved flights that share an id both disappear in one delete. */
  lemma DeleteRemovesBothDuplicates(a: FlightRecord, b: FlightRecord, c: FlightRecord)
    requires a.id == b.id && c.id != a.id
    ensures Without([a, c, b], a.id) == [c]
  {
    var id := a.id;
    assert [b][1..] == [];
    assert Without([b], id) == [];
    assert [c, b][1..] == [b];
    assert Without([c, b], id) == [c];
    assert [a, c, b][1..] == [c, b];
  }

  /** Filtering keeps every record's distance consistent with its points. */
  lemma WithoutKeepsConsistent(d: Distance.Metric, h: seq<FlightRecord>, id: int)
    requires AllConsistent(d, h)
    ensures AllConsistent(d, Without(h, id))
  {
  }
}
