/** The dashboard's session state: the latest sample, the route recorded in
    this session, the flight history and the key/value store that mirrors
    it. */
module Dashboard {
  import opened Telemetry
  import opened FlightHistory
  import Distance

  class Session {
    /** The pairwise great-circle distance. */
    const dist: Distance.Metric
    var telemetry: Option<Sample>
    var route: seq<Waypoint>
    var history: seq<FlightRecord>
    var store: Store

    /** The history always equals what a new session would load from the
        store. */
    ghost predicate Valid()
      reads this
    {
      history == LoadHistory(store)
    }

    /** Mounting the dashboard with the store's current contents. */
    constructor (dist: Distance.Metric, store: Store)
      ensures Valid()
      ensures this.dist == dist && this.store == store
      ensures telemetry == None && route == []
    {
      this.dist := dist;
      this.store := store;
      telemetry := None;
      route := [];
      history := LoadHistory(store);
    }

    /** A `telemetry` event: the sample becomes current and its position is
        appended to the route. */
    method OnTelemetry(data: Sample)
      requires Valid()
      modifies this
      ensures Valid()
      ensures telemetry == Some(data)
      ensures route == old(route) + [data.gps]
      ensures history == old(history) && store == old(store)
    {
      telemetry := Some(data);
      route := route + [data.gps];
    }

    /** The "Clean Route" button. */
    method CleanRoute()
      requires Valid()
      modifies this
      ensures Valid()
      ensures route == []
      ensures telemetry == old(telemetry) && history == old(history) && store == old(store)
    {
      route := [];
    }

    /** Saving the current route as a flight; `id` and `date` are the clock
        readings taken at that moment. */
    method SaveFlight(id: int, date: string)
      requires Valid()
      modifies this
      ensures Valid()
      ensures history == old(history) + [FlightRecord(id, date, Distance.PathLength(dist, old(route)), old(route))]
      ensures store == old(store)[HistoryKey := history]
      ensures route == [] && telemetry == old(telemetry)
      ensures AllConsistent(dist, old(history)) ==> AllConsistent(dist, history)
    {
      var distance := Distance.TotalDistance(dist, route);
      var entry := FlightRecord(id, date, distance, route);
      var updated := history + [entry];
      history := updated;
      store := store[HistoryKey := updated];
      route := [];
    }

    /** Deleting every flight whose id is `id`. */
    method DeleteFlight(id: int)
      requires Valid()
      modifies this
      ensures Valid()
      ensures history == Without(old(history), id)
      ensures store == old(store)[HistoryKey := history]
      ensures route == old(route) && telemetry == old(telemetry)
      ensures AllConsistent(dist, old(history)) ==> AllConsistent(dist, history)
    {
      var updated := Without(history, id);
      history := updated;
      store := store[HistoryKey := updated];
    }
  }
}
