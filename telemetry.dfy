/** Values that travel from the backend sampler to every dashboard: the
    waypoint, the weather reading and the telemetry sample itself. */
module Telemetry {

  /** A value that may be missing; `None` stands for JavaScript's `null`. */
  datatype Option<T> = None | Some(value: T)

  /** One geographic coordinate of the route table. */
  datatype Waypoint = Waypoint(lat: real, lng: real)

  /** The weather part of a sample. The numeric fields are `None` when the
      conditions are unknown. */
  datatype WeatherReading = WeatherReading(
    temp: Option<real>,
    humidity: Option<real>,
    description: string,
    windSpeed: Option<real>)

  /** The reading used when the weather provider could not be asked or
      answered with something unusable. */
  const UnknownWeather := WeatherReading(None, None, "N/A", None)

  /** One emitted telemetry record. */
  datatype Sample = Sample(
    gps: Waypoint,
    battery: int,
    altitude: real,
    speed: real,
    weather: WeatherReading)
}
