/**
 * The values that flow through the speed pipeline: a GPS tracking point, a
 * timestamped map entry and a speed observation.
 */
module Track {

  /**
   * One tracking point: its event time in epoch milliseconds and its position
   * in degrees. Elevation is carried by the GPX format but never read.
   */
  datatype TrkPt = TrkPt(time: int, latitude: real, longitude: real)

  /** A keyed value with an event-time timestamp in milliseconds. */
  datatype TimestampedEntry<V> = TimestampedEntry(timestamp: int, key: string, value: V)

  /**
   * The double `metres / seconds`. When the whole seconds are zero the
   * division is by +0.0; the model keeps the numerator instead of a number.
   */
  datatype Rate = Finite(mps: real) | OverZero(metres: real)

  /** A speed in metres per second observed at a time in milliseconds. */
  datatype Speed = Speed(metresPerSecond: Rate, time: int)

  /** A freshly constructed Speed: both fields zero. */
  const DEFAULT_SPEED: Speed := Speed(Finite(0.0), 0)

  /** `metresPerSecond > 0`; for x / +0.0 that is +Infinity when x > 0 and NaN when x == 0. */
  predicate Positive(r: Rate) {
    match r
    case Finite(v) => v > 0.0
    case OverZero(m) => m > 0.0
  }
}
