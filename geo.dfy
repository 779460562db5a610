/**
 * Routes as the activity tables carry them: an encoded `summary_polyline`
 * per activity, decoded by the `polyline` package into (lat, lon) points.
 * The decoder is third-party code and enters the model as a parameter.
 */
module Geo {
  import opened Wrappers

  datatype Point = Point(lat: real, lon: real)

  /** `polyline.decode`: an encoded polyline to its points. */
  type Decoder = string -> seq<Point>

  /**
   * Python truthiness of a `summary_polyline` cell: a missing value (None)
   * and the empty string are false, any other string is true.
   */
  predicate HasRoute(p: Option<string>)
  {
    p.Some? && p.value != ""
  }
}
