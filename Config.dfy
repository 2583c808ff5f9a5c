/**
 * The script's configuration: the Edmonton bounding box, the search radius
 * and the margin of the region test. The grid step is a parameter of the grid.
 */
module Config {

  /** A point sampled for search coverage, in degrees. */
  datatype GridPoint = GridPoint(lat: real, lng: real)

  /** A latitude/longitude box. */
  datatype Bounds = Bounds(north: real, south: real, east: real, west: real)

  const EdmontonBounds: Bounds := Bounds(53.7, 53.4, -113.3, -113.7)

  /** Search radius in metres, chosen so that neighbouring cells overlap. */
  const SearchRadius: int := 3500

  /** Margin in degrees added on every side of the box by the region test. */
  const AreaMargin: real := 0.1
}
