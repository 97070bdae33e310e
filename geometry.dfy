/**
 * The geometric values the pipeline passes around. Coordinates stay real numbers;
 * every shapely/geopandas computation on them (bounds, centroid, intersection
 * test, distance) is an uninterpreted function carried in a GeometryOps record.
 */
module Geometry {

  /** A shapely Point: x is the longitude and y the latitude, in degrees. */
  datatype Point = Point(x: real, y: real)

  /** A shapely Polygon, given by the vertex list passed to its constructor. */
  datatype Polygon = Polygon(shell: seq<Point>)

  /** shapely's `geometry.bounds`, in its own order (minx, miny, maxx, maxy). */
  datatype Bounds = Bounds(minX: real, minY: real, maxX: real, maxY: real)

  /** The geometry library, left abstract. */
  datatype GeometryOps = GeometryOps(
    bounds: Polygon -> Bounds,
    centroid: Polygon -> Point,
    intersects: (Point, Polygon) -> bool,
    distance: (Point, Polygon) -> real)

  /** Coordinates inside the WGS84 ranges -90 <= lat <= 90 and -180 <= lon <= 180. */
  predicate InWgs84Range(lat: real, lon: real)
  {
    -90.0 <= lat <= 90.0 && -180.0 <= lon <= 180.0
  }
}
