/** The viewport commands both map components send to the map widget, and
    the bounding box `latLngBounds` builds from a list of points. */
module MapCommands {
  import opened Wrappers
  import opened StationTypes

  /** A box given by its south-west and north-east corners. */
  datatype Bounds = Bounds(south: real, west: real, north: real, east: real)

  predicate Contains(b: Bounds, p: LatLng)
  {
    b.south <= p.lat <= b.north && b.west <= p.lng <= b.east
  }

  /** `flyTo(center, zoom, { duration })`, `setView(center, zoom?)` (no zoom:
      keep the current one) and `fitBounds(bounds, { padding, maxZoom })`. */
  datatype Command =
    | FlyTo(center: LatLng, zoom: real, duration: real)
    | SetView(center: LatLng, newZoom: Option<real>)
    | FitBounds(bounds: Bounds, paddingX: int, paddingY: int, maxZoom: real)

  /** The zoom at which a single station is shown at the least. */
  const StationZoom: real := 9.0
  /** The duration of a `flyTo` to the selected station. */
  const FlyDuration: real := 0.75

  function Max(a: real, b: real): (m: real)
    ensures m >= a && m >= b && (m == a || m == b)
  {
    if a >= b then a else b
  }

  function Min(a: real, b: real): (m: real)
    ensures m <= a && m <= b && (m == a || m == b)
  {
    if a <= b then a else b
  }

  /** `latLngBounds(points)`: the box of the first point, extended by each
      further point in turn. It contains every point and each of its edges
      is the coordinate of some point. */
  function BoundsOf(ps: seq<LatLng>): (b: Bounds)
    requires |ps| >= 1
    ensures forall i :: 0 <= i < |ps| ==> Contains(b, ps[i])
    ensures exists i :: 0 <= i < |ps| && ps[i].lat == b.south
    ensures exists i :: 0 <= i < |ps| && ps[i].lat == b.north
    ensures exists i :: 0 <= i < |ps| && ps[i].lng == b.west
    ensures exists i :: 0 <= i < |ps| && ps[i].lng == b.east
  {
    if |ps| == 1 then Bounds(ps[0].lat, ps[0].lng, ps[0].lat, ps[0].lng)
    else
      var b := BoundsOf(ps[..|ps| - 1]);
      var p := ps[|ps| - 1];
      assert forall i :: 0 <= i < |ps| - 1 ==> ps[..|ps| - 1][i] == ps[i];
      Bounds(Min(b.south, p.lat), Min(b.west, p.lng), Max(b.north, p.lat), Max(b.east, p.lng))
  }

  /** The box is the smallest one holding all the points: every box that
      holds them holds it. */
  lemma BoundsOfIsSmallest(ps: seq<LatLng>, c: Bounds)
    requires |ps| >= 1
    requires forall i :: 0 <= i < |ps| ==> Contains(c, ps[i])
    ensures var b := BoundsOf(ps);
      c.south <= b.south && b.north <= c.north && c.west <= b.west && b.east <= c.east
  {
    var b := BoundsOf(ps);
    var s :| 0 <= s < |ps| && ps[s].lat == b.south;
    var n :| 0 <= n < |ps| && ps[n].lat == b.north;
    var w :| 0 <= w < |ps| && ps[w].lng == b.west;
    var e :| 0 <= e < |ps| && ps[e].lng == b.east;
    assert Contains(c, ps[s]) && Contains(c, ps[n]) && Contains(c, ps[w]) && Contains(c, ps[e]);
  }
}
