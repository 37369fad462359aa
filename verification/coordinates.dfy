/**
 * Normalisation of raw boundary vertices: a pair already in degrees is read
 * as [longitude, latitude]; a pair outside the degree range is read as
 * NAD83 / New York Long Island State Plane feet (EPSG:2263) and converted.
 * Either way the result is kept only inside a fixed box around the city.
 */
module Coordinates {
  import opened Wrappers
  import opened Geometry

  /**
   * A raw JSON value. `JScalar(n)` is any non-array value, and `n` is what
   * `Number(value)` gives it (`None` for NaN or an infinity).
   */
  datatype RawValue = JArray(items: seq<RawValue>) | JScalar(number: Option<real>)

  /**
   * The inverse Lambert Conformal Conic projection from State Plane feet
   * (x, y) to (longitude, latitude). `None` when the projection library
   * throws or yields a non-finite component.
   */
  type Projection = (real, real) -> Option<(real, real)>

  const NycMinLat: real := 40.45
  const NycMaxLat: real := 40.95
  const NycMinLng: real := -74.35
  const NycMaxLng: real := -73.60

  predicate InNycBounds(lat: real, lng: real) {
    NycMinLat <= lat <= NycMaxLat && NycMinLng <= lng <= NycMaxLng
  }

  function Abs(x: real): real { if x < 0.0 then -x else x }

  /** `Number(coord?.[k])`; arrays coerce to NaN here. */
  function Component(coord: RawValue, k: nat): Option<real> {
    match coord
    case JArray(items) =>
      if k < |items| && items[k].JScalar? then items[k].number else None
    case JScalar(_) => None
  }

  /** `normalizeCoord`. */
  function NormalizeCoord(coord: RawValue, project: Projection): (r: Option<LatLng>)
    ensures (Component(coord, 0).None? || Component(coord, 1).None?) ==> r.None?
    ensures r.Some? ==> InNycBounds(r.value.latitude, r.value.longitude)
  {
    var x := Component(coord, 0);
    var y := Component(coord, 1);
    if x.None? || y.None? then None
    else
      var projected :=
        if Abs(x.value) > 180.0 || Abs(y.value) > 90.0 then project(x.value, y.value) else None;
      if projected.Some? && InNycBounds(projected.value.1, projected.value.0) then
        Some(LatLng(projected.value.1, projected.value.0))
      else if InNycBounds(y.value, x.value) then
        Some(LatLng(y.value, x.value))
      else
        None
  }

  /** The raw pair `[longitude, latitude]` of a point. */
  function Pair(p: LatLng): RawValue {
    JArray([JScalar(Some(p.longitude)), JScalar(Some(p.latitude))])
  }

  /** A pair in degree range is read unchanged as [longitude, latitude], so normalising a result again gives it back. */
  lemma NormalizeIdempotent(coord: RawValue, project: Projection)
    requires NormalizeCoord(coord, project).Some?
    ensures NormalizeCoord(Pair(NormalizeCoord(coord, project).value), project) == NormalizeCoord(coord, project)
  {
  }

  /**
   * A pair outside the degree range whose projection fails or leaves the
   * box falls through to the raw [longitude, latitude] test, which then
   * always rejects it: such a vertex is dropped.
   */
  lemma FailedProjectionRejects(coord: RawValue, project: Projection)
    requires Component(coord, 0).Some? && Component(coord, 1).Some?
    requires Abs(Component(coord, 0).value) > 180.0 || Abs(Component(coord, 1).value) > 90.0
    requires var q := project(Component(coord, 0).value, Component(coord, 1).value);
             q.None? || !InNycBounds(q.value.1, q.value.0)
    ensures NormalizeCoord(coord, project).None?
  {
  }

  /** An accepted projected pair is returned as the projection's (latitude, longitude). */
  lemma ProjectedPairAccepted(coord: RawValue, project: Projection)
    requires Component(coord, 0).Some? && Component(coord, 1).Some?
    requires Abs(Component(coord, 0).value) > 180.0 || Abs(Component(coord, 1).value) > 90.0
    requires var q := project(Component(coord, 0).value, Component(coord, 1).value);
             q.Some? && InNycBounds(q.value.1, q.value.0)
    ensures var q := project(Component(coord, 0).value, Component(coord, 1).value);
            NormalizeCoord(coord, project) == Some(LatLng(q.value.1, q.value.0))
  {
  }
}
