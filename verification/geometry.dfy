/**
 * Points, bounding boxes and the even-odd (ray-casting) containment test
 * shared by the precinct store and the sector store.
 */
module Geometry {
  import opened Wrappers

  /** A WGS84 point in degrees. */
  datatype LatLng = LatLng(latitude: real, longitude: real)

  datatype BoundingBox = BoundingBox(minLat: real, maxLat: real, minLng: real, maxLng: real)

  function Min(a: real, b: real): real { if a <= b then a else b }
  function Max(a: real, b: real): real { if a >= b then a else b }

  /** The inclusive box test (`pointInBoundingBox`). */
  predicate InBox(p: LatLng, box: BoundingBox) {
    box.minLat <= p.latitude <= box.maxLat && box.minLng <= p.longitude <= box.maxLng
  }

  /** Every vertex of `pts` lies in `box`. */
  predicate Encloses(box: BoundingBox, pts: seq<LatLng>) {
    forall i :: 0 <= i < |pts| ==> InBox(pts[i], box)
  }

  predicate Ordered(box: BoundingBox) {
    box.minLat <= box.maxLat && box.minLng <= box.maxLng
  }

  // ---------------------------------------------------------------------------
  // Bounding boxes: the min/max reduction both stores run over a vertex list
  // ---------------------------------------------------------------------------

  /**
   * One step of the reduction. `None` stands for the initial state in which
   * the minima are +Infinity and the maxima -Infinity.
   */
  function Widen(acc: Option<BoundingBox>, p: LatLng): BoundingBox {
    match acc
    case None => BoundingBox(p.latitude, p.latitude, p.longitude, p.longitude)
    case Some(b) =>
      BoundingBox(Min(b.minLat, p.latitude), Max(b.maxLat, p.latitude),
                  Min(b.minLng, p.longitude), Max(b.maxLng, p.longitude))
  }

  /** The min/max reduction over `pts`, in order; `None` when `pts` is empty. */
  function Extent(pts: seq<LatLng>): Option<BoundingBox> {
    if |pts| == 0 then None else Some(Widen(Extent(pts[..|pts| - 1]), pts[|pts| - 1]))
  }

  /** The reduction gives an ordered box holding every vertex, each of whose sides touches a vertex. */
  lemma {:induction false} ExtentIsTight(pts: seq<LatLng>)
    ensures Extent(pts).Some? <==> |pts| > 0
    ensures Extent(pts).Some? ==> Ordered(Extent(pts).value) && Encloses(Extent(pts).value, pts)
    ensures Extent(pts).Some? ==>
      (exists i :: 0 <= i < |pts| && pts[i].latitude == Extent(pts).value.minLat) &&
      (exists i :: 0 <= i < |pts| && pts[i].latitude == Extent(pts).value.maxLat) &&
      (exists i :: 0 <= i < |pts| && pts[i].longitude == Extent(pts).value.minLng) &&
      (exists i :: 0 <= i < |pts| && pts[i].longitude == Extent(pts).value.maxLng)
  {
    if |pts| > 0 {
      var n := |pts| - 1;
      var init := pts[..n];
      ExtentIsTight(init);
      var b := Extent(pts).value;
      if n == 0 {
        assert pts[0].latitude == b.minLat;
      } else {
        var a := Extent(init).value;
        forall i | 0 <= i < |pts| ensures InBox(pts[i], b) {
          if i < n { assert pts[i] == init[i]; assert InBox(init[i], a); }
        }
        var i0 :| 0 <= i0 < |init| && init[i0].latitude == a.minLat;
        var i1 :| 0 <= i1 < |init| && init[i1].latitude == a.maxLat;
        var i2 :| 0 <= i2 < |init| && init[i2].longitude == a.minLng;
        var i3 :| 0 <= i3 < |init| && init[i3].longitude == a.maxLng;
        assert pts[i0] == init[i0] && pts[i1] == init[i1] && pts[i2] == init[i2] && pts[i3] == init[i3];
        assert b.minLat == pts[i0].latitude || b.minLat == pts[n].latitude;
        assert b.maxLat == pts[i1].latitude || b.maxLat == pts[n].latitude;
        assert b.minLng == pts[i2].longitude || b.minLng == pts[n].longitude;
        assert b.maxLng == pts[i3].longitude || b.maxLng == pts[n].longitude;
      }
    }
  }

  /** The min/max loop of both stores (`Math.min` / `Math.max` from +/-Infinity). */
  method ComputeExtent(pts: seq<LatLng>) returns (box: Option<BoundingBox>)
    ensures box == Extent(pts)
    ensures box.Some? <==> |pts| > 0
    ensures box.Some? ==> Ordered(box.value) && Encloses(box.value, pts)
  {
    box := None;
    for i := 0 to |pts|
      invariant box == Extent(pts[..i])
    {
      assert pts[..i + 1][..i] == pts[..i];
      box := Some(Widen(box, pts[i]));
    }
    assert pts[..|pts|] == pts;
    ExtentIsTight(pts);
  }

  // ---------------------------------------------------------------------------
  // Even-odd containment
  // ---------------------------------------------------------------------------

  /** Edge `a`-`b` has one end strictly above latitude `y` and the other not. */
  predicate Straddles(y: real, a: LatLng, b: LatLng) {
    (a.latitude > y) != (b.latitude > y)
  }

  /** Longitude where the line through `a` and `b` meets latitude `y`. */
  function CrossingLongitude(y: real, a: LatLng, b: LatLng): real
    requires a.latitude != b.latitude
  {
    (b.longitude - a.longitude) * (y - a.latitude) / (b.latitude - a.latitude) + a.longitude
  }

  /** The source's `intersect`: the edge straddles `p`'s latitude and meets it east of `p`. */
  predicate EdgeCrosses(p: LatLng, a: LatLng, b: LatLng) {
    Straddles(p.latitude, a, b) && p.longitude < CrossingLongitude(p.latitude, a, b)
  }

  /** The loop pairs vertex `i` with `j = i - 1`, and vertex 0 with the last vertex. */
  function PrevIndex(n: nat, i: nat): nat
    requires i < n
  {
    if i == 0 then n - 1 else i - 1
  }

  predicate CrossesAt(p: LatLng, poly: seq<LatLng>, i: nat)
    requires i < |poly|
  {
    EdgeCrosses(p, poly[i], poly[PrevIndex(|poly|, i)])
  }

  /** Number of crossing edges among the first `k` the loop visits. */
  function Crossings(p: LatLng, poly: seq<LatLng>, k: nat): nat
    requires k <= |poly|
  {
    if k == 0 then 0 else Crossings(p, poly, k - 1) + (if CrossesAt(p, poly, k - 1) then 1 else 0)
  }

  /** Even-odd rule: inside when an odd number of edges cross the eastward ray. */
  predicate Contains(p: LatLng, poly: seq<LatLng>) {
    Crossings(p, poly, |poly|) % 2 == 1
  }

  /** `isPointInPolygon`: toggles `inside` once per crossing edge. */
  method IsPointInPolygon(point: LatLng, polygon: seq<LatLng>) returns (inside: bool)
    ensures inside == Contains(point, polygon)
    ensures |polygon| == 0 ==> !inside
  {
    inside := false;
    var x := point.longitude;
    var y := point.latitude;
    var i := 0;
    var j := |polygon| - 1;
    while i < |polygon|
      invariant 0 <= i <= |polygon|
      invariant i < |polygon| ==> j == PrevIndex(|polygon|, i)
      invariant inside == (Crossings(point, polygon, i) % 2 == 1)
    {
      var xi, yi := polygon[i].longitude, polygon[i].latitude;
      var xj, yj := polygon[j].longitude, polygon[j].latitude;
      var intersect := ((yi > y) != (yj > y)) && (x < (xj - xi) * (y - yi) / (yj - yi) + xi);
      assert polygon[j] == polygon[PrevIndex(|polygon|, i)];
      assert intersect == EdgeCrosses(point, polygon[i], polygon[j]);
      if intersect {
        inside := !inside;
      }
      j := i;
      i := i + 1;
    }
  }

  // ---------------------------------------------------------------------------
  // Why the inclusive bounding-box pre-filter is sound
  // ---------------------------------------------------------------------------

  lemma DivUnit(n: real, d: real)
    requires d > 0.0 && 0.0 <= n <= d
    ensures 0.0 <= n / d <= 1.0
  {
    assert (n / d) * d == n;
  }

  lemma ScaleBounds(d: real, t: real)
    requires 0.0 <= t <= 1.0
    ensures d >= 0.0 ==> 0.0 <= d * t <= d
    ensures d < 0.0 ==> d <= d * t <= 0.0
  {
    if d >= 0.0 { assert d * t <= d * 1.0; } else { assert d * t >= d * 1.0; }
  }

  lemma Cancel(a: real, d: real)
    requires d != 0.0 && a * d == 0.0
    ensures a == 0.0
  {
  }

  lemma OneMinus(d: real, n: real)
    requires d != 0.0
    ensures (d - n) / d == 1.0 - n / d
  {
    var q := (d - n) / d;
    var r := 1.0 - n / d;
    assert q * d == d - n;
    assert (n / d) * d == n;
    assert (q - r) * d == 0.0;
    Cancel(q - r, d);
  }

  /** Fraction of the way from `a` to `b` at which the edge meets latitude `y`. */
  function EdgeFraction(y: real, a: LatLng, b: LatLng): real
    requires a.latitude != b.latitude
  {
    (y - a.latitude) / (b.latitude - a.latitude)
  }

  lemma EdgeFractionInUnit(y: real, a: LatLng, b: LatLng)
    requires Straddles(y, a, b)
    ensures 0.0 <= EdgeFraction(y, a, b) <= 1.0
    ensures CrossingLongitude(y, a, b) == a.longitude + (b.longitude - a.longitude) * EdgeFraction(y, a, b)
  {
    var t := EdgeFraction(y, a, b);
    if a.latitude > y {
      assert t == (a.latitude - y) / (a.latitude - b.latitude);
      DivUnit(a.latitude - y, a.latitude - b.latitude);
    } else {
      DivUnit(y - a.latitude, b.latitude - a.latitude);
    }
  }

  /** The crossing of a straddling edge lies between the edge's end longitudes. */
  lemma CrossingWithinEdge(y: real, a: LatLng, b: LatLng)
    requires Straddles(y, a, b)
    ensures Min(a.longitude, b.longitude) <= CrossingLongitude(y, a, b) <= Max(a.longitude, b.longitude)
    ensures Min(a.latitude, b.latitude) <= y < Max(a.latitude, b.latitude)
  {
    EdgeFractionInUnit(y, a, b);
    ScaleBounds(b.longitude - a.longitude, EdgeFraction(y, a, b));
  }

  /** An edge straddling latitude `y`, counted like `Crossings` but without the eastward test. */
  predicate StraddlesAt(y: real, poly: seq<LatLng>, i: nat)
    requires i < |poly|
  {
    Straddles(y, poly[i], poly[PrevIndex(|poly|, i)])
  }

  function Straddlings(y: real, poly: seq<LatLng>, k: nat): nat
    requires k <= |poly|
  {
    if k == 0 then 0 else Straddlings(y, poly, k - 1) + (if StraddlesAt(y, poly, k - 1) then 1 else 0)
  }

  /** Walking the ring, the parity of straddles so far records whether we are back on the last vertex's side. */
  lemma {:induction false} StraddleParity(y: real, poly: seq<LatLng>, k: nat)
    requires 1 <= k <= |poly|
    ensures (Straddlings(y, poly, k) % 2 == 1) == ((poly[|poly| - 1].latitude > y) != (poly[k - 1].latitude > y))
  {
    if k > 1 {
      StraddleParity(y, poly, k - 1);
    }
  }

  /** A closed ring crosses any horizontal line an even number of times. */
  lemma StraddlingsEven(y: real, poly: seq<LatLng>)
    ensures Straddlings(y, poly, |poly|) % 2 == 0
  {
    if |poly| > 0 {
      StraddleParity(y, poly, |poly|);
    }
  }

  /** West of every vertex, every straddling edge is a crossing edge. */
  lemma {:induction false} WestOfRingCrossesAll(p: LatLng, poly: seq<LatLng>, k: nat)
    requires k <= |poly|
    requires forall i :: 0 <= i < |poly| ==> p.longitude < poly[i].longitude
    ensures Crossings(p, poly, k) == Straddlings(p.latitude, poly, k)
  {
    if k > 0 {
      WestOfRingCrossesAll(p, poly, k - 1);
      var a, b := poly[k - 1], poly[PrevIndex(|poly|, k - 1)];
      if Straddles(p.latitude, a, b) {
        CrossingWithinEdge(p.latitude, a, b);
      }
    }
  }

  /** A positive crossing count has a crossing edge behind it. */
  lemma {:induction false} SomeCrossingEdge(p: LatLng, poly: seq<LatLng>, k: nat) returns (i: nat)
    requires k <= |poly| && Crossings(p, poly, k) > 0
    ensures i < k && CrossesAt(p, poly, i)
  {
    if CrossesAt(p, poly, k - 1) {
      i := k - 1;
    } else {
      i := SomeCrossingEdge(p, poly, k - 1);
    }
  }

  /**
   * A box holding every vertex holds every point the parity test accepts, so
   * the inclusive box pre-check never rejects a point the polygon contains.
   */
  lemma BoxPrefilterSound(p: LatLng, poly: seq<LatLng>, box: BoundingBox)
    requires Encloses(box, poly)
    ensures Contains(p, poly) ==> InBox(p, box)
  {
    if Contains(p, poly) {
      var i := SomeCrossingEdge(p, poly, |poly|);
      var a, b := poly[i], poly[PrevIndex(|poly|, i)];
      assert InBox(a, box) && InBox(b, box);
      CrossingWithinEdge(p.latitude, a, b);
      if p.longitude < box.minLng {
        WestOfRingCrossesAll(p, poly, |poly|);
        StraddlingsEven(p.latitude, poly);
        assert false;
      }
    }
  }

  /** Rings of fewer than three vertices contain no point. */
  lemma DegenerateRingContainsNothing(p: LatLng, poly: seq<LatLng>)
    requires |poly| < 3
    ensures !Contains(p, poly)
  {
    if |poly| == 2 {
      var a, b := poly[0], poly[1];
      var y := p.latitude;
      if Straddles(y, a, b) {
        var t := EdgeFraction(y, a, b);
        EdgeFractionInUnit(y, a, b);
        EdgeFractionInUnit(y, b, a);
        var D := b.latitude - a.latitude;
        assert EdgeFraction(y, b, a) == (D - (y - a.latitude)) / D;
        OneMinus(D, y - a.latitude);
        assert CrossingLongitude(y, a, b) == CrossingLongitude(y, b, a);
      }
      assert CrossesAt(p, poly, 0) == CrossesAt(p, poly, 1);
      assert Crossings(p, poly, 2) == Crossings(p, poly, 1) + (if CrossesAt(p, poly, 1) then 1 else 0);
    } else if |poly| == 1 {
      assert !CrossesAt(p, poly, 0);
      assert Crossings(p, poly, 1) == 0;
    }
  }
}
