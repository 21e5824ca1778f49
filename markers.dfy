/**
 * Per-earthquake marker style: the radius scaled from the magnitude, the fill
 * colour chosen by the depth classifier, and fixed stroke settings.
 *
 * Depths and magnitudes are exact reals (JavaScript numbers without rounding,
 * NaN or infinities).
 */
module Markers {
  import opened Wrappers

  const Green: string := "#00ff00"
  const LightGreen: string := "#80ff00"
  const Yellow: string := "#ffff00"
  const Orange: string := "#ffbf00"
  const DarkOrange: string := "#ff8000"
  const Red: string := "#ff0000"

  /** The six colours the classifier can return, shallowest bucket first. */
  const Palette: seq<string> := [Green, LightGreen, Yellow, Orange, DarkOrange, Red]

  /** Lowest depth admitted by the first range test. */
  const ShallowLimit: int := -10

  /** Inclusive upper ends of the five range tests, in the order they are tried. */
  const UpperBounds: seq<int> := [10, 30, 50, 70, 90]

  /** Marker radius for a magnitude: linear, with no clamping. */
  function MarkerSize(magnitude: real): (radius: real)
    ensures radius / 5.0 == magnitude
    ensures radius > 0.0 <==> magnitude > 0.0
    ensures radius < 0.0 <==> magnitude < 0.0
  {
    magnitude * 5.0
  }

  lemma MarkerSizeStrictlyIncreasing(m1: real, m2: real)
    requires m1 < m2
    ensures MarkerSize(m1) < MarkerSize(m2)
  {
  }

  lemma MarkerSizeValues()
    ensures MarkerSize(0.0) == 0.0
    ensures MarkerSize(5.0) == 25.0
    ensures MarkerSize(-1.0) == -5.0
  {
  }

  /** The k-th range test of the classifier's chain: the first closed at both ends, the others open below and closed above. */
  predicate InRange(k: nat, depth: real)
    requires k < |UpperBounds|
    ensures InRange(k, depth) ==> ShallowLimit as real <= depth <= UpperBounds[|UpperBounds| - 1] as real
  {
    && (if k == 0 then ShallowLimit as real <= depth else UpperBounds[k - 1] as real < depth)
    && depth <= UpperBounds[k] as real
  }

  /** No range test admits the depth, so the chain reaches its final branch. */
  predicate NoRange(depth: real)
    ensures NoRange(depth) <==> depth < ShallowLimit as real || depth > UpperBounds[|UpperBounds| - 1] as real
  {
    assert InRange(0, depth) <==> -10.0 <= depth <= 10.0;
    assert InRange(1, depth) <==> 10.0 < depth <= 30.0;
    assert InRange(2, depth) <==> 30.0 < depth <= 50.0;
    assert InRange(3, depth) <==> 50.0 < depth <= 70.0;
    assert InRange(4, depth) <==> 70.0 < depth <= 90.0;
    forall k :: 0 <= k < |UpperBounds| ==> !InRange(k, depth)
  }

  /** How many of the bounds lie strictly below the depth. */
  function CountBelow(bounds: seq<int>, depth: real): (n: nat)
    ensures n <= |bounds|
  {
    if bounds == [] then 0
    else (if bounds[0] as real < depth then 1 else 0) + CountBelow(bounds[1..], depth)
  }

  /**
   * Index into Palette of the colour a depth receives, defined without the
   * if-chain: at or above the shallow limit it is the number of upper bounds
   * the depth exceeds; below the limit no range test admits the depth and it
   * falls to the last bucket.
   */
  function Bucket(depth: real): (k: nat)
    ensures k < |Palette|
  {
    if depth < ShallowLimit as real then |UpperBounds| else CountBelow(UpperBounds, depth)
  }

  lemma CountBelowUpperBounds(depth: real)
    ensures CountBelow(UpperBounds, depth) ==
      if depth <= 10.0 then 0
      else if depth <= 30.0 then 1
      else if depth <= 50.0 then 2
      else if depth <= 70.0 then 3
      else if depth <= 90.0 then 4
      else 5
  {
    var c90 := if 90.0 < depth then 1 else 0;
    var c70 := if 70.0 < depth then 1 else 0;
    var c50 := if 50.0 < depth then 1 else 0;
    var c30 := if 30.0 < depth then 1 else 0;
    var c10 := if 10.0 < depth then 1 else 0;
    assert [90][1..] == [];
    assert CountBelow([90], depth) == c90;
    assert [70, 90][1..] == [90];
    assert CountBelow([70, 90], depth) == c70 + c90;
    assert [50, 70, 90][1..] == [70, 90];
    assert CountBelow([50, 70, 90], depth) == c50 + c70 + c90;
    assert [30, 50, 70, 90][1..] == [50, 70, 90];
    assert CountBelow([30, 50, 70, 90], depth) == c30 + c50 + c70 + c90;
    assert UpperBounds[1..] == [30, 50, 70, 90];
    assert CountBelow(UpperBounds, depth) == c10 + c30 + c50 + c70 + c90;
  }

  /** Fill colour for a depth: the first range test that admits it, otherwise red. */
  function MarkerColor(depth: real): (color: string)
    ensures color == Palette[Bucket(depth)]
  {
    CountBelowUpperBounds(depth);
    if -10.0 <= depth && depth <= 10.0 then Green
    else if 10.0 < depth && depth <= 30.0 then LightGreen
    else if 30.0 < depth && depth <= 50.0 then Yellow
    else if 50.0 < depth && depth <= 70.0 then Orange
    else if 70.0 < depth && depth <= 90.0 then DarkOrange
    else Red
  }

  lemma PaletteDistinct()
    ensures forall i, j :: 0 <= i < j < |Palette| ==> Palette[i] != Palette[j]
  {
  }

  /** Every depth gets exactly one of the six colours. */
  lemma MarkerColorTotal(depth: real)
    ensures MarkerColor(depth) in Palette
    ensures exists k :: 0 <= k < |Palette| && MarkerColor(depth) == Palette[k]
  {
  }

  /** The range tests are pairwise disjoint, so the order of the chain does not matter. */
  lemma RangesDisjoint(i: nat, j: nat, depth: real)
    requires i < |UpperBounds| && j < |UpperBounds|
    requires InRange(i, depth) && InRange(j, depth)
    ensures i == j
  {
  }

  /**
   * The classifier answers Palette[k] exactly when the k-th range test admits
   * the depth, or, for the last colour, when none does.
   */
  lemma MarkerColorMatchesRange(depth: real, k: nat)
    requires k < |Palette|
    ensures MarkerColor(depth) == Palette[k] <==>
      (k < |UpperBounds| && InRange(k, depth)) || (k == |UpperBounds| && NoRange(depth))
  {
  }

  /** The boundaries belong to the bucket below them. */
  lemma BoundaryValues()
    ensures MarkerColor(-10.0) == Green
    ensures MarkerColor(10.0) == Green
    ensures MarkerColor(10.5) == LightGreen
    ensures MarkerColor(30.0) == LightGreen
    ensures MarkerColor(50.0) == Yellow
    ensures MarkerColor(70.0) == Orange
    ensures MarkerColor(90.0) == DarkOrange
  {
  }

  lemma DeepIsRed(depth: real)
    requires depth > 90.0
    ensures MarkerColor(depth) == Red
  {
  }

  /** Depths above ground beyond the shallow limit pass no range test and come out red, not green. */
  lemma BelowShallowLimitIsRed(depth: real)
    requires depth < ShallowLimit as real
    ensures MarkerColor(depth) == Red && NoRange(depth)
  {
  }

  lemma {:induction false} CountBelowMonotone(bounds: seq<int>, d1: real, d2: real)
    requires d1 <= d2
    ensures CountBelow(bounds, d1) <= CountBelow(bounds, d2)
  {
    if bounds != [] {
      CountBelowMonotone(bounds[1..], d1, d2);
    }
  }

  /** From the shallow limit down, a deeper earthquake never gets a shallower bucket. */
  lemma BucketMonotone(d1: real, d2: real)
    requires ShallowLimit as real <= d1 <= d2
    ensures Bucket(d1) <= Bucket(d2)
  {
    CountBelowMonotone(UpperBounds, d1, d2);
  }

  /** Below the shallow limit monotonicity fails: the shallower depth lands in the deepest bucket. */
  lemma NotMonotoneBelowShallowLimit()
    ensures Bucket(-11.0) > Bucket(0.0)
  {
  }

  datatype Properties = Properties(mag: real, title: string)
  datatype Geometry = Point(coordinates: seq<real>)
  /** A GeoJSON Feature with a Point geometry; coordinates[2], when present, is the depth in km. */
  datatype Feature = Feature(properties: Properties, geometry: Geometry)

  datatype MarkerStyle = MarkerStyle(
    radius: real,
    fillColor: string,
    color: string,
    weight: int,
    opacity: real,
    fillOpacity: real)

  /** The depth of a feature, or None when the coordinates have no third element. */
  function Depth(feature: Feature): (d: Option<real>)
    ensures d.Some? <==> |feature.geometry.coordinates| > 2
    ensures d.Some? ==> d.value == feature.geometry.coordinates[2]
  {
    var coordinates := feature.geometry.coordinates;
    if |coordinates| > 2 then Some(coordinates[2]) else None
  }

  /**
   * Style of the circle marker for a feature. A missing depth reads as
   * undefined in the source; every comparison with it is false, so the
   * classifier reaches its final branch.
   */
  function CreateMarkerStyle(feature: Feature): (style: MarkerStyle)
    ensures style.radius == MarkerSize(feature.properties.mag)
    ensures style.fillColor == match Depth(feature)
      case Some(d) => MarkerColor(d)
      case None => Red
    ensures |feature.geometry.coordinates| > 2 ==> style.fillColor == MarkerColor(feature.geometry.coordinates[2])
    ensures |feature.geometry.coordinates| <= 2 ==> style.fillColor == Red
    ensures style.fillColor in Palette
    ensures style.color == "#000" && style.weight == 1
    ensures style.opacity == 1.0 && style.fillOpacity == 0.8
  {
    MarkerStyle(
      MarkerSize(feature.properties.mag),
      match Depth(feature) case Some(d) => MarkerColor(d) case None => Red,
      "#000",
      1,
      1.0,
      0.8)
  }

  /** The style reads only the magnitude and the depth: title, longitude and latitude play no part. */
  lemma StyleDependsOnlyOnMagnitudeAndDepth(f1: Feature, f2: Feature)
    requires f1.properties.mag == f2.properties.mag
    requires Depth(f1) == Depth(f2)
    ensures CreateMarkerStyle(f1) == CreateMarkerStyle(f2)
  {
  }

  lemma StyleExample(title: string, longitude: real, latitude: real)
    ensures CreateMarkerStyle(Feature(Properties(4.0, title), Point([longitude, latitude, 20.0])))
      == MarkerStyle(20.0, LightGreen, "#000", 1, 1.0, 0.8)
  {
  }
}
