/**
 * `privGetMapBoundary` (veroviz/_utilities.py): a padded latitude/longitude box
 * around every coordinate of an optional node table, an optional arc table and an
 * optional location list. An axis whose raw span is below `MinSpan` is first widened
 * by `Widen` on each side; then every edge moves out by `Pad`.
 */
module Boundary {
  import opened Wrappers
  import opened Tables

  const MinSpan: real := 0.0001
  const Widen: real := 0.05
  const Pad: real := 0.01

  datatype Corner = Corner(lat: real, lon: real)

  /**
   * The result `[[minLat, maxLon], [maxLat, minLon]]`: the first corner is the
   * south-east one, the second the north-west one.
   */
  datatype MapBox = MapBox(southEast: Corner, northWest: Corner)

  function Abs(x: real): (a: real)
    ensures a >= 0.0 && (a == x || a == -x)
  {
    if x < 0.0 then -x else x
  }

  /** Python's `max` of a non-empty list (its properties are `MaxOfIsMaximum`). */
  function MaxOf(xs: seq<real>): real
    requires |xs| > 0
  {
    if |xs| == 1 then xs[0]
    else
      var rest := MaxOf(xs[1..]);
      if xs[0] >= rest then xs[0] else rest
  }

  /** Python's `min` of a non-empty list (its properties are `MinOfIsMinimum`). */
  function MinOf(xs: seq<real>): real
    requires |xs| > 0
  {
    if |xs| == 1 then xs[0]
    else
      var rest := MinOf(xs[1..]);
      if xs[0] <= rest then xs[0] else rest
  }

  /** `MaxOf` is an element of the list and no element exceeds it. */
  lemma {:induction false} MaxOfIsMaximum(xs: seq<real>)
    requires |xs| > 0
    ensures forall i :: 0 <= i < |xs| ==> xs[i] <= MaxOf(xs)
    ensures exists i :: 0 <= i < |xs| && xs[i] == MaxOf(xs)
  {
    if |xs| == 1 {
      assert xs[0] == MaxOf(xs);
    } else {
      MaxOfIsMaximum(xs[1..]);
      var k :| 0 <= k < |xs[1..]| && xs[1..][k] == MaxOf(xs[1..]);
      if xs[0] >= MaxOf(xs[1..]) {
        assert xs[0] == MaxOf(xs);
      } else {
        assert xs[k + 1] == MaxOf(xs);
      }
      forall i | 1 <= i < |xs| ensures xs[i] <= MaxOf(xs) {
        assert xs[i] == xs[1..][i - 1];
      }
    }
  }

  /** `MinOf` is an element of the list and no element is below it. */
  lemma {:induction false} MinOfIsMinimum(xs: seq<real>)
    requires |xs| > 0
    ensures forall i :: 0 <= i < |xs| ==> MinOf(xs) <= xs[i]
    ensures exists i :: 0 <= i < |xs| && xs[i] == MinOf(xs)
  {
    if |xs| == 1 {
      assert xs[0] == MinOf(xs);
    } else {
      MinOfIsMinimum(xs[1..]);
      var k :| 0 <= k < |xs[1..]| && xs[1..][k] == MinOf(xs[1..]);
      if xs[0] <= MinOf(xs[1..]) {
        assert xs[0] == MinOf(xs);
      } else {
        assert xs[k + 1] == MinOf(xs);
      }
      forall i | 1 <= i < |xs| ensures MinOf(xs) <= xs[i] {
        assert xs[i] == xs[1..][i - 1];
      }
    }
  }

  function NodeLats(nodes: seq<NodeRow>): seq<real> {
    seq(|nodes|, i requires 0 <= i < |nodes| => nodes[i].lat)
  }

  function NodeLons(nodes: seq<NodeRow>): seq<real> {
    seq(|nodes|, i requires 0 <= i < |nodes| => nodes[i].lon)
  }

  function ArcStartLats(arcs: seq<ArcRow>): seq<real> {
    seq(|arcs|, i requires 0 <= i < |arcs| => arcs[i].startLat)
  }

  function ArcEndLats(arcs: seq<ArcRow>): seq<real> {
    seq(|arcs|, i requires 0 <= i < |arcs| => arcs[i].endLat)
  }

  function ArcStartLons(arcs: seq<ArcRow>): seq<real> {
    seq(|arcs|, i requires 0 <= i < |arcs| => arcs[i].startLon)
  }

  function ArcEndLons(arcs: seq<ArcRow>): seq<real> {
    seq(|arcs|, i requires 0 <= i < |arcs| => arcs[i].endLon)
  }

  function LocLats(locs: seq<Loc>): seq<real> {
    seq(|locs|, i requires 0 <= i < |locs| => locs[i].lat)
  }

  function LocLons(locs: seq<Loc>): seq<real> {
    seq(|locs|, i requires 0 <= i < |locs| => locs[i].lon)
  }

  /** How many latitudes (and as many longitudes) the three sources supply. */
  function CoordinateCount(nodes: Option<seq<NodeRow>>, arcs: Option<seq<ArcRow>>, locs: Option<seq<Loc>>): nat {
    (if nodes.Some? then |nodes.value| else 0)
    + (if arcs.Some? then 2 * |arcs.value| else 0)
    + (if locs.Some? then |locs.value| else 0)
  }

  /**
   * `allLats`: node latitudes, then arc start latitudes, arc end latitudes and
   * location latitudes, each source appended when it is present.
   */
  function AllLats(nodes: Option<seq<NodeRow>>, arcs: Option<seq<ArcRow>>, locs: Option<seq<Loc>>): (r: seq<real>)
    ensures |r| == CoordinateCount(nodes, arcs, locs)
  {
    var fromNodes := if nodes.Some? then NodeLats(nodes.value) else [];
    var fromArcs := if arcs.Some? then fromNodes + ArcStartLats(arcs.value) + ArcEndLats(arcs.value) else fromNodes;
    if locs.Some? then fromArcs + LocLats(locs.value) else fromArcs
  }

  /** `allLons`, in the same order as `AllLats`. */
  function AllLons(nodes: Option<seq<NodeRow>>, arcs: Option<seq<ArcRow>>, locs: Option<seq<Loc>>): (r: seq<real>)
    ensures |r| == CoordinateCount(nodes, arcs, locs)
  {
    var fromNodes := if nodes.Some? then NodeLons(nodes.value) else [];
    var fromArcs := if arcs.Some? then fromNodes + ArcStartLons(arcs.value) + ArcEndLons(arcs.value) else fromNodes;
    if locs.Some? then fromArcs + LocLons(locs.value) else fromArcs
  }

  /** One axis of the box: widen a degenerate range `lo..hi`, then pad both ends. */
  function PaddedRange(lo: real, hi: real): (real, real) {
    var widen := if Abs(hi - lo) < MinSpan then Widen else 0.0;
    (lo - widen - Pad, hi + widen + Pad)
  }

  /** The padded bounds of one axis' coordinates. */
  function AxisBounds(xs: seq<real>): (real, real)
    requires |xs| > 0
  {
    PaddedRange(MinOf(xs), MaxOf(xs))
  }

  /** The box over two coordinate lists; `None` where Python's `max([])` raises. */
  function MapBoundary(allLats: seq<real>, allLons: seq<real>): (r: Option<MapBox>)
    ensures r.Some? <==> |allLats| > 0 && |allLons| > 0
  {
    if |allLats| == 0 || |allLons| == 0 then None
    else
      var (minLat, maxLat) := AxisBounds(allLats);
      var (minLon, maxLon) := AxisBounds(allLons);
      Some(MapBox(Corner(minLat, maxLon), Corner(maxLat, minLon)))
  }

  predicate Inside(box: MapBox, lat: real, lon: real) {
    && box.southEast.lat < lat < box.northWest.lat
    && box.northWest.lon < lon < box.southEast.lon
  }

  /**
   * The first half of `privGetMapBoundary`: `allLats` and `allLons` are built in
   * place, extending them by each present source and appending the locations one
   * by one.
   */
  method CollectCoordinates(nodes: Option<seq<NodeRow>>, arcs: Option<seq<ArcRow>>, locs: Option<seq<Loc>>)
    returns (allLats: seq<real>, allLons: seq<real>)
    ensures allLats == AllLats(nodes, arcs, locs)
    ensures allLons == AllLons(nodes, arcs, locs)
  {
    allLats, allLons := [], [];
    if nodes.Some? {
      allLats := allLats + NodeLats(nodes.value);
      allLons := allLons + NodeLons(nodes.value);
      assert allLats == NodeLats(nodes.value);
      assert allLons == NodeLons(nodes.value);
    }
    if arcs.Some? {
      allLats := allLats + ArcStartLats(arcs.value);
      allLats := allLats + ArcEndLats(arcs.value);
      allLons := allLons + ArcStartLons(arcs.value);
      allLons := allLons + ArcEndLons(arcs.value);
    }
    if locs.Some? {
      var ls := locs.value;
      ghost var lats0, lons0 := allLats, allLons;
      var i := 0;
      while i < |ls|
        invariant 0 <= i <= |ls|
        invariant allLats == lats0 + LocLats(ls)[..i]
        invariant allLons == lons0 + LocLons(ls)[..i]
      {
        assert LocLats(ls)[..i + 1] == LocLats(ls)[..i] + [ls[i].lat];
        assert LocLons(ls)[..i + 1] == LocLons(ls)[..i] + [ls[i].lon];
        allLats := allLats + [ls[i].lat];
        allLons := allLons + [ls[i].lon];
        i := i + 1;
      }
      assert LocLats(ls)[..|ls|] == LocLats(ls);
      assert LocLons(ls)[..|ls|] == LocLons(ls);
    }
  }

  /**
   * `privGetMapBoundary`: collects the coordinates, then moves the four edges step
   * by step. The result is `None` where Python's `max` of an empty list raises.
   */
  method GetMapBoundary(nodes: Option<seq<NodeRow>>, arcs: Option<seq<ArcRow>>, locs: Option<seq<Loc>>)
    returns (r: Option<MapBox>)
    ensures r == MapBoundary(AllLats(nodes, arcs, locs), AllLons(nodes, arcs, locs))
  {
    var allLats, allLons := CollectCoordinates(nodes, arcs, locs);
    if |allLats| == 0 || |allLons| == 0 {
      return None;
    }
    var maxLat := MaxOf(allLats);
    var minLat := MinOf(allLats);
    var maxLon := MaxOf(allLons);
    var minLon := MinOf(allLons);
    ghost var latBounds, lonBounds := AxisBounds(allLats), AxisBounds(allLons);

    if Abs(maxLat - minLat) < MinSpan {
      maxLat := maxLat + Widen;
      minLat := minLat - Widen;
    }
    if Abs(maxLon - minLon) < MinSpan {
      maxLon := maxLon + Widen;
      minLon := minLon - Widen;
    }

    maxLat := maxLat + Pad;
    minLat := minLat - Pad;
    maxLon := maxLon + Pad;
    minLon := minLon - Pad;
    assert (minLat, maxLat) == latBounds;
    assert (minLon, maxLon) == lonBounds;

    return Some(MapBox(Corner(minLat, maxLon), Corner(maxLat, minLon)));
  }

  /** A range narrower than `MinSpan` is widened, a wider one only padded. */
  lemma PaddedRangeWidening(lo: real, hi: real)
    requires lo <= hi
    ensures hi - lo < MinSpan ==> PaddedRange(lo, hi) == (lo - Widen - Pad, hi + Widen + Pad)
    ensures hi - lo >= MinSpan ==> PaddedRange(lo, hi) == (lo - Pad, hi + Pad)
  {
  }

  /** Every value of an axis lies strictly inside its padded bounds, and the span is at least `MinSpan + 2 * Pad`. */
  lemma AxisBoundsContain(xs: seq<real>)
    requires |xs| > 0
    ensures forall i :: 0 <= i < |xs| ==> AxisBounds(xs).0 < xs[i] < AxisBounds(xs).1
    ensures AxisBounds(xs).1 - AxisBounds(xs).0 >= MinSpan + 2.0 * Pad
  {
    MaxOfIsMaximum(xs);
    MinOfIsMinimum(xs);
    var lo, hi := MinOf(xs), MaxOf(xs);
    assert lo <= xs[0] <= hi;
    PaddedRangeWidening(lo, hi);
  }

  /** On coordinates: a raw span below `MinSpan` is widened; a wider one is only padded. */
  lemma AxisBoundsWidening(xs: seq<real>)
    requires |xs| > 0
    ensures MaxOf(xs) - MinOf(xs) < MinSpan ==>
      AxisBounds(xs) == (MinOf(xs) - Widen - Pad, MaxOf(xs) + Widen + Pad)
    ensures MaxOf(xs) - MinOf(xs) >= MinSpan ==>
      AxisBounds(xs) == (MinOf(xs) - Pad, MaxOf(xs) + Pad)
  {
    MaxOfIsMaximum(xs);
    MinOfIsMinimum(xs);
    var lo, hi := MinOf(xs), MaxOf(xs);
    assert lo <= xs[0] <= hi;
    PaddedRangeWidening(lo, hi);
  }

  /** The box is defined exactly when the sources supply at least one coordinate. */
  lemma BoundaryDefinedIff(nodes: Option<seq<NodeRow>>, arcs: Option<seq<ArcRow>>, locs: Option<seq<Loc>>)
    ensures MapBoundary(AllLats(nodes, arcs, locs), AllLons(nodes, arcs, locs)).Some?
        <==> CoordinateCount(nodes, arcs, locs) > 0
  {
  }

  /** Every supplied coordinate lies strictly inside the box. */
  lemma BoundaryContainsAll(nodes: Option<seq<NodeRow>>, arcs: Option<seq<ArcRow>>, locs: Option<seq<Loc>>)
    requires CoordinateCount(nodes, arcs, locs) > 0
    ensures MapBoundary(AllLats(nodes, arcs, locs), AllLons(nodes, arcs, locs)).Some?
    ensures var box := MapBoundary(AllLats(nodes, arcs, locs), AllLons(nodes, arcs, locs)).value;
      && (nodes.Some? ==> forall i :: 0 <= i < |nodes.value| ==>
            Inside(box, nodes.value[i].lat, nodes.value[i].lon))
      && (arcs.Some? ==> forall i :: 0 <= i < |arcs.value| ==>
            Inside(box, arcs.value[i].startLat, arcs.value[i].startLon) &&
            Inside(box, arcs.value[i].endLat, arcs.value[i].endLon))
      && (locs.Some? ==> forall i :: 0 <= i < |locs.value| ==>
            Inside(box, locs.value[i].lat, locs.value[i].lon))
  {
    var lats, lons := AllLats(nodes, arcs, locs), AllLons(nodes, arcs, locs);
    AxisBoundsContain(lats);
    AxisBoundsContain(lons);
    var box := MapBoundary(lats, lons).value;
    var n := if nodes.Some? then |nodes.value| else 0;
    var a := if arcs.Some? then |arcs.value| else 0;
    if nodes.Some? {
      forall i | 0 <= i < |nodes.value|
        ensures Inside(box, nodes.value[i].lat, nodes.value[i].lon)
      {
        assert lats[i] == nodes.value[i].lat;
        assert lons[i] == nodes.value[i].lon;
      }
    }
    if arcs.Some? {
      forall i | 0 <= i < |arcs.value|
        ensures Inside(box, arcs.value[i].startLat, arcs.value[i].startLon)
        ensures Inside(box, arcs.value[i].endLat, arcs.value[i].endLon)
      {
        assert lats[n + i] == arcs.value[i].startLat;
        assert lons[n + i] == arcs.value[i].startLon;
        assert lats[n + a + i] == arcs.value[i].endLat;
        assert lons[n + a + i] == arcs.value[i].endLon;
      }
    }
    if locs.Some? {
      forall i | 0 <= i < |locs.value|
        ensures Inside(box, locs.value[i].lat, locs.value[i].lon)
      {
        assert lats[n + 2 * a + i] == locs.value[i].lat;
        assert lons[n + 2 * a + i] == locs.value[i].lon;
      }
    }
  }

  /** Each side of the box spans at least `MinSpan + 2 * Pad` degrees, so the box is never degenerate. */
  lemma BoundaryMinimumSpan(allLats: seq<real>, allLons: seq<real>)
    requires MapBoundary(allLats, allLons).Some?
    ensures var box := MapBoundary(allLats, allLons).value;
      && box.northWest.lat - box.southEast.lat >= MinSpan + 2.0 * Pad
      && box.southEast.lon - box.northWest.lon >= MinSpan + 2.0 * Pad
  {
    AxisBoundsContain(allLats);
    AxisBoundsContain(allLons);
  }

  /** Inputs that all sit on one point give a box 0.12 degrees wide on each axis around it. */
  lemma RepeatedPointBoundary(allLats: seq<real>, allLons: seq<real>)
    requires |allLats| > 0 && |allLons| > 0
    requires forall i :: 0 <= i < |allLats| ==> allLats[i] == 40.0
    requires forall i :: 0 <= i < |allLons| ==> allLons[i] == -75.0
    ensures MapBoundary(allLats, allLons) == Some(MapBox(Corner(39.94, -74.94), Corner(40.06, -75.06)))
  {
    MaxOfIsMaximum(allLats);
    MinOfIsMinimum(allLats);
    MaxOfIsMaximum(allLons);
    MinOfIsMinimum(allLons);
    assert MaxOf(allLats) == 40.0 && MinOf(allLats) == 40.0;
    assert MaxOf(allLons) == -75.0 && MinOf(allLons) == -75.0;
  }
}
