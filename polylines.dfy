/**
 * `get_all_polylines` (strava_dash/func.py:77-101): the routes of all
 * activities flattened into one table of points, one row per decoded
 * (lat, lon) point, each row carrying the id of the activity it came from.
 * The input is a series of encoded polylines indexed by activity id; the
 * decoder is a parameter.
 */
module Polylines {
  import opened Wrappers
  import Geo

  /** One entry of the input series: an activity id and its `summary_polyline`. */
  datatype Route = Route(id: int, polyline: Option<string>)

  /** One row of the output: the activity id and one decoded point. */
  datatype Row = Row(id: int, point: Geo.Point)

  /** The output table: the columns `activity_id`, `lat` and `lon`. */
  datatype Coordinates = Coordinates(activityId: seq<int>, lat: seq<real>, lon: seq<real>)

  // ---------------------------------------------------------------------
  // Specification

  /** The rows one route contributes: none when it is skipped, else one per decoded point, in order. */
  function RowsOf(r: Route, decode: Geo.Decoder): (rows: seq<Row>)
  {
    if Geo.HasRoute(r.polyline) then
      var pts := decode(r.polyline.value);
      seq(|pts|, k requires 0 <= k < |pts| => Row(r.id, pts[k]))
    else []
  }

  /** The rows of all routes, route after route. */
  function Flatten(routes: seq<Route>, decode: Geo.Decoder): seq<Row>
  {
    if routes == [] then []
    else Flatten(routes[..|routes| - 1], decode) + RowsOf(routes[|routes| - 1], decode)
  }

  /** The three columns of a list of rows. */
  function Columns(rows: seq<Row>): (c: Coordinates)
    ensures |c.activityId| == |rows| && |c.lat| == |rows| && |c.lon| == |rows|
    ensures forall k :: 0 <= k < |rows| ==>
      c.activityId[k] == rows[k].id && c.lat[k] == rows[k].point.lat && c.lon[k] == rows[k].point.lon
  {
    Coordinates(
      seq(|rows|, k requires 0 <= k < |rows| => rows[k].id),
      seq(|rows|, k requires 0 <= k < |rows| => rows[k].point.lat),
      seq(|rows|, k requires 0 <= k < |rows| => rows[k].point.lon))
  }

  /** Reference count: the number of decoded points over the routes that are not skipped. */
  function TotalPoints(routes: seq<Route>, decode: Geo.Decoder): nat
  {
    if routes == [] then 0
    else
      var r := routes[|routes| - 1];
      TotalPoints(routes[..|routes| - 1], decode) + if Geo.HasRoute(r.polyline) then |decode(r.polyline.value)| else 0
  }

  /** Reference count: the number of decoded points of the non-skipped routes with id `x`. */
  function PointsFor(routes: seq<Route>, decode: Geo.Decoder, x: int): nat
  {
    if routes == [] then 0
    else
      var r := routes[|routes| - 1];
      PointsFor(routes[..|routes| - 1], decode, x) +
        if r.id == x && Geo.HasRoute(r.polyline) then |decode(r.polyline.value)| else 0
  }

  /** The number of rows carrying id `x`. */
  function CountId(rows: seq<Row>, x: int): nat
  {
    if rows == [] then 0
    else CountId(rows[..|rows| - 1], x) + if rows[|rows| - 1].id == x then 1 else 0
  }

  // ---------------------------------------------------------------------
  // The loop

  /**
   * The nested loop: every non-skipped route is decoded and each of its
   * points appended to the three lists, with the route's id. The table is
   * built only when `lats` and `lons` have the same length, which they
   * always do, so a table is always returned.
   */
  method GetAllPolylines(routes: seq<Route>, decode: Geo.Decoder) returns (r: Option<Coordinates>)
    ensures r == Some(Columns(Flatten(routes, decode)))
  {
    var activityIds: seq<int> := [];
    var lats: seq<real> := [];
    var lons: seq<real> := [];
    ghost var rows: seq<Row> := [];
    var i := 0;
    while i < |routes|
      invariant 0 <= i <= |routes|
      invariant rows == Flatten(routes[..i], decode)
      invariant Coordinates(activityIds, lats, lons) == Columns(rows)
    {
      var route := routes[i];
      ghost var before := rows;
      if route.polyline.Some? && route.polyline.value != "" {
        var decoded := decode(route.polyline.value);
        var j := 0;
        while j < |decoded|
          invariant 0 <= j <= |decoded|
          invariant rows == before + RowsOf(route, decode)[..j]
          invariant Coordinates(activityIds, lats, lons) == Columns(rows)
        {
          var p := decoded[j];
          ColumnsAppend(rows, Row(route.id, p));
          assert RowsOf(route, decode)[..j + 1] == RowsOf(route, decode)[..j] + [Row(route.id, p)];
          lats := lats + [p.lat];
          lons := lons + [p.lon];
          activityIds := activityIds + [route.id];
          rows := rows + [Row(route.id, p)];
          j := j + 1;
        }
        assert RowsOf(route, decode)[..j] == RowsOf(route, decode);
      }
      assert routes[..i + 1][..i] == routes[..i];
      i := i + 1;
    }
    assert routes[..i] == routes;
    if |lats| == |lons| {
      r := Some(Coordinates(activityIds, lats, lons));
    } else {
      assert false;
      r := None;
    }
  }

  /** Appending a row appends its id and coordinates to the three columns. */
  lemma {:induction false} ColumnsAppend(rows: seq<Row>, x: Row)
    ensures Columns(rows + [x]) == Coordinates(Columns(rows).activityId + [x.id],
      Columns(rows).lat + [x.point.lat], Columns(rows).lon + [x.point.lon])
  {
    var c, d := Columns(rows), Columns(rows + [x]);
    assert d.activityId == c.activityId + [x.id];
    assert d.lat == c.lat + [x.point.lat];
    assert d.lon == c.lon + [x.point.lon];
  }

  // ---------------------------------------------------------------------
  // Properties

  /** Flattening follows iteration order: the rows of `a + b` are those of `a`, then those of `b`. */
  lemma {:induction false} FlattenAppend(a: seq<Route>, b: seq<Route>, decode: Geo.Decoder)
    ensures Flatten(a + b, decode) == Flatten(a, decode) + Flatten(b, decode)
  {
    if b == [] {
      assert a + b == a;
    } else {
      var init := b[..|b| - 1];
      assert (a + b)[..|a + b| - 1] == a + init;
      assert (a + b)[|a + b| - 1] == b[|b| - 1];
      FlattenAppend(a, init, decode);
    }
  }

  /** An activity whose polyline is missing or empty contributes no rows, wherever it stands. */
  lemma {:induction false} SkippedContributesNothing(a: seq<Route>, r: Route, b: seq<Route>, decode: Geo.Decoder)
    requires !Geo.HasRoute(r.polyline)
    ensures Flatten(a + [r] + b, decode) == Flatten(a + b, decode)
  {
    assert Flatten([r], decode) == [] by {
      assert [r][..0] == [];
    }
    FlattenAppend(a + [r], b, decode);
    FlattenAppend(a, [r], decode);
    FlattenAppend(a, b, decode);
  }

  /** The three columns have one entry per decoded point of the non-skipped routes. */
  lemma {:induction false} RowCount(routes: seq<Route>, decode: Geo.Decoder)
    ensures |Flatten(routes, decode)| == TotalPoints(routes, decode)
  {
    if routes != [] {
      RowCount(routes[..|routes| - 1], decode);
    }
  }

  /**
   * Every row is a point of the decoded route of a non-skipped activity and
   * carries that activity's id.
   */
  lemma {:induction false} RowOrigin(routes: seq<Route>, decode: Geo.Decoder, k: nat)
    requires k < |Flatten(routes, decode)|
    ensures exists i, p ::
      0 <= i < |routes| && Geo.HasRoute(routes[i].polyline) &&
      0 <= p < |decode(routes[i].polyline.value)| &&
      Flatten(routes, decode)[k] == Row(routes[i].id, decode(routes[i].polyline.value)[p])
  {
    var n := |routes| - 1;
    var init := routes[..n];
    var prev := Flatten(init, decode);
    if k < |prev| {
      RowOrigin(init, decode, k);
      var i, p :| 0 <= i < |init| && Geo.HasRoute(init[i].polyline) &&
        0 <= p < |decode(init[i].polyline.value)| &&
        prev[k] == Row(init[i].id, decode(init[i].polyline.value)[p]);
      assert routes[i] == init[i];
    } else {
      var p := k - |prev|;
      assert Flatten(routes, decode)[k] == RowsOf(routes[n], decode)[p];
      assert Flatten(routes, decode)[k] == Row(routes[n].id, decode(routes[n].polyline.value)[p]);
    }
  }

  lemma {:induction false} CountIdAppend(a: seq<Row>, b: seq<Row>, x: int)
    ensures CountId(a + b, x) == CountId(a, x) + CountId(b, x)
  {
    if b == [] {
      assert a + b == a;
    } else {
      var init := b[..|b| - 1];
      assert (a + b)[..|a + b| - 1] == a + init;
      assert (a + b)[|a + b| - 1] == b[|b| - 1];
      CountIdAppend(a, init, x);
    }
  }

  /** A route's own rows all carry its id. */
  lemma {:induction false} CountIdSame(rows: seq<Row>, id: int, x: int)
    requires forall k :: 0 <= k < |rows| ==> rows[k].id == id
    ensures CountId(rows, x) == if id == x then |rows| else 0
  {
    if rows != [] {
      var init := rows[..|rows| - 1];
      assert forall k :: 0 <= k < |init| ==> init[k] == rows[k];
      CountIdSame(init, id, x);
    }
  }

  /** Each id appears exactly as many times as its activities have decoded points. */
  lemma {:induction false} IdMultiplicity(routes: seq<Route>, decode: Geo.Decoder, x: int)
    ensures CountId(Flatten(routes, decode), x) == PointsFor(routes, decode, x)
  {
    if routes != [] {
      var init, r := routes[..|routes| - 1], routes[|routes| - 1];
      IdMultiplicity(init, decode, x);
      CountIdAppend(Flatten(init, decode), RowsOf(r, decode), x);
      CountIdSame(RowsOf(r, decode), r.id, x);
    }
  }
}
