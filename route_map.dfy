/**
 * The data side of `generate_folium_map` (src/strava_dash/utils.py:88-205):
 * centring the map, choosing a colour and legend label per sport type,
 * skipping activities without a route, filling the insertion-ordered legend
 * and writing one HTML block per legend entry. Creating, drawing on and
 * saving the folium map are not modelled; the model keeps what would be
 * drawn.
 */
module RouteMap {
  import opened Wrappers
  import Geo
  import Stats

  // ---------------------------------------------------------------------
  // Classification

  datatype Style = Style(color: string, name: string)

  /** The five legend labels the classification can produce. */
  const Labels: seq<string> := ["Road bike", "MTB", "Hike", "VirtualRide", "Other"]

  /** The fixed colour that goes with each legend label. */
  function LabelColor(name: string): string
  {
    if name == "Road bike" then "#1f78b4"
    else if name == "MTB" then "#ff7f00"
    else if name == "Hike" then "#33a02c"
    else if name == "VirtualRide" then "#6a3d9a"
    else "#e31a1c"
  }

  /** Colour and legend label of an activity's `sport_type`; every sport type gets one. */
  function Classify(sportType: string): (s: Style)
    ensures s.name in Labels
    ensures s.color == LabelColor(s.name)
  {
    if sportType == "Ride" then Style("#1f78b4", "Road bike")
    else if sportType == "MountainBikeRide" then Style("#ff7f00", "MTB")
    else if sportType == "Hike" then Style("#33a02c", sportType)
    else if sportType == "VirtualRide" then Style("#6a3d9a", sportType)
    else Style("#e31a1c", "Other")
  }

  /** Which sport types end up under which label: the classification read backwards. */
  lemma {:induction false} ClassifyByLabel(t: string)
    ensures Classify(t).name == "Road bike" <==> t == "Ride"
    ensures Classify(t).name == "MTB" <==> t == "MountainBikeRide"
    ensures Classify(t).name == "Hike" <==> t == "Hike"
    ensures Classify(t).name == "VirtualRide" <==> t == "VirtualRide"
    ensures Classify(t).name == "Other" <==> t != "Ride" && t != "MountainBikeRide" && t != "Hike" && t != "VirtualRide"
  {
  }

  /** Different labels never share a colour, so the legend tells them apart. */
  lemma {:induction false} PaletteDistinct(i: int, j: int)
    requires 0 <= i < |Labels| && 0 <= j < |Labels|
    requires LabelColor(Labels[i]) == LabelColor(Labels[j])
    ensures i == j
  {
  }

  // ---------------------------------------------------------------------
  // The legend: an insertion-ordered dict from label to colour

  datatype Entry = Entry(name: string, color: string)

  type Legend = seq<Entry>

  function Keys(m: Legend): (ks: seq<string>)
    ensures |ks| == |m|
    ensures forall i :: 0 <= i < |m| ==> ks[i] == m[i].name
  {
    seq(|m|, i requires 0 <= i < |m| => m[i].name)
  }

  predicate DistinctKeys(m: Legend)
  {
    forall i, j :: 0 <= i < j < |m| ==> m[i].name != m[j].name
  }

  /** `d[label]`, or None when the key is absent. */
  function Lookup(m: Legend, name: string): (r: Option<string>)
    ensures r.None? <==> name !in Keys(m)
  {
    if m == [] then None
    else if m[|m| - 1].name == name then Some(m[|m| - 1].color)
    else
      assert Keys(m) == Keys(m[..|m| - 1]) + [m[|m| - 1].name];
      Lookup(m[..|m| - 1], name)
  }

  /** `d[label] = color`: a present key keeps its place and takes the new value, an absent one goes last. */
  function Put(m: Legend, name: string, color: string): (r: Legend)
    ensures |r| == if name in Keys(m) then |m| else |m| + 1
    ensures forall i :: 0 <= i < |m| ==> r[i] == if m[i].name == name then Entry(name, color) else m[i]
    ensures name !in Keys(m) ==> r[|m|] == Entry(name, color)
  {
    if name in Keys(m) then
      seq(|m|, i requires 0 <= i < |m| => if m[i].name == name then Entry(name, color) else m[i])
    else
      m + [Entry(name, color)]
  }

  /** The dict laws of `Put`: it binds the key, leaves every other key alone and keeps keys distinct. */
  lemma {:induction false} PutLaws(m: Legend, name: string, color: string, other: string)
    requires DistinctKeys(m)
    ensures DistinctKeys(Put(m, name, color))
    ensures Lookup(Put(m, name, color), name) == Some(color)
    ensures other != name ==> Lookup(Put(m, name, color), other) == Lookup(m, other)
  {
    var r := Put(m, name, color);
    LookupAt(r, name);
    LookupAt(r, other);
    LookupAt(m, other);
    if other != name && other in Keys(m) {
      var i :| 0 <= i < |m| && m[i].name == other;
      assert r[i] == m[i];
    }
  }

  /** In a legend with distinct keys, `Lookup` finds the entry holding the key. */
  lemma {:induction false} LookupAt(m: Legend, name: string)
    requires DistinctKeys(m)
    ensures forall i :: 0 <= i < |m| && m[i].name == name ==> Lookup(m, name) == Some(m[i].color)
  {
    if m != [] {
      var init := m[..|m| - 1];
      assert forall i :: 0 <= i < |init| ==> init[i] == m[i];
      LookupAt(init, name);
    }
  }

  /** The legend after `legend_items[label] = color` for each label in turn, colours from the palette. */
  function LegendFrom(labels: seq<string>): Legend
  {
    if labels == [] then []
    else
      var l := labels[|labels| - 1];
      Put(LegendFrom(labels[..|labels| - 1]), l, LabelColor(l))
  }

  /** Every key of `ks` first occurs in `ls` before every occurrence of each later key. */
  predicate FirstSeenOrder(ks: seq<string>, ls: seq<string>)
  {
    forall a, b, j :: 0 <= a < b < |ks| && 0 <= j < |ls| && ls[j] == ks[b] ==>
      exists i :: 0 <= i < j && ls[i] == ks[a]
  }

  /** `Put` on the keys: an absent key is appended, a present one changes nothing. */
  lemma {:induction false} PutKeys(m: Legend, name: string, color: string)
    ensures Keys(Put(m, name, color)) == if name in Keys(m) then Keys(m) else Keys(m) + [name]
  {
  }

  /** The legend holds each label seen, and only those, once each. */
  lemma {:induction false} LegendFromKeys(labels: seq<string>)
    ensures forall l :: l in Keys(LegendFrom(labels)) <==> l in labels
    ensures DistinctKeys(LegendFrom(labels))
  {
    if labels != [] {
      var ls := labels[..|labels| - 1];
      var l := labels[|labels| - 1];
      assert labels == ls + [l];
      LegendFromKeys(ls);
      PutKeys(LegendFrom(ls), l, LabelColor(l));
      var ks := Keys(LegendFrom(labels));
      assert forall i, j :: 0 <= i < j < |ks| ==> ks[i] != ks[j];
    }
  }

  /** Every legend entry carries its label's fixed colour. */
  lemma {:induction false} LegendFromColors(labels: seq<string>)
    ensures forall e :: e in LegendFrom(labels) ==> e.color == LabelColor(e.name)
  {
    if labels != [] {
      var ls := labels[..|labels| - 1];
      LegendFromColors(ls);
      var m := LegendFrom(ls);
      var r := LegendFrom(labels);
      forall e | e in r
        ensures e.color == LabelColor(e.name)
      {
        var i :| 0 <= i < |r| && r[i] == e;
        if i < |m| {
          assert m[i] in m;
        }
      }
    }
  }

  /** The legend lists the labels in the order they were first seen. */
  lemma {:induction false} LegendFromOrder(labels: seq<string>)
    ensures FirstSeenOrder(Keys(LegendFrom(labels)), labels)
  {
    if labels != [] {
      var ls := labels[..|labels| - 1];
      var l := labels[|labels| - 1];
      assert labels == ls + [l];
      LegendFromOrder(ls);
      LegendFromKeys(ls);
      PutKeys(LegendFrom(ls), l, LabelColor(l));
      FirstSeenStep(Keys(LegendFrom(ls)), ls, l, Keys(LegendFrom(labels)));
    }
  }

  /** Seeing one more label keeps the first-seen order of the keys, appending the label if it is new. */
  lemma {:induction false} FirstSeenStep(ks: seq<string>, ls: seq<string>, l: string, ks': seq<string>)
    requires FirstSeenOrder(ks, ls)
    requires forall k :: k in ks <==> k in ls
    requires ks' == if l in ks then ks else ks + [l]
    ensures FirstSeenOrder(ks', ls + [l])
  {
    var labels := ls + [l];
    assert forall i :: 0 <= i < |ls| ==> labels[i] == ls[i];
    forall a, b, j | 0 <= a < b < |ks'| && 0 <= j < |labels| && labels[j] == ks'[b]
      ensures exists i :: 0 <= i < j && labels[i] == ks'[a]
    {
      var key := ks[a];
      assert ks'[a] == key && key in ks;
      var i: int;
      if j < |ls| {
        assert ls[j] in ls;
        assert b < |ks|;
        i := EarlierAt(ks, ls, a, b, j);
      } else {
        assert key in ls;
        i := PositionOf(ls, key);
      }
      assert labels[i] == key;
    }
  }

  lemma {:induction false} PositionOf(ls: seq<string>, key: string) returns (i: nat)
    requires key in ls
    ensures i < |ls| && ls[i] == key
  {
    i :| 0 <= i < |ls| && ls[i] == key;
  }

  lemma {:induction false} EarlierAt(ks: seq<string>, ls: seq<string>, a: nat, b: nat, j: nat) returns (i: nat)
    requires FirstSeenOrder(ks, ls)
    requires a < b < |ks| && j < |ls| && ls[j] == ks[b]
    ensures i < j && ls[i] == ks[a]
  {
    assert ks[a] in ks;
    i :| 0 <= i < j && ls[i] == ks[a];
  }

  // ---------------------------------------------------------------------
  // Legend HTML: one block per entry, in legend order

  const ItemHead: string := "\n            <div style=\"display: flex; align-items: center; margin-bottom: 5px;\">\n              <div style=\"width: 20px; height: 10px; background-color: "
  const ItemMid: string := "; margin-right: 5px;\"></div>\n              "
  const ItemTail: string := "\n            </div>\n        "

  /** One legend block: a colour swatch followed by the label. */
  function ItemHtml(e: Entry): string
  {
    ItemHead + e.color + ItemMid + e.name + ItemTail
  }

  /** Where a block shows its colour and its label. */
  lemma {:induction false} ItemHtmlFields(e: Entry)
    ensures var h := ItemHtml(e);
      |h| == |ItemHead| + |e.color| + |ItemMid| + |e.name| + |ItemTail| &&
      h[|ItemHead|..|ItemHead| + |e.color|] == e.color &&
      h[|ItemHead| + |e.color| + |ItemMid|..|h| - |ItemTail|] == e.name
  {
    var h := ItemHtml(e);
    assert h[|ItemHead|..|ItemHead| + |e.color|] == e.color;
    assert h[|ItemHead| + |e.color| + |ItemMid|..|h| - |ItemTail|] == e.name;
  }

  /** `legend_html_items` after the loop over the legend. */
  function LegendItemsHtml(m: Legend): string
  {
    if m == [] then "" else LegendItemsHtml(m[..|m| - 1]) + ItemHtml(m[|m| - 1])
  }

  /** The blocks of the first `k` entries form a prefix of the whole text. */
  lemma {:induction false} LegendItemsHtmlPrefix(m: Legend, k: nat)
    requires k <= |m|
    ensures LegendItemsHtml(m[..k]) <= LegendItemsHtml(m)
    decreases |m| - k
  {
    if k == |m| {
      assert m[..k] == m;
    } else {
      LegendItemsHtmlPrefix(m, k + 1);
      assert m[..k + 1][..k] == m[..k];
    }
  }

  /** Entry `k`'s block sits right after the blocks of the entries before it. */
  lemma {:induction false} LegendItemsHtmlBlock(m: Legend, k: nat)
    requires k < |m|
    ensures var at := |LegendItemsHtml(m[..k])|;
      at + |ItemHtml(m[k])| <= |LegendItemsHtml(m)| &&
      LegendItemsHtml(m)[at..at + |ItemHtml(m[k])|] == ItemHtml(m[k])
  {
    LegendItemsHtmlStep(m, k);
    LegendItemsHtmlPrefix(m, k + 1);
    SliceOfPrefix(LegendItemsHtml(m[..k]), ItemHtml(m[k]), LegendItemsHtml(m));
  }

  lemma {:induction false} LegendItemsHtmlStep(m: Legend, k: nat)
    requires k < |m|
    ensures LegendItemsHtml(m[..k + 1]) == LegendItemsHtml(m[..k]) + ItemHtml(m[k])
  {
    assert m[..k + 1][..k] == m[..k];
  }

  lemma {:induction false} SliceOfPrefix(a: string, b: string, w: string)
    requires a + b <= w
    ensures |a| + |b| <= |w| && w[|a|..|a| + |b|] == b
  {
    assert w[..|a| + |b|] == a + b;
    assert w[|a|..|a| + |b|] == (a + b)[|a|..];
  }

  // ---------------------------------------------------------------------
  // Routes drawn and labels seen

  datatype Line = Line(points: seq<Geo.Point>, color: string)

  /** Positions of the activities whose polyline is drawn, in table order. */
  function Shown(polys: seq<Option<string>>): (r: seq<nat>)
    ensures forall k :: 0 <= k < |r| ==> r[k] < |polys| && Geo.HasRoute(polys[r[k]])
    ensures forall i :: 0 <= i < |polys| && Geo.HasRoute(polys[i]) ==> i in r
    ensures forall k, l :: 0 <= k < l < |r| ==> r[k] < r[l]
  {
    if polys == [] then []
    else
      var n := |polys| - 1;
      var prev := Shown(polys[..n]);
      assert forall i :: 0 <= i < n ==> polys[..n][i] == polys[i];
      if Geo.HasRoute(polys[n]) then prev + [n] else prev
  }

  /** The routes drawn, each in its sport type's colour. */
  function Drawn(sports: seq<string>, polys: seq<Option<string>>, decode: Geo.Decoder): seq<Line>
    requires |sports| == |polys|
  {
    if polys == [] then []
    else
      var n := |polys| - 1;
      var prev := Drawn(sports[..n], polys[..n], decode);
      if Geo.HasRoute(polys[n]) then prev + [Line(decode(polys[n].value), Classify(sports[n]).color)] else prev
  }

  /** The labels of the drawn activities, in table order. */
  function ShownLabels(sports: seq<string>, polys: seq<Option<string>>): seq<string>
    requires |sports| == |polys|
  {
    if polys == [] then []
    else
      var n := |polys| - 1;
      var prev := ShownLabels(sports[..n], polys[..n]);
      if Geo.HasRoute(polys[n]) then prev + [Classify(sports[n]).name] else prev
  }

  /** `legend_items` after the loop over the activities. */
  function LegendOf(sports: seq<string>, polys: seq<Option<string>>): Legend
    requires |sports| == |polys|
  {
    LegendFrom(ShownLabels(sports, polys))
  }

  /**
   * One line per activity with a route and none for the others, in table
   * order, each with the decoded route and the colour of its sport type.
   */
  lemma {:induction false} DrawnShown(sports: seq<string>, polys: seq<Option<string>>, decode: Geo.Decoder)
    requires |sports| == |polys|
    ensures var s := Shown(polys);
      |Drawn(sports, polys, decode)| == |s| &&
      forall k :: 0 <= k < |s| ==>
        Drawn(sports, polys, decode)[k] == Line(decode(polys[s[k]].value), Classify(sports[s[k]]).color)
  {
    if polys != [] {
      var n := |polys| - 1;
      DrawnShown(sports[..n], polys[..n], decode);
      var s := Shown(polys[..n]);
      var d := Drawn(sports[..n], polys[..n], decode);
      forall k | 0 <= k < |s|
        ensures d[k] == Line(decode(polys[s[k]].value), Classify(sports[s[k]]).color)
      {
        assert sports[..n][s[k]] == sports[s[k]] && polys[..n][s[k]] == polys[s[k]];
      }
    }
  }

  /** The labels seen are those of the activities with a route, in table order. */
  lemma {:induction false} ShownLabelsShown(sports: seq<string>, polys: seq<Option<string>>)
    requires |sports| == |polys|
    ensures var s := Shown(polys);
      |ShownLabels(sports, polys)| == |s| &&
      forall k :: 0 <= k < |s| ==> ShownLabels(sports, polys)[k] == Classify(sports[s[k]]).name
  {
    if polys != [] {
      var n := |polys| - 1;
      ShownLabelsShown(sports[..n], polys[..n]);
      var s := Shown(polys[..n]);
      var d := ShownLabels(sports[..n], polys[..n]);
      forall k | 0 <= k < |s|
        ensures d[k] == Classify(sports[s[k]]).name
      {
        assert sports[..n][s[k]] == sports[s[k]];
      }
    }
  }

  /**
   * The legend has one entry per distinct label among the activities with a
   * route, in first-seen order, each with its label's fixed colour.
   */
  lemma {:induction false} LegendOfActivities(sports: seq<string>, polys: seq<Option<string>>)
    requires |sports| == |polys|
    ensures DistinctKeys(LegendOf(sports, polys))
    ensures forall l :: l in Keys(LegendOf(sports, polys)) <==>
      exists i :: 0 <= i < |polys| && Geo.HasRoute(polys[i]) && Classify(sports[i]).name == l
    ensures forall e :: e in LegendOf(sports, polys) ==> e.color == LabelColor(e.name)
    ensures FirstSeenOrder(Keys(LegendOf(sports, polys)), ShownLabels(sports, polys))
  {
    var ls := ShownLabels(sports, polys);
    LegendFromKeys(ls);
    LegendFromColors(ls);
    LegendFromOrder(ls);
    ShownLabelsShown(sports, polys);
    var s := Shown(polys);
    forall l
      ensures l in ls <==> exists i :: 0 <= i < |polys| && Geo.HasRoute(polys[i]) && Classify(sports[i]).name == l
    {
      if l in ls {
        var k :| 0 <= k < |ls| && ls[k] == l;
        assert Geo.HasRoute(polys[s[k]]) && Classify(sports[s[k]]).name == l;
      }
      if exists i :: 0 <= i < |polys| && Geo.HasRoute(polys[i]) && Classify(sports[i]).name == l {
        var i :| 0 <= i < |polys| && Geo.HasRoute(polys[i]) && Classify(sports[i]).name == l;
        var k :| 0 <= k < |s| && s[k] == i;
        assert ls[k] == l;
      }
    }
  }

  // ---------------------------------------------------------------------
  // Auto-centring

  /** A `start_latlng`/`end_latlng` cell: text to evaluate, an already evaluated list, or missing. */
  datatype Literal = Text(s: string) | Parsed(xs: seq<real>) | Missing

  /** `ast.literal_eval` on a string holding a list of numbers; None where it raises. */
  type LiteralParser = string -> Option<seq<real>>

  datatype MapError =
    | MalformedLiteral(column: string)   // ValueError from `ast.literal_eval`
    | ShortCoordinates(column: string)   // IndexError from `x[0]` / `x[1]`
    | NaNLocation                        // ValueError from `folium.Map` on the NaN mean of no coordinates

  datatype CentrePolicy = Auto | At(lat: real, lon: real)

  /** `ast.literal_eval` accepts only strings: an evaluated list or a missing cell raises. */
  function EvalLiteral(c: Literal, parse: LiteralParser): Option<seq<real>>
  {
    if c.Text? then parse(c.s) else None
  }

  /** `column.apply(ast.literal_eval)`: every cell evaluated, or failure if any cell fails. */
  function EvalColumn(col: seq<Literal>, parse: LiteralParser): (r: Option<seq<seq<real>>>)
    ensures r.Some? <==> forall i :: 0 <= i < |col| ==> EvalLiteral(col[i], parse).Some?
    ensures r.Some? ==> |r.value| == |col|
    ensures r.Some? ==> forall i :: 0 <= i < |col| ==> r.value[i] == EvalLiteral(col[i], parse).value
  {
    if col == [] then Some([])
    else
      var n := |col| - 1;
      assert forall i :: 0 <= i < n ==> col[..n][i] == col[i];
      var prev :- EvalColumn(col[..n], parse);
      var v :- EvalLiteral(col[n], parse);
      Some(prev + [v])
  }

  /** Every evaluated cell has a latitude and a longitude. */
  predicate AllPairs(vs: seq<seq<real>>)
  {
    forall i :: 0 <= i < |vs| ==> |vs[i]| >= 2
  }

  /** `column.apply(lambda x: x[c])` for c = 0 (latitude) or 1 (longitude). */
  function Component(vs: seq<seq<real>>, c: nat): (r: seq<real>)
    requires c < 2 && AllPairs(vs)
    ensures |r| == |vs|
  {
    seq(|vs|, i requires 0 <= i < |vs| => vs[i][c])
  }

  function AsLiterals(vs: seq<seq<real>>): (r: seq<Literal>)
    ensures |r| == |vs| && forall i :: 0 <= i < |vs| ==> r[i] == Parsed(vs[i])
  {
    seq(|vs|, i requires 0 <= i < |vs| => Parsed(vs[i]))
  }

  /** `np.mean` of the latitudes and of the longitudes; None stands for the NaN centre of no coordinates. */
  function MeanPoint(lats: seq<real>, lons: seq<real>): Option<Geo.Point>
    requires |lats| == |lons|
  {
    if lats == [] then None else Some(Geo.Point(Stats.Mean(lats), Stats.Mean(lons)))
  }

  /** The coordinate columns after auto-centring and the centre, or the error raised on the way. */
  datatype Centring = Centring(start: seq<Literal>, end: seq<Literal>, centre: Result<Option<Geo.Point>, MapError>)

  /**
   * Auto-centring as the loop over ["start_latlng", "end_latlng"] does it:
   * each column is evaluated and written back before its coordinates are
   * read, so an error can leave the first column already overwritten.
   */
  function AutoCentre(start: seq<Literal>, end: seq<Literal>, parse: LiteralParser): Centring
    requires |start| == |end|
  {
    match EvalColumn(start, parse)
    case None => Centring(start, end, Err(MalformedLiteral("start_latlng")))
    case Some(ps) =>
      if !AllPairs(ps) then Centring(AsLiterals(ps), end, Err(ShortCoordinates("start_latlng")))
      else match EvalColumn(end, parse)
        case None => Centring(AsLiterals(ps), end, Err(MalformedLiteral("end_latlng")))
        case Some(qs) =>
          if !AllPairs(qs) then Centring(AsLiterals(ps), AsLiterals(qs), Err(ShortCoordinates("end_latlng")))
          else Centring(AsLiterals(ps), AsLiterals(qs),
            Ok(MeanPoint(Component(ps, 0) + Component(qs, 0), Component(ps, 1) + Component(qs, 1))))
  }

  /** A cell that evaluates to a list with a latitude and a longitude. */
  predicate GoodCell(c: Literal, parse: LiteralParser)
  {
    EvalLiteral(c, parse).Some? && |EvalLiteral(c, parse).value| >= 2
  }

  /** Auto-centring succeeds exactly when every cell of both columns evaluates to a coordinate pair. */
  lemma {:induction false} AutoCentreSucceeds(start: seq<Literal>, end: seq<Literal>, parse: LiteralParser)
    requires |start| == |end|
    ensures AutoCentre(start, end, parse).centre.Ok? <==>
      (forall i :: 0 <= i < |start| ==> GoodCell(start[i], parse)) &&
      (forall i :: 0 <= i < |end| ==> GoodCell(end[i], parse))
  {
  }

  /** Centring automatically on an empty table gives the NaN centre, here None. */
  lemma {:induction false} AutoCentreEmpty(start: seq<Literal>, end: seq<Literal>, parse: LiteralParser)
    requires |start| == |end|
    requires AutoCentre(start, end, parse).centre.Ok?
    ensures AutoCentre(start, end, parse).centre.value.None? <==> start == []
  {
    var ps := EvalColumn(start, parse).value;
    var qs := EvalColumn(end, parse).value;
    if start != [] {
      assert |Component(ps, 0) + Component(qs, 0)| > 0;
    }
  }

  /**
   * The centre is the mean of all start and end latitudes (longitudes), so
   * it lies within their range.
   */
  lemma {:induction false} AutoCentreMean(start: seq<Literal>, end: seq<Literal>, parse: LiteralParser, centre: Geo.Point)
    requires |start| == |end|
    requires AutoCentre(start, end, parse).centre == Ok(Some(centre))
    ensures EvalColumn(start, parse).Some? && EvalColumn(end, parse).Some?
    ensures AllPairs(EvalColumn(start, parse).value) && AllPairs(EvalColumn(end, parse).value)
    ensures var lats := Component(EvalColumn(start, parse).value, 0) + Component(EvalColumn(end, parse).value, 0);
      |lats| == 2 * |start| && centre.lat == Stats.Mean(lats) &&
      Stats.Min(lats) <= centre.lat <= Stats.Max(lats)
    ensures var lons := Component(EvalColumn(start, parse).value, 1) + Component(EvalColumn(end, parse).value, 1);
      |lons| == 2 * |start| && centre.lon == Stats.Mean(lons) &&
      Stats.Min(lons) <= centre.lon <= Stats.Max(lons)
  {
    var ps := EvalColumn(start, parse).value;
    var qs := EvalColumn(end, parse).value;
    var lats := Component(ps, 0) + Component(qs, 0);
    var lons := Component(ps, 1) + Component(qs, 1);
    assert MeanPoint(lats, lons) == Some(centre);
    MeanPointFacts(lats, lons, centre);
  }

  lemma {:induction false} MeanPointFacts(lats: seq<real>, lons: seq<real>, centre: Geo.Point)
    requires |lats| == |lons| && MeanPoint(lats, lons) == Some(centre)
    ensures centre.lat == Stats.Mean(lats) && Stats.Min(lats) <= centre.lat <= Stats.Max(lats)
    ensures centre.lon == Stats.Mean(lons) && Stats.Min(lons) <= centre.lon <= Stats.Max(lons)
  {
    Stats.MeanBounds(lats);
    Stats.MeanBounds(lons);
  }

  /**
   * Auto-centring writes the evaluated lists back into the caller's columns,
   * so centring the same non-empty table a second time fails.
   */
  lemma {:induction false} AutoCentreNotRepeatable(start: seq<Literal>, end: seq<Literal>, parse: LiteralParser)
    requires |start| == |end| && start != []
    requires AutoCentre(start, end, parse).centre.Ok?
    ensures var c := AutoCentre(start, end, parse);
      (forall i :: 0 <= i < |c.start| ==> c.start[i].Parsed?) &&
      AutoCentre(c.start, c.end, parse).centre == Err(MalformedLiteral("start_latlng"))
  {
    var c := AutoCentre(start, end, parse);
    assert EvalLiteral(c.start[0], parse).None?;
  }

  // ---------------------------------------------------------------------
  // The activity table and the whole call

  /** The columns of the activity table that `generate_folium_map` reads or overwrites. */
  class ActivityFrame {
    var sportType: seq<string>
    var summaryPolyline: seq<Option<string>>
    var startLatLng: seq<Literal>
    var endLatLng: seq<Literal>

    predicate Valid()
      reads this
    {
      |summaryPolyline| == |sportType| && |startLatLng| == |sportType| && |endLatLng| == |sportType|
    }

    constructor (sportType: seq<string>, summaryPolyline: seq<Option<string>>, startLatLng: seq<Literal>, endLatLng: seq<Literal>)
      requires |summaryPolyline| == |sportType| && |startLatLng| == |sportType| && |endLatLng| == |sportType|
      ensures Valid()
      ensures this.sportType == sportType && this.summaryPolyline == summaryPolyline
      ensures this.startLatLng == startLatLng && this.endLatLng == endLatLng
    {
      this.sportType := sportType;
      this.summaryPolyline := summaryPolyline;
      this.startLatLng := startLatLng;
      this.endLatLng := endLatLng;
    }
  }

  /** What the map would show: its centre, the routes drawn, the legend and the legend's HTML blocks. */
  datatype MapModel = MapModel(centre: Geo.Point, lines: seq<Line>, legend: Legend, legendItems: string)

  /** The map drawn for these activities around a given centre. */
  function Render(centre: Geo.Point, sports: seq<string>, polys: seq<Option<string>>, decode: Geo.Decoder): MapModel
    requires |sports| == |polys|
  {
    var legend := LegendOf(sports, polys);
    MapModel(centre, Drawn(sports, polys, decode), legend, LegendItemsHtml(legend))
  }

  /**
   * `generate_folium_map`: centre the map (overwriting the coordinate
   * columns when centring automatically), then draw every activity that
   * has a route and build the legend. Centring automatically on an empty
   * table gives a NaN mean, which the map refuses as its location.
   */
  method GenerateFoliumMap(activities: ActivityFrame, latLon: CentrePolicy, parse: LiteralParser, decode: Geo.Decoder)
    returns (r: Result<MapModel, MapError>)
    requires activities.Valid()
    modifies activities
    ensures activities.Valid()
    ensures activities.sportType == old(activities.sportType)
    ensures activities.summaryPolyline == old(activities.summaryPolyline)
    ensures latLon.At? ==>
      activities.startLatLng == old(activities.startLatLng) && activities.endLatLng == old(activities.endLatLng) &&
      r == Ok(Render(Geo.Point(latLon.lat, latLon.lon), activities.sportType, activities.summaryPolyline, decode))
    ensures latLon.Auto? ==>
      var c := AutoCentre(old(activities.startLatLng), old(activities.endLatLng), parse);
      activities.startLatLng == c.start && activities.endLatLng == c.end &&
      (c.centre.Err? ==> r == Err(c.centre.error)) &&
      (c.centre == Ok(None) ==> r == Err(NaNLocation)) &&
      (c.centre.Ok? && c.centre.value.Some? ==>
        r == Ok(Render(c.centre.value.value, activities.sportType, activities.summaryPolyline, decode)))
  {
    var centre: Geo.Point;
    if latLon.At? {
      centre := Geo.Point(latLon.lat, latLon.lon);
    } else {
      var ps := EvalColumn(activities.startLatLng, parse);
      if ps.None? {
        return Err(MalformedLiteral("start_latlng"));
      }
      activities.startLatLng := AsLiterals(ps.value);
      if !AllPairs(ps.value) {
        return Err(ShortCoordinates("start_latlng"));
      }
      var qs := EvalColumn(activities.endLatLng, parse);
      if qs.None? {
        return Err(MalformedLiteral("end_latlng"));
      }
      activities.endLatLng := AsLiterals(qs.value);
      if !AllPairs(qs.value) {
        return Err(ShortCoordinates("end_latlng"));
      }
      var lats := Component(ps.value, 0) + Component(qs.value, 0);
      var lons := Component(ps.value, 1) + Component(qs.value, 1);
      var mean := MeanPoint(lats, lons);
      if mean.None? {
        return Err(NaNLocation);
      }
      centre := mean.value;
    }

    var lines, legend := DrawRoutes(activities.sportType, activities.summaryPolyline, decode);
    var html := LegendItems(legend);
    r := Ok(MapModel(centre, lines, legend, html));
  }

  /** The drawing loop: one line per activity with a route, its style added to the legend. */
  method DrawRoutes(sports: seq<string>, polys: seq<Option<string>>, decode: Geo.Decoder)
    returns (lines: seq<Line>, legend: Legend)
    requires |sports| == |polys|
    ensures lines == Drawn(sports, polys, decode)
    ensures legend == LegendFrom(ShownLabels(sports, polys))
  {
    lines, legend := [], [];
    var i := 0;
    while i < |polys|
      invariant 0 <= i <= |polys|
      invariant lines == Drawn(sports[..i], polys[..i], decode)
      invariant legend == LegendFrom(ShownLabels(sports[..i], polys[..i]))
    {
      assert sports[..i + 1][..i] == sports[..i] && polys[..i + 1][..i] == polys[..i];
      var p := polys[i];
      if Geo.HasRoute(p) {
        var style := Classify(sports[i]);
        legend := Put(legend, style.name, style.color);
        lines := lines + [Line(decode(p.value), style.color)];
      }
      i := i + 1;
    }
    assert sports[..i] == sports && polys[..i] == polys;
  }

  /** The loop that writes one legend item per entry. */
  method LegendItems(legend: Legend) returns (html: string)
    ensures html == LegendItemsHtml(legend)
  {
    html := "";
    var k := 0;
    while k < |legend|
      invariant 0 <= k <= |legend|
      invariant html == LegendItemsHtml(legend[..k])
    {
      assert legend[..k + 1][..k] == legend[..k];
      html := html + ItemHtml(legend[k]);
      k := k + 1;
    }
    assert legend[..k] == legend;
  }
}
