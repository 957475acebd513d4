/**
 * The conversion of segmentation polygons to the painter's percentage
 * coordinates, object_segmentation/detect_polygons.py.
 *
 * The input is a list of groups, one per segmented object; a group is a list
 * of polygons and a polygon a list of entries, each a vertex `(x, y)` or a
 * stray numpy scalar that the conversion skips. Every vertex with an x
 * beyond 882 pixels loses 882, then both coordinates are scaled by 100/2268
 * and rounded to two decimals; nothing clips the result to [0, 100]. A converted vertex is kept
 * only when it moved more than 0.1 on either axis from the vertex converted
 * just before it in the same group; the point of comparison is carried
 * from one polygon of the group to the next and starts afresh with each
 * group, so the first vertex of a group is never kept.
 *
 * Python's `round(v, 2)` is the parameter `round2`.
 */
module DetectPolygons {
  import opened Common

  /** One element of a polygon as the segmentation library hands it over. */
  datatype Entry = Scalar(value: real) | Vertex(x: real, y: real)

  /** A converted vertex in percentage coordinates. */
  datatype Coord = Coord(x: real, y: real)

  /** Horizontal pixels beyond which a vertex is shifted left by the same amount. */
  const StripWidth: real := 882.0
  /** Pixels that make 100 percent, on both axes. */
  const Span: real := 2268.0
  /** The smallest per-axis movement that keeps a vertex. */
  const MinStep: real := 0.1

  function Abs(v: real): real {
    if v < 0.0 then -v else v
  }

  /**
   * The x coordinate after the shift by 882: never moved right, kept
   * positive, and an x in [0, 882 + 2268] lands in [0, 2268].
   */
  function Folded(x: real): (r: real)
    ensures r <= x
    ensures x > 0.0 ==> r > 0.0
    ensures 0.0 <= x <= StripWidth + Span ==> 0.0 <= r <= Span
  {
    if x > StripWidth then x - StripWidth else x
  }

  /** The percentage coordinates of one vertex. */
  function ConvertVertex(x: real, y: real, round2: real -> real): Coord {
    Coord(round2(Folded(x) / Span * 100.0), round2(y / Span * 100.0))
  }

  /** `c` moved more than the minimum step from `prev` on at least one axis. */
  predicate Far(c: Coord, prev: Coord) {
    Abs(c.x - prev.x) > MinStep || Abs(c.y - prev.y) > MinStep
  }

  /** The converted vertices of one polygon, in order, scalars skipped. */
  function Vertices(poly: seq<Entry>, round2: real -> real): seq<Coord> {
    if poly == [] then []
    else
      var e := poly[|poly| - 1];
      Vertices(poly[..|poly| - 1], round2) + (if e.Vertex? then [ConvertVertex(e.x, e.y, round2)] else [])
  }

  /** The converted vertices of a group: those of its polygons one after the other. */
  function GroupVertices(group: seq<seq<Entry>>, round2: real -> real): seq<Coord> {
    if group == [] then []
    else GroupVertices(group[..|group| - 1], round2) + Vertices(group[|group| - 1], round2)
  }

  /** The vertices kept from a run of converted ones: each far from its predecessor in the run. */
  function Emitted(cs: seq<Coord>): seq<Coord> {
    if |cs| < 2 then []
    else Emitted(cs[..|cs| - 1]) + (if Far(cs[|cs| - 1], cs[|cs| - 2]) then [cs[|cs| - 1]] else [])
  }

  /** The result of the conversion: one list per group, in input order. */
  function ConvertedData(groups: seq<seq<seq<Entry>>>, round2: real -> real): (r: seq<seq<Coord>>)
    ensures |r| == |groups|
  {
    seq(|groups|, i requires 0 <= i < |groups| => Emitted(GroupVertices(groups[i], round2)))
  }

  // ---------------------------------------------------------------------
  // The vertex mapping
  // ---------------------------------------------------------------------

  /** A vertex whose x lies in [0, 882 + 2268] and y in [0, 2268] lands in [0, 100]. */
  lemma ConvertVertexInRange(x: real, y: real, round2: real -> real)
    requires 0.0 <= x <= StripWidth + Span && 0.0 <= y <= Span
    requires forall v :: 0.0 <= v <= 100.0 ==> 0.0 <= round2(v) <= 100.0
    ensures 0.0 <= ConvertVertex(x, y, round2).x <= 100.0
    ensures 0.0 <= ConvertVertex(x, y, round2).y <= 100.0
  {
    Fraction(Folded(x));
    Fraction(y);
  }

  /** Before rounding, every vertex with x beyond 882 + 2268 lies above 100. */
  lemma FarRightAboveRange(x: real)
    requires x > StripWidth + Span
    ensures Folded(x) / Span * 100.0 > 100.0
  {
    assert Folded(x) / Span > 1.0;
  }

  /** The conversion is not clipped either: a vertex at x = 4000 converts above 137 whatever the rounding. */
  lemma FarRightLeavesRange(round2: real -> real)
    requires forall v :: -0.005 <= round2(v) - v <= 0.005
    ensures ConvertVertex(4000.0, 0.0, round2).x > 137.0
  {
    assert Folded(4000.0) / Span * 100.0 == 3118.0 / 2268.0 * 100.0;
  }

  lemma Fraction(v: real)
    requires 0.0 <= v <= Span
    ensures 0.0 <= v / Span * 100.0 <= 100.0
  {
    assert v / Span <= 1.0;
  }

  /** A vertex right of the strip and the vertex 882 pixels to its left convert alike; 882 itself stays put. */
  lemma StripsCoincide(x: real, y: real, round2: real -> real)
    requires 0.0 < x <= StripWidth
    ensures ConvertVertex(x + StripWidth, y, round2) == ConvertVertex(x, y, round2)
    ensures ConvertVertex(StripWidth, y, round2).x == round2(350.0 / 9.0)
  {
    assert StripWidth / Span * 100.0 == 350.0 / 9.0;
  }

  /** Without rounding, scaling back recovers the folded x and the unchanged y. */
  lemma ConvertVertexInverts(x: real, y: real, round2: real -> real)
    requires forall v :: round2(v) == v
    ensures ConvertVertex(x, y, round2).x / 100.0 * Span == Folded(x)
    ensures ConvertVertex(x, y, round2).y / 100.0 * Span == y
  {
    Unscale(Folded(x));
    Unscale(y);
  }

  lemma Unscale(v: real)
    ensures v / Span * 100.0 / 100.0 * Span == v
  {
    assert v / Span * 100.0 / 100.0 == v / Span;
  }

  // ---------------------------------------------------------------------
  // Vertices: scalars skipped, order kept
  // ---------------------------------------------------------------------

  /** The vertices of a concatenation are those of its parts, in order. */
  lemma {:induction false} VerticesAppend(a: seq<Entry>, b: seq<Entry>, round2: real -> real)
    ensures Vertices(a + b, round2) == Vertices(a, round2) + Vertices(b, round2)
    decreases |b|
  {
    if b != [] {
      var b' := b[..|b| - 1];
      var e := b[|b| - 1];
      var last := if e.Vertex? then [ConvertVertex(e.x, e.y, round2)] else [];
      assert (a + b)[..|a + b| - 1] == a + b';
      assert (a + b)[|a + b| - 1] == e;
      assert Vertices(a + b, round2) == Vertices(a + b', round2) + last;
      assert Vertices(b, round2) == Vertices(b', round2) + last;
      VerticesAppend(a, b', round2);
      AppendAssoc(Vertices(a, round2), Vertices(b', round2), last);
    } else {
      assert a + b == a;
    }
  }

  /** A converted vertex of a polygon is the conversion of one of its vertex entries, and each of them is converted. */
  lemma {:induction false} VerticesMembership(poly: seq<Entry>, round2: real -> real, c: Coord)
    ensures c in Vertices(poly, round2)
        <==> exists i :: 0 <= i < |poly| && poly[i].Vertex? && c == ConvertVertex(poly[i].x, poly[i].y, round2)
  {
    if poly != [] {
      var p := poly[..|poly| - 1];
      VerticesMembership(p, round2, c);
      assert forall i :: 0 <= i < |p| ==> p[i] == poly[i];
    }
  }

  /** A polygon made of scalars only contributes nothing. */
  lemma {:induction false} ScalarsOnly(poly: seq<Entry>, round2: real -> real)
    requires forall i :: 0 <= i < |poly| ==> poly[i].Scalar?
    ensures Vertices(poly, round2) == []
  {
    if poly != [] {
      ScalarsOnly(poly[..|poly| - 1], round2);
    }
  }

  /** Every converted vertex of a group comes from a vertex entry of one of its polygons. */
  lemma {:induction false} GroupVerticesMembership(group: seq<seq<Entry>>, round2: real -> real, c: Coord)
    requires c in GroupVertices(group, round2)
    ensures exists j, i :: 0 <= j < |group| && 0 <= i < |group[j]| && group[j][i].Vertex?
                        && c == ConvertVertex(group[j][i].x, group[j][i].y, round2)
  {
    var g := group[..|group| - 1];
    var last := group[|group| - 1];
    if c in GroupVertices(g, round2) {
      GroupVerticesMembership(g, round2, c);
      var j, i :| 0 <= j < |g| && 0 <= i < |g[j]| && g[j][i].Vertex? && c == ConvertVertex(g[j][i].x, g[j][i].y, round2);
      assert g[j] == group[j];
    } else {
      VerticesMembership(last, round2, c);
      var i :| 0 <= i < |last| && last[i].Vertex? && c == ConvertVertex(last[i].x, last[i].y, round2);
      assert group[|group| - 1][i] == last[i];
    }
  }

  // ---------------------------------------------------------------------
  // Emitted: which vertices are kept
  // ---------------------------------------------------------------------

  /** Extending the run by one vertex keeps it exactly when it is far from the run's last vertex. */
  lemma EmittedStep(cs: seq<Coord>, c: Coord)
    ensures Emitted(cs + [c]) == Emitted(cs) + (if cs != [] && Far(c, cs[|cs| - 1]) then [c] else [])
  {
    assert (cs + [c])[..|cs|] == cs;
  }

  /** At most one vertex fewer than the run is kept: the first one never is. */
  lemma {:induction false} EmittedLength(cs: seq<Coord>)
    ensures |Emitted(cs)| <= if cs == [] then 0 else |cs| - 1
  {
    if |cs| >= 2 {
      EmittedLength(cs[..|cs| - 1]);
    }
  }

  /** A vertex is kept iff it sits at some position after the first and is far from the vertex just before it. */
  lemma {:induction false} EmittedMembership(cs: seq<Coord>, c: Coord)
    ensures c in Emitted(cs) <==> exists i :: 1 <= i < |cs| && cs[i] == c && Far(cs[i], cs[i - 1])
  {
    if |cs| >= 2 {
      var p := cs[..|cs| - 1];
      EmittedMembership(p, c);
      assert forall i :: 0 <= i < |p| ==> p[i] == cs[i];
    }
  }

  /** When every vertex is far from its predecessor, all but the first are kept, in order. */
  lemma {:induction false} AllFarKeepsTail(cs: seq<Coord>)
    requires cs != []
    requires forall i :: 1 <= i < |cs| ==> Far(cs[i], cs[i - 1])
    ensures Emitted(cs) == cs[1..]
  {
    if |cs| >= 2 {
      var p := cs[..|cs| - 1];
      assert forall i :: 0 <= i < |p| ==> p[i] == cs[i];
      AllFarKeepsTail(p);
      assert cs[1..] == p[1..] + [cs[|cs| - 1]];
    }
  }

  /**
   * The point of comparison runs on across a boundary: the run `a + b` keeps
   * what `a` keeps, then the first vertex of `b` if it is far from the last
   * of `a`, then what `b` keeps on its own.
   */
  lemma {:induction false} EmittedConcat(a: seq<Coord>, b: seq<Coord>)
    ensures Emitted(a + b)
         == Emitted(a) + (if a != [] && b != [] && Far(b[0], a[|a| - 1]) then [b[0]] else []) + Emitted(b)
    decreases |b|
  {
    if b == [] {
      assert a + b == a;
    } else if |b| == 1 {
      EmittedStep(a, b[0]);
      assert a + b == a + [b[0]];
    } else if |b| >= 2 {
      var b' := b[..|b| - 1];
      var c := b[|b| - 1];
      var seam := if a != [] && Far(b[0], a[|a| - 1]) then [b[0]] else [];
      var tail := if Far(c, b[|b| - 2]) then [c] else [];
      assert Emitted(a + b') == Emitted(a) + seam + Emitted(b') by {
        EmittedConcat(a, b');
        assert b'[0] == b[0];
      }
      assert a + b == (a + b') + [c] by {
        assert b == b' + [c];
        AppendAssoc(a, b', [c]);
      }
      assert Emitted((a + b') + [c]) == Emitted(a + b') + tail by {
        EmittedStep(a + b', c);
        assert (a + b')[|a + b'| - 1] == b[|b| - 2];
      }
      assert Emitted(b) == Emitted(b') + tail;
      AppendAssoc(Emitted(a) + seam, Emitted(b'), tail);
    }
  }

  /** Vertices creeping by 0.05 per step are all dropped, although the last is 0.15 from the first. */
  lemma SlowDriftDropsAll()
    ensures Emitted([Coord(0.0, 0.0), Coord(0.05, 0.0), Coord(0.1, 0.0), Coord(0.15, 0.0)]) == []
  {
    var cs := [Coord(0.0, 0.0), Coord(0.05, 0.0), Coord(0.1, 0.0), Coord(0.15, 0.0)];
    assert cs[..3][..2] == cs[..2];
    assert Emitted(cs[..2]) == [];
    assert Emitted(cs[..3]) == [];
  }

  // ---------------------------------------------------------------------
  // The groups
  // ---------------------------------------------------------------------

  /** Each list of the result keeps fewer vertices than its group converts (or none), each from that group. */
  lemma ConvertedDataBounds(groups: seq<seq<seq<Entry>>>, round2: real -> real, g: nat, c: Coord)
    requires g < |groups|
    ensures |ConvertedData(groups, round2)[g]| == 0 || |ConvertedData(groups, round2)[g]| < |GroupVertices(groups[g], round2)|
    ensures c in ConvertedData(groups, round2)[g] ==>
              exists j, i :: 0 <= j < |groups[g]| && 0 <= i < |groups[g][j]| && groups[g][j][i].Vertex?
                          && c == ConvertVertex(groups[g][j][i].x, groups[g][j][i].y, round2)
  {
    var cs := GroupVertices(groups[g], round2);
    EmittedLength(cs);
    if c in ConvertedData(groups, round2)[g] {
      EmittedMembership(cs, c);
      var i :| 1 <= i < |cs| && cs[i] == c && Far(cs[i], cs[i - 1]);
      GroupVerticesMembership(groups[g], round2, c);
    }
  }

  /**
   * The point of comparison is not reset between the polygons of a group:
   * with the two polygons in one group, the second polygon's first vertex is
   * compared with the first polygon's last one and kept.
   */
  lemma SeamVertexKept(round2: real -> real)
    requires round2(0.0) == 0.0 && round2(100.0) == 100.0
    ensures ConvertedData([[[Vertex(0.0, 0.0)], [Vertex(0.0, 2268.0)]]], round2) == [[Coord(0.0, 100.0)]]
  {
    var p := [Vertex(0.0, 0.0)];
    var q := [Vertex(0.0, 2268.0)];
    var u := Coord(0.0, 0.0);
    var w := Coord(0.0, 100.0);
    CornerVertices(round2);
    assert GroupVertices([p, q], round2) == [u, w] by {
      TwoPolygons(p, q, round2);
    }
    assert Emitted([u, w]) == [w] by {
      assert [u, w][..1] == [u];
    }
    var joined := ConvertedData([[p, q]], round2);
    assert joined[0] == Emitted(GroupVertices([p, q], round2));
  }

  /** The same two polygons as two groups: each vertex is the first of its group and dropped. */
  lemma SeparateGroupsDropAll(round2: real -> real)
    requires round2(0.0) == 0.0 && round2(100.0) == 100.0
    ensures ConvertedData([[[Vertex(0.0, 0.0)]], [[Vertex(0.0, 2268.0)]]], round2) == [[], []]
  {
    var p := [Vertex(0.0, 0.0)];
    var q := [Vertex(0.0, 2268.0)];
    CornerVertices(round2);
    var apart := ConvertedData([[p], [q]], round2);
    assert apart[0] == Emitted([Coord(0.0, 0.0)]) == [];
    assert apart[1] == Emitted([Coord(0.0, 100.0)]) == [];
  }

  lemma CornerVertices(round2: real -> real)
    requires round2(0.0) == 0.0 && round2(100.0) == 100.0
    ensures GroupVertices([[Vertex(0.0, 0.0)]], round2) == [Coord(0.0, 0.0)]
    ensures GroupVertices([[Vertex(0.0, 2268.0)]], round2) == [Coord(0.0, 100.0)]
    ensures Vertices([Vertex(0.0, 0.0)], round2) == [Coord(0.0, 0.0)]
    ensures Vertices([Vertex(0.0, 2268.0)], round2) == [Coord(0.0, 100.0)]
  {
    assert ConvertVertex(0.0, 0.0, round2) == Coord(0.0, 0.0) by {
      assert 0.0 / Span * 100.0 == 0.0;
    }
    assert ConvertVertex(0.0, 2268.0, round2) == Coord(0.0, 100.0) by {
      assert 0.0 / Span * 100.0 == 0.0;
      assert 2268.0 / Span * 100.0 == 100.0;
    }
    OneVertex(0.0, 0.0, round2);
    OneVertex(0.0, 2268.0, round2);
  }

  lemma OneVertex(x: real, y: real, round2: real -> real)
    ensures Vertices([Vertex(x, y)], round2) == [ConvertVertex(x, y, round2)]
    ensures GroupVertices([[Vertex(x, y)]], round2) == [ConvertVertex(x, y, round2)]
  {
    assert [Vertex(x, y)][..0] == [];
    assert [[Vertex(x, y)]][..0] == [];
  }

  lemma TwoPolygons(p: seq<Entry>, q: seq<Entry>, round2: real -> real)
    ensures GroupVertices([p, q], round2) == Vertices(p, round2) + Vertices(q, round2)
  {
    assert [p, q][..1] == [p];
    assert [p][..0] == [];
    assert GroupVertices([p], round2) == [] + Vertices(p, round2) == Vertices(p, round2);
  }

  // ---------------------------------------------------------------------
  // convert_coordinates_poly, as the source writes it
  // ---------------------------------------------------------------------

  method ConvertCoordinatesPoly(polyCoords: seq<seq<seq<Entry>>>, round2: real -> real) returns (convertedData: seq<seq<Coord>>)
    ensures convertedData == ConvertedData(polyCoords, round2)
  {
    convertedData := [];
    for g := 0 to |polyCoords|
      invariant |convertedData| == g
      invariant forall i :: 0 <= i < g ==> convertedData[i] == Emitted(GroupVertices(polyCoords[i], round2))
    {
      var polygonData := ConvertGroup(polyCoords[g], round2);
      convertedData := convertedData + [polygonData];
    }
  }

  /** The body of the outer loop: one group, the point of comparison starting empty. */
  method ConvertGroup(polygons: seq<seq<Entry>>, round2: real -> real) returns (polygonData: seq<Coord>)
    ensures polygonData == Emitted(GroupVertices(polygons, round2))
  {
    polygonData := [];
    var previousPoint: Option<Coord> := None;
    for j := 0 to |polygons|
      invariant polygonData == Emitted(GroupVertices(polygons[..j], round2))
      invariant previousPoint == LastOf(GroupVertices(polygons[..j], round2))
    {
      ghost var before := GroupVertices(polygons[..j], round2);
      polygonData, previousPoint := ConvertPolygon(polygons[j], round2, polygonData, previousPoint, before);
      assert polygons[..j + 1][..j] == polygons[..j];
    }
    assert polygons[..|polygons|] == polygons;
  }

  /**
   * The middle loop's body: one polygon of a group, continuing from the
   * vertices `before` it that the group has converted so far.
   */
  method ConvertPolygon(poly: seq<Entry>, round2: real -> real, data: seq<Coord>, previous: Option<Coord>,
                        ghost before: seq<Coord>)
    returns (polygonData: seq<Coord>, previousPoint: Option<Coord>)
    requires data == Emitted(before) && previous == LastOf(before)
    ensures polygonData == Emitted(before + Vertices(poly, round2))
    ensures previousPoint == LastOf(before + Vertices(poly, round2))
  {
    polygonData, previousPoint := data, previous;
    assert before + Vertices(poly[..0], round2) == before by {
      assert poly[..0] == [];
    }
    for m := 0 to |poly|
      invariant polygonData == Emitted(before + Vertices(poly[..m], round2))
      invariant previousPoint == LastOf(before + Vertices(poly[..m], round2))
    {
      ghost var seen := before + Vertices(poly[..m], round2);
      polygonData, previousPoint := ConvertPoint(poly[m], round2, polygonData, previousPoint, seen);
      assert before + Vertices(poly[..m + 1], round2) == seen + Vertices([poly[m]], round2) by {
        assert poly[..m + 1] == poly[..m] + [poly[m]];
        VerticesAppend(poly[..m], [poly[m]], round2);
        AppendAssoc(before, Vertices(poly[..m], round2), Vertices([poly[m]], round2));
      }
    }
    assert poly[..|poly|] == poly;
  }

  /** The inner loop's body: one entry, skipped when it is a scalar. */
  method ConvertPoint(point: Entry, round2: real -> real, data: seq<Coord>, previous: Option<Coord>,
                      ghost seen: seq<Coord>)
    returns (polygonData: seq<Coord>, previousPoint: Option<Coord>)
    requires data == Emitted(seen) && previous == LastOf(seen)
    ensures polygonData == Emitted(seen + Vertices([point], round2))
    ensures previousPoint == LastOf(seen + Vertices([point], round2))
  {
    polygonData, previousPoint := data, previous;
    if point.Vertex? {
      var x := point.x;
      var y := point.y;
      if x > StripWidth {
        x := x - StripWidth;
      }
      var newX := round2(x / Span * 100.0);
      var newY := round2(y / Span * 100.0);
      if previousPoint.Some? {
        var diffX := Abs(newX - previousPoint.value.x);
        var diffY := Abs(newY - previousPoint.value.y);
        if diffX > MinStep || diffY > MinStep {
          polygonData := polygonData + [Coord(newX, newY)];
        }
      }
      previousPoint := Some(Coord(newX, newY));
      assert Vertices([point], round2) == [Coord(newX, newY)] by {
        assert x == Folded(point.x);
        OneVertex(point.x, point.y, round2);
      }
      EmittedStep(seen, Coord(newX, newY));
      LastOfConcat(seen, [Coord(newX, newY)]);
    } else {
      assert seen + Vertices([point], round2) == seen by {
        assert [point][..0] == [];
      }
    }
  }
}
