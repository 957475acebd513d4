/**
 * The motion planning of dobot/dobot_controller.py: mapping points into the
 * arm's workspace, drawing a line as a fixed four-move stroke, drawing a
 * chain of lines through points, and colouring an area by its boundary and
 * a series of horizontal fill rows.
 *
 * The arm itself (pydobot over a serial port) is replaced by `Arm`, an
 * executor that records every move it is asked to make and reports whether
 * it failed. Attempts are numbered from 0 and the ones that fail form a
 * fixed set; since the target of every attempt is determined by the
 * outcomes of the attempts before it, such a set expresses any pattern of
 * failures a run can meet.
 */
module DobotControl {
  import opened Common

  /** A point, either in the caller's coordinates or in the arm's workspace. */
  datatype Point = Point(x: real, y: real)

  /** A target of `move_to(x, y, z, r)`. */
  datatype Move = Move(x: real, y: real, z: real, r: real)

  /** A line from one point to another, as the (x1, y1, x2, y2) of draw_line. */
  datatype Line = Line(from: Point, to: Point)

  /** The configuration the controller reads from the application: pen height and workspace offsets. */
  datatype Config = Config(zHeight: real, offsetX: real, offsetY: real)

  /** IndexError from indexing an empty point list; MoveFailed from a move whose exception is not caught. */
  datatype Error = IndexError | MoveFailed

  datatype Outcome = Completed | Raised(error: Error)

  /** The z of the single move draw_area makes after its boundary. */
  const SinkZ: real := -20.0

  /** The vertical distance between two fill rows. */
  const RowStep: real := 2.0

  // ---------------------------------------------------------------------
  // calculate_points (lines 6-20)
  // ---------------------------------------------------------------------

  /** One point of calculate_points: the axes are swapped and offset. */
  function ToWorkspace(p: Point, cfg: Config): Point {
    Point(p.y + cfg.offsetX, p.x - cfg.offsetY)
  }

  /** The inverse of ToWorkspace. */
  function FromWorkspace(q: Point, cfg: Config): Point {
    Point(q.y + cfg.offsetY, q.x - cfg.offsetX)
  }

  lemma WorkspaceRoundTrip(p: Point, q: Point, cfg: Config)
    ensures FromWorkspace(ToWorkspace(p, cfg), cfg) == p
    ensures ToWorkspace(FromWorkspace(q, cfg), cfg) == q
  {
  }

  /** The axes are swapped, not kept: (10, 20) with offsets 194 and 50 lands at (214, -40). */
  lemma WorkspaceExample(z: real)
    ensures ToWorkspace(Point(10.0, 20.0), Config(z, 194.0, 50.0)) == Point(214.0, -40.0)
  {
  }

  /** The points calculate_points returns for `points`. */
  function Calculated(points: seq<Point>, cfg: Config): seq<Point> {
    seq(|points|, i requires 0 <= i < |points| => ToWorkspace(points[i], cfg))
  }

  /** calculate_points: the same number of points, in the same order, each mapped by ToWorkspace. */
  method CalculatePoints(points: seq<Point>, cfg: Config) returns (output: seq<Point>)
    ensures |output| == |points|
    ensures forall i :: 0 <= i < |points| ==> output[i] == ToWorkspace(points[i], cfg)
    ensures output == Calculated(points, cfg)
  {
    output := [];
    for i := 0 to |points|
      invariant |output| == i
      invariant forall j :: 0 <= j < i ==> output[j] == ToWorkspace(points[j], cfg)
    {
      output := output + [ToWorkspace(points[i], cfg)];
    }
  }

  // ---------------------------------------------------------------------
  // draw_line (lines 51-71)
  // ---------------------------------------------------------------------

  /** The four moves of draw_line: above the start, down, across at pen height, up; rotation 0 throughout. */
  function Stroke(l: Line, z: real): seq<Move> {
    [Move(l.from.x, l.from.y, 0.0, 0.0), Move(l.from.x, l.from.y, z, 0.0),
     Move(l.to.x, l.to.y, z, 0.0), Move(l.to.x, l.to.y, 0.0, 0.0)]
  }

  /**
   * The moves of `plan` the arm is asked to make when its attempts are
   * numbered from `k`: all of them up to and including the first that fails.
   * A failed move raises, and the rest of the plan is skipped.
   */
  function Attempted(failing: set<nat>, k: nat, plan: seq<Move>): (r: seq<Move>)
    ensures |r| <= |plan|
    ensures plan != [] ==> r != []
    decreases |plan|
  {
    if plan == [] then []
    else if (k in failing) then [plan[0]]
    else [plan[0]] + Attempted(failing, k + 1, plan[1..])
  }

  /**
   * The attempted moves are a prefix of the plan; every one but the last
   * succeeded; the plan is cut short only by a failure of its last attempted
   * move; and when nothing in the plan fails, all of it is attempted.
   */
  lemma {:induction false} AttemptedIsFailurePrefix(failing: set<nat>, k: nat, plan: seq<Move>)
    ensures Attempted(failing, k, plan) == plan[..|Attempted(failing, k, plan)|]
    ensures forall n :: k <= n < k + |Attempted(failing, k, plan)| - 1 ==> n !in failing
    ensures |Attempted(failing, k, plan)| < |plan| ==> (k + |Attempted(failing, k, plan)| - 1 in failing)
    ensures (forall n :: k <= n < k + |plan| ==> n !in failing) ==> Attempted(failing, k, plan) == plan
    decreases |plan|
  {
    if plan != [] && (k !in failing) {
      AttemptedIsFailurePrefix(failing, k + 1, plan[1..]);
      assert forall i :: 1 <= i < |plan| ==> plan[i] == plan[1..][i - 1];
    }
  }

  /** The stroke stops right after its first failing move, or is made completely. */
  lemma StrokeAttempts(failing: set<nat>, k: nat, l: Line, z: real)
    ensures var s := Stroke(l, z);
      Attempted(failing, k, s)
      == if (k in failing) then s[..1]
         else if (k + 1 in failing) then s[..2]
         else if (k + 2 in failing) then s[..3]
         else s
  {
    var s := Stroke(l, z);
    assert s[3..][1..] == [];
    var a3 := Attempted(failing, k + 3, s[3..]);
    assert a3 == [s[3]];
    assert s[2..][1..] == s[3..];
    var a2 := Attempted(failing, k + 2, s[2..]);
    assert a2 == if (k + 2 in failing) then [s[2]] else [s[2], s[3]];
    assert s[1..][1..] == s[2..];
    var a1 := Attempted(failing, k + 1, s[1..]);
    assert a1 == if (k + 1 in failing) then [s[1]] else [s[1]] + a2;
    assert s[..1] == [s[0]] && s[..2] == [s[0], s[1]] && s[..3] == [s[0], s[1], s[2]];
  }

  // ---------------------------------------------------------------------
  // Sequences of strokes
  // ---------------------------------------------------------------------

  /** The moves asked of the arm when each line is drawn with draw_line in turn, attempts numbered from `k`. */
  function Run(failing: set<nat>, k: nat, lines: seq<Line>, z: real): (r: seq<Move>)
    ensures |lines| <= |r| <= 4 * |lines|
    decreases |lines|
  {
    if lines == [] then []
    else
      var a := Attempted(failing, k, Stroke(lines[0], z));
      a + Run(failing, k + |a|, lines[1..], z)
  }

  /** The moves of the strokes of `lines`, one after the other. */
  function Strokes(lines: seq<Line>, z: real): (r: seq<Move>)
    ensures |r| == 4 * |lines|
  {
    if lines == [] then [] else Stroke(lines[0], z) + Strokes(lines[1..], z)
  }

  /** Drawing one more line extends the run by the attempted part of its stroke. */
  lemma {:induction false} RunAppend(failing: set<nat>, k: nat, lines: seq<Line>, l: Line, z: real)
    ensures Run(failing, k, lines + [l], z)
         == Run(failing, k, lines, z) + Attempted(failing, k + |Run(failing, k, lines, z)|, Stroke(l, z))
    decreases |lines|
  {
    if lines == [] {
      assert ([] + [l])[1..] == [];
    } else {
      var a := Attempted(failing, k, Stroke(lines[0], z));
      assert (lines + [l])[0] == lines[0];
      assert (lines + [l])[1..] == lines[1..] + [l];
      RunAppend(failing, k + |a|, lines[1..], l, z);
    }
  }

  /** The run of the first i + 1 lines extends the run of the first i by the attempted part of stroke i. */
  lemma RunStep(failing: set<nat>, k: nat, lines: seq<Line>, i: nat, z: real)
    requires i < |lines|
    ensures Run(failing, k, lines[..i + 1], z)
         == Run(failing, k, lines[..i], z) + Attempted(failing, k + |Run(failing, k, lines[..i], z)|, Stroke(lines[i], z))
  {
    RunAppend(failing, k, lines[..i], lines[i], z);
    assert lines[..i + 1] == lines[..i] + [lines[i]];
  }

  /** The run of the boundary is the run of the chain and then the closing line. */
  lemma RunBoundary(failing: set<nat>, k: nat, pts: seq<Point>, z: real)
    requires pts != []
    ensures Run(failing, k, BoundaryLines(pts), z)
         == Run(failing, k, ChainLines(pts), z)
          + Attempted(failing, k + |Run(failing, k, ChainLines(pts), z)|, Stroke(Line(pts[|pts| - 1], pts[0]), z))
  {
    RunAppend(failing, k, ChainLines(pts), Line(pts[|pts| - 1], pts[0]), z);
  }

  /** One more turn of the chain loop: the run is extended by the stroke from point x to point x + 1. */
  lemma ChainStep(failing: set<nat>, k: nat, pts: seq<Point>, x: nat, z: real)
    requires x + 1 < |pts|
    ensures Run(failing, k, ChainLines(pts)[..x + 1], z)
         == Run(failing, k, ChainLines(pts)[..x], z)
          + Attempted(failing, k + |Run(failing, k, ChainLines(pts)[..x], z)|, Stroke(Line(pts[x], pts[x + 1]), z))
  {
    ChainLinesAt(pts);
    RunStep(failing, k, ChainLines(pts), x, z);
  }

  /** One more turn of the fill loop: the run is extended by the stroke of fill row `row`. */
  lemma FillStep(failing: set<nat>, k: nat, pts: seq<Point>, row: nat, z: real)
    requires pts != [] && row < |FillLines(pts)|
    ensures Run(failing, k, FillLines(pts)[..row + 1], z)
         == Run(failing, k, FillLines(pts)[..row], z)
          + Attempted(failing, k + |Run(failing, k, FillLines(pts)[..row], z)|, Stroke(FillRow(pts, row), z))
  {
    RunStep(failing, k, FillLines(pts), row, z);
  }

  /** When no move fails, every stroke is made completely. */
  lemma {:induction false} RunWithoutFailure(failing: set<nat>, k: nat, lines: seq<Line>, z: real)
    requires failing == {}
    ensures Run(failing, k, lines, z) == Strokes(lines, z)
    decreases |lines|
  {
    if lines != [] {
      StrokeAttempts(failing, k, lines[0], z);
      RunWithoutFailure(failing, k + 4, lines[1..], z);
    }
  }

  /** Stroke i of Strokes is the stroke of line i. */
  lemma {:induction false} StrokeAt(lines: seq<Line>, z: real, i: nat)
    requires i < |lines|
    ensures Strokes(lines, z)[4 * i..4 * i + 4] == Stroke(lines[i], z)
    decreases i
  {
    if i > 0 {
      StrokeAt(lines[1..], z, i - 1);
      assert Strokes(lines, z)[4 * i..4 * i + 4] == Strokes(lines[1..], z)[4 * (i - 1)..4 * (i - 1) + 4];
    }
  }

  /** A failure inside one stroke does not stop the next: the whole run still starts every stroke. */
  lemma {:induction false} RunStartsEveryStroke(failing: set<nat>, k: nat, lines: seq<Line>, z: real)
    requires lines != []
    ensures Run(failing, k, lines, z)[0] == Stroke(lines[0], z)[0]
    ensures Run(failing, k, lines[..|lines| - 1], z) + Attempted(failing, k + |Run(failing, k, lines[..|lines| - 1], z)|, Stroke(lines[|lines| - 1], z))
         == Run(failing, k, lines, z)
  {
    RunAppend(failing, k, lines[..|lines| - 1], lines[|lines| - 1], z);
    assert lines[..|lines| - 1] + [lines[|lines| - 1]] == lines;
  }

  /** Three strokes where attempt 6, the third move of the second stroke, fails: the third stroke is still made. */
  lemma PartialFailureExample(a: Line, b: Line, c: Line, z: real)
    ensures Run({6}, 0, [a, b, c], z)
         == Stroke(a, z) + Stroke(b, z)[..3] + Stroke(c, z)
  {
    var failing := {6};
    var sa, sb, sc := Stroke(a, z), Stroke(b, z), Stroke(c, z);
    assert Attempted(failing, 0, sa) == sa by {
      StrokeAttempts(failing, 0, a, z);
    }
    assert Attempted(failing, 4, sb) == sb[..3] by {
      StrokeAttempts(failing, 4, b, z);
    }
    assert Attempted(failing, 7, sc) == sc by {
      StrokeAttempts(failing, 7, c, z);
    }
    assert Run(failing, 7, [c], z) == sc by {
      assert [c][1..] == [];
      assert Run(failing, 11, [], z) == [];
    }
    assert Run(failing, 4, [b, c], z) == sb[..3] + sc by {
      assert [b, c][1..] == [c];
    }
    assert Run(failing, 0, [a, b, c], z) == sa + (sb[..3] + sc) by {
      assert [a, b, c][1..] == [b, c];
    }
    AppendAssoc(sa, sb[..3], sc);
  }

  // ---------------------------------------------------------------------
  // draw_dot_to_dot (lines 73-82)
  // ---------------------------------------------------------------------

  /** The lines between consecutive points, as the loop of draw_dot_to_dot draws them. */
  function ChainLines(pts: seq<Point>): (r: seq<Line>)
    ensures |r| == if |pts| == 0 then 0 else |pts| - 1
  {
    if |pts| < 2 then [] else [Line(pts[0], pts[1])] + ChainLines(pts[1..])
  }

  /** Chain line i goes from point i to point i + 1: max(n - 1, 0) strokes, none for 0 or 1 points. */
  lemma {:induction false} ChainLinesAt(pts: seq<Point>)
    ensures forall i :: 0 <= i < |ChainLines(pts)| ==> ChainLines(pts)[i] == Line(pts[i], pts[i + 1])
  {
    if |pts| >= 2 {
      ChainLinesAt(pts[1..]);
    }
  }

  // ---------------------------------------------------------------------
  // draw_area (lines 84-110)
  // ---------------------------------------------------------------------

  /** The boundary of draw_area: the chain through the points, closed by the line from the last to the first. */
  function BoundaryLines(pts: seq<Point>): (r: seq<Line>)
    requires pts != []
    ensures |r| == |pts|
  {
    ChainLines(pts) + [Line(pts[|pts| - 1], pts[0])]
  }

  /** The n boundary lines of n points: the consecutive pairs, then last to first. */
  lemma BoundaryLinesAt(pts: seq<Point>)
    requires pts != []
    ensures forall i :: 0 <= i < |pts| - 1 ==> BoundaryLines(pts)[i] == Line(pts[i], pts[i + 1])
    ensures BoundaryLines(pts)[|pts| - 1] == Line(pts[|pts| - 1], pts[0])
  {
    ChainLinesAt(pts);
  }

  /** The largest y of the points, `top_y`. */
  function TopY(pts: seq<Point>): real
    requires pts != []
  {
    if |pts| == 1 then pts[0].y
    else
      var rest := TopY(pts[1..]);
      if pts[0].y >= rest then pts[0].y else rest
  }

  lemma {:induction false} TopYIsMax(pts: seq<Point>)
    requires pts != []
    ensures exists i :: 0 <= i < |pts| && pts[i].y == TopY(pts)
    ensures forall i :: 0 <= i < |pts| ==> pts[i].y <= TopY(pts)
  {
    if |pts| > 1 {
      TopYIsMax(pts[1..]);
      assert forall i :: 1 <= i < |pts| ==> pts[i] == pts[1..][i - 1];
      if pts[0].y < TopY(pts[1..]) {
        var j :| 0 <= j < |pts[1..]| && pts[1..][j].y == TopY(pts[1..]);
        assert pts[j + 1].y == TopY(pts);
      } else {
        assert pts[0].y == TopY(pts);
      }
    } else {
      assert pts[0].y == TopY(pts);
    }
  }

  /** The smallest y of the points, the bound of the fill loop. */
  function BottomY(pts: seq<Point>): real
    requires pts != []
  {
    if |pts| == 1 then pts[0].y
    else
      var rest := BottomY(pts[1..]);
      if pts[0].y <= rest then pts[0].y else rest
  }

  lemma {:induction false} BottomYIsMin(pts: seq<Point>)
    requires pts != []
    ensures exists i :: 0 <= i < |pts| && pts[i].y == BottomY(pts)
    ensures forall i :: 0 <= i < |pts| ==> BottomY(pts) <= pts[i].y
  {
    if |pts| > 1 {
      BottomYIsMin(pts[1..]);
      assert forall i :: 1 <= i < |pts| ==> pts[i] == pts[1..][i - 1];
      if pts[0].y > BottomY(pts[1..]) {
        var j :| 0 <= j < |pts[1..]| && pts[1..][j].y == BottomY(pts[1..]);
        assert pts[j + 1].y == BottomY(pts);
      } else {
        assert pts[0].y == BottomY(pts);
      }
    } else {
      assert pts[0].y == BottomY(pts);
    }
  }

  /** The largest x among the points whose y is `y`; None when no point has that y. */
  function MaxXOnRow(pts: seq<Point>, y: real): Option<real> {
    if pts == [] then None
    else
      var rest := MaxXOnRow(pts[1..], y);
      if pts[0].y != y then rest
      else if rest.Some? && rest.value > pts[0].x then rest
      else Some(pts[0].x)
  }

  lemma {:induction false} MaxXOnRowIsMax(pts: seq<Point>, y: real)
    ensures MaxXOnRow(pts, y).None? <==> forall i :: 0 <= i < |pts| ==> pts[i].y != y
    ensures MaxXOnRow(pts, y).Some? ==> exists i :: 0 <= i < |pts| && pts[i].y == y && pts[i].x == MaxXOnRow(pts, y).value
    ensures MaxXOnRow(pts, y).Some? ==> forall i :: 0 <= i < |pts| && pts[i].y == y ==> pts[i].x <= MaxXOnRow(pts, y).value
  {
    if pts != [] {
      MaxXOnRowIsMax(pts[1..], y);
      assert forall i :: 1 <= i < |pts| ==> pts[i] == pts[1..][i - 1];
      var rest := MaxXOnRow(pts[1..], y);
      if rest.Some? && (pts[0].y != y || rest.value > pts[0].x) {
        var j :| 0 <= j < |pts[1..]| && pts[1..][j].y == y && pts[1..][j].x == rest.value;
        assert pts[j + 1].y == y && pts[j + 1].x == rest.value;
      }
    }
  }

  /** `farthest_x`: the largest x among the points at the top. */
  function FarthestX(pts: seq<Point>): real
    requires pts != []
  {
    TopYIsMax(pts);
    MaxXOnRowIsMax(pts, TopY(pts));
    MaxXOnRow(pts, TopY(pts)).value
  }

  /** A point at the top always exists, and farthest_x is the largest x among such points. */
  lemma FarthestXIsMax(pts: seq<Point>)
    requires pts != []
    ensures exists i :: 0 <= i < |pts| && pts[i].y == TopY(pts) && pts[i].x == FarthestX(pts)
    ensures forall i :: 0 <= i < |pts| && pts[i].y == TopY(pts) ==> pts[i].x <= FarthestX(pts)
  {
    TopYIsMax(pts);
    MaxXOnRowIsMax(pts, TopY(pts));
  }

  /** The number of k >= 0 with top - 2k > bottom, the number of turns of the fill loop. */
  function RowCount(top: real, bottom: real): nat {
    if top <= bottom then 0 else -((bottom - top) / RowStep).Floor
  }

  /** Row k is drawn exactly when top - 2k is still above the bottom. */
  lemma RowCountExact(top: real, bottom: real, k: nat)
    ensures k < RowCount(top, bottom) <==> top - RowStep * (k as real) > bottom
  {
    if top > bottom {
      var f := ((bottom - top) / RowStep).Floor;
      assert (f as real) <= (bottom - top) / RowStep < (f as real) + 1.0;
    }
  }

  /** The fill rows of draw_area: at y = top - 2k, each from farthest_x to the first point's x. */
  function FillLines(pts: seq<Point>): (r: seq<Line>)
    requires pts != []
    ensures |r| == RowCount(TopY(pts), BottomY(pts))
  {
    var top := TopY(pts);
    seq(RowCount(top, BottomY(pts)), k requires 0 <= k => FillRow(pts, k))
  }

  /** Fill row k. */
  function FillRow(pts: seq<Point>, k: nat): Line
    requires pts != []
  {
    var y := TopY(pts) - RowStep * (k as real);
    Line(Point(FarthestX(pts), y), Point(pts[0].x, y))
  }

  /** The move to the first point at z = -20 after the boundary. */
  function Sink(pts: seq<Point>): Move
    requires pts != []
  {
    Move(pts[0].x, pts[0].y, SinkZ, 0.0)
  }

  /** The moves of draw_area after its boundary, attempts numbered from `k`: the sink move, then the fill unless it failed. */
  function SinkAndFillTrace(failing: set<nat>, k: nat, pts: seq<Point>, z: real): seq<Move>
    requires pts != []
  {
    if (k in failing) then [Sink(pts)] else [Sink(pts)] + Run(failing, k + 1, FillLines(pts), z)
  }

  /** The moves draw_area asks of the arm for the calculated points `pts`, attempts numbered from `k`. */
  function AreaTrace(failing: set<nat>, k: nat, pts: seq<Point>, z: real): seq<Move> {
    if pts == [] then []
    else
      var b := Run(failing, k, BoundaryLines(pts), z);
      b + SinkAndFillTrace(failing, k + |b|, pts, z)
  }

  /** How draw_area ends: IndexError on no points, the uncaught failure of the sink move, or normally. */
  function AreaOutcome(failing: set<nat>, k: nat, pts: seq<Point>, z: real): Outcome {
    if pts == [] then Raised(IndexError)
    else if (k + |Run(failing, k, BoundaryLines(pts), z)| in failing) then Raised(MoveFailed)
    else Completed
  }

  /** The fill rows are exactly the levels top - 2k above the bottom, each from farthest_x back to the first point. */
  lemma FillRowsExact(pts: seq<Point>, k: nat)
    requires pts != []
    ensures k < |FillLines(pts)| <==> TopY(pts) - RowStep * (k as real) > BottomY(pts)
    ensures k < |FillLines(pts)| ==> FillLines(pts)[k].from == Point(FarthestX(pts), TopY(pts) - RowStep * (k as real))
    ensures k < |FillLines(pts)| ==> FillLines(pts)[k].to == Point(pts[0].x, TopY(pts) - RowStep * (k as real))
  {
    RowCountExact(TopY(pts), BottomY(pts), k);
  }

  /** When every point has the same y there is no fill row. */
  lemma FlatAreaHasNoFill(pts: seq<Point>)
    requires pts != []
    requires forall i :: 0 <= i < |pts| ==> pts[i].y == pts[0].y
    ensures FillLines(pts) == []
  {
    TopYIsMax(pts);
    BottomYIsMin(pts);
  }

  /**
   * With no failure, draw_area on n >= 1 points makes the n boundary strokes,
   * the sink move, and one stroke per fill row, and completes.
   */
  lemma AreaWithoutFailure(failing: set<nat>, k: nat, pts: seq<Point>, z: real)
    requires failing == {}
    requires pts != []
    ensures AreaTrace(failing, k, pts, z) == Strokes(BoundaryLines(pts), z) + [Sink(pts)] + Strokes(FillLines(pts), z)
    ensures |AreaTrace(failing, k, pts, z)| == 4 * |pts| + 1 + 4 * RowCount(TopY(pts), BottomY(pts))
    ensures AreaOutcome(failing, k, pts, z) == Completed
  {
    var b := Run(failing, k, BoundaryLines(pts), z);
    assert b == Strokes(BoundaryLines(pts), z) by {
      RunWithoutFailure(failing, k, BoundaryLines(pts), z);
    }
    var f := Run(failing, k + |b| + 1, FillLines(pts), z);
    assert f == Strokes(FillLines(pts), z) by {
      RunWithoutFailure(failing, k + |b| + 1, FillLines(pts), z);
    }
    assert SinkAndFillTrace(failing, k + |b|, pts, z) == [Sink(pts)] + f;
    assert AreaTrace(failing, k, pts, z) == b + ([Sink(pts)] + f);
    AppendAssoc(b, [Sink(pts)], f);
  }

  /** When the sink move fails, draw_area stops after it and raises. */
  lemma AreaSinkFailure(failing: set<nat>, k: nat, pts: seq<Point>, z: real)
    requires pts != []
    requires (k + |Run(failing, k, BoundaryLines(pts), z)| in failing)
    ensures AreaTrace(failing, k, pts, z) == Run(failing, k, BoundaryLines(pts), z) + [Sink(pts)]
    ensures AreaOutcome(failing, k, pts, z) == Raised(MoveFailed)
  {
    var b := Run(failing, k, BoundaryLines(pts), z);
    assert SinkAndFillTrace(failing, k + |b|, pts, z) == [Sink(pts)];
  }

  /** A 20 by 20 square gets ten fill rows from x = 20 back to x = 0, at y = 20, 18, ..., 2. */
  lemma SquareExample()
    ensures TopY([Point(0.0, 0.0), Point(0.0, 20.0), Point(20.0, 20.0), Point(20.0, 0.0)]) == 20.0
    ensures BottomY([Point(0.0, 0.0), Point(0.0, 20.0), Point(20.0, 20.0), Point(20.0, 0.0)]) == 0.0
    ensures FarthestX([Point(0.0, 0.0), Point(0.0, 20.0), Point(20.0, 20.0), Point(20.0, 0.0)]) == 20.0
    ensures |FillLines([Point(0.0, 0.0), Point(0.0, 20.0), Point(20.0, 20.0), Point(20.0, 0.0)])| == 10
  {
    var pts := [Point(0.0, 0.0), Point(0.0, 20.0), Point(20.0, 20.0), Point(20.0, 0.0)];
    assert pts[2].y == 20.0 && pts[0].y == 0.0;
    assert TopY(pts) == 20.0;
    assert BottomY(pts) == 0.0;
    assert pts[2].x == 20.0;
    assert RowCount(20.0, 0.0) == 10 by {
      assert (0.0 - 20.0) / RowStep == -10.0;
    }
  }

  // ---------------------------------------------------------------------
  // The arm and the controller
  // ---------------------------------------------------------------------

  /** The executor behind `bot`: every requested move is recorded; `failing` says which attempts raise. */
  class Arm {
    var trace: seq<Move>
    const failing: set<nat>

    constructor (failing: set<nat>)
      ensures trace == [] && this.failing == failing
    {
      trace := [];
      this.failing := failing;
    }

    /** move_to(x, y, z, r, wait=True): the move is attempted; `ok` is false when it raised. */
    method MoveTo(m: Move) returns (ok: bool)
      modifies this
      ensures trace == old(trace) + [m]
      ensures ok == (|old(trace)| !in failing)
    {
      ok := (|trace| !in failing);
      trace := trace + [m];
    }
  }

  /** DobotController with its arm already connected. */
  class Controller {
    const bot: Arm
    const cfg: Config

    constructor (bot: Arm, cfg: Config)
      ensures this.bot == bot && this.cfg == cfg
    {
      this.bot := bot;
      this.cfg := cfg;
    }

    /** draw_line: the four moves of the stroke, stopping silently after one that fails. */
    method DrawLine(l: Line)
      modifies bot
      ensures bot.trace == old(bot.trace) + Attempted(bot.failing, |old(bot.trace)|, Stroke(l, cfg.zHeight))
    {
      StrokeAttempts(bot.failing, |bot.trace|, l, cfg.zHeight);
      var ok := bot.MoveTo(Move(l.from.x, l.from.y, 0.0, 0.0));
      if !ok {
        return;
      }
      ok := bot.MoveTo(Move(l.from.x, l.from.y, cfg.zHeight, 0.0));
      if !ok {
        return;
      }
      ok := bot.MoveTo(Move(l.to.x, l.to.y, cfg.zHeight, 0.0));
      if !ok {
        return;
      }
      ok := bot.MoveTo(Move(l.to.x, l.to.y, 0.0, 0.0));
    }

    /** The loop shared by draw_dot_to_dot and draw_area: draw_line from each point to the next. */
    method DrawChain(pts: seq<Point>)
      modifies bot
      ensures bot.trace == old(bot.trace) + Run(bot.failing, |old(bot.trace)|, ChainLines(pts), cfg.zHeight)
    {
      ghost var k := |bot.trace|;
      ghost var failing := bot.failing;
      ghost var z := cfg.zHeight;
      ghost var start := bot.trace;
      ghost var lines := ChainLines(pts);
      var n := if |pts| > 0 then |pts| - 1 else 0;
      for x := 0 to n
        invariant bot.trace == start + Run(failing, k, lines[..x], z)
      {
        ghost var done := Run(failing, k, lines[..x], z);
        ghost var stroke := Attempted(failing, k + |done|, Stroke(Line(pts[x], pts[x + 1]), z));
        assert Run(failing, k, lines[..x + 1], z) == done + stroke by {
          ChainStep(failing, k, pts, x, z);
        }
        DrawLine(Line(pts[x], pts[x + 1]));
        assert bot.trace == start + (done + stroke) by {
          AppendAssoc(start, done, stroke);
        }
      }
      assert lines[..n] == lines;
    }

    /** draw_dot_to_dot: a stroke from each calculated point to the next. */
    method DrawDotToDot(points: seq<Point>)
      modifies bot
      ensures bot.trace == old(bot.trace) + Run(bot.failing, |old(bot.trace)|, ChainLines(Calculated(points, cfg)), cfg.zHeight)
    {
      var pts := CalculatePoints(points, cfg);
      DrawChain(pts);
    }

    /**
     * draw_area: the boundary strokes, the move to the first point at z = -20
     * (whose failure is not caught), then the fill rows from the top down.
     * An empty point list raises IndexError before any move.
     */
    method DrawArea(points: seq<Point>) returns (outcome: Outcome)
      modifies bot
      ensures bot.trace == old(bot.trace) + AreaTrace(bot.failing, |old(bot.trace)|, Calculated(points, cfg), cfg.zHeight)
      ensures outcome == AreaOutcome(bot.failing, |old(bot.trace)|, Calculated(points, cfg), cfg.zHeight)
    {
      var pts := CalculatePoints(points, cfg);
      if |pts| == 0 {
        return Raised(IndexError);
      }
      outcome := DrawCalculatedArea(pts);
    }

    /** draw_area once the points are calculated and known not to be empty. */
    method DrawCalculatedArea(pts: seq<Point>) returns (outcome: Outcome)
      requires pts != []
      modifies bot
      ensures bot.trace == old(bot.trace) + AreaTrace(bot.failing, |old(bot.trace)|, pts, cfg.zHeight)
      ensures outcome == AreaOutcome(bot.failing, |old(bot.trace)|, pts, cfg.zHeight)
    {
      ghost var start := bot.trace;
      ghost var k := |start|;
      ghost var failing := bot.failing;
      ghost var z := cfg.zHeight;
      DrawBoundary(pts);
      ghost var boundary := Run(failing, k, BoundaryLines(pts), z);
      outcome := SinkAndFill(pts);
      AppendAssoc(start, boundary, SinkAndFillTrace(failing, k + |boundary|, pts, z));
    }

    /** The rest of draw_area: the move to the first point at z = -20, whose failure is not caught, then the fill. */
    method SinkAndFill(pts: seq<Point>) returns (outcome: Outcome)
      requires pts != []
      modifies bot
      ensures bot.trace == old(bot.trace) + SinkAndFillTrace(bot.failing, |old(bot.trace)|, pts, cfg.zHeight)
      ensures outcome == if (|old(bot.trace)| in bot.failing) then Raised(MoveFailed) else Completed
    {
      ghost var start := bot.trace;
      var ok := bot.MoveTo(Move(pts[0].x, pts[0].y, SinkZ, 0.0));
      if !ok {
        return Raised(MoveFailed);
      }
      outcome := Fill(pts);
      AppendAssoc(start, [Sink(pts)], Run(bot.failing, |start| + 1, FillLines(pts), cfg.zHeight));
    }

    /** The boundary of draw_area: the chain through the points, then the line from the last back to the first. */
    method DrawBoundary(pts: seq<Point>)
      requires pts != []
      modifies bot
      ensures bot.trace == old(bot.trace) + Run(bot.failing, |old(bot.trace)|, BoundaryLines(pts), cfg.zHeight)
    {
      ghost var start := bot.trace;
      ghost var k := |start|;
      ghost var failing := bot.failing;
      ghost var z := cfg.zHeight;
      DrawChain(pts);
      ghost var chain := Run(failing, k, ChainLines(pts), z);
      var closing := Line(pts[|pts| - 1], pts[0]);
      DrawLine(closing);
      ghost var last := Attempted(failing, k + |chain|, Stroke(closing, z));
      assert bot.trace == start + chain + last;
      assert start + chain + last == start + (chain + last) by {
        AppendAssoc(start, chain, last);
      }
      RunBoundary(failing, k, pts, z);
    }

    /** The fill loop of draw_area: rows from top_y down while above the lowest y. */
    method Fill(pts: seq<Point>) returns (outcome: Outcome)
      requires pts != []
      modifies bot
      ensures bot.trace == old(bot.trace) + Run(bot.failing, |old(bot.trace)|, FillLines(pts), cfg.zHeight)
      ensures outcome == Completed
    {
      ghost var k := |bot.trace|;
      ghost var failing := bot.failing;
      ghost var z := cfg.zHeight;
      ghost var start := bot.trace;
      ghost var rows := FillLines(pts);
      var topY := TopY(pts);
      var bottomY := BottomY(pts);
      var farthestX := FarthestX(pts);
      var currentY := topY;
      ghost var row: nat := 0;
      while currentY > bottomY
        invariant row <= |rows|
        invariant currentY == topY - RowStep * (row as real)
        invariant bot.trace == start + Run(failing, k, rows[..row], z)
        decreases |rows| - row
      {
        RowCountExact(topY, bottomY, row);
        ghost var done := Run(failing, k, rows[..row], z);
        assert Line(Point(farthestX, currentY), Point(pts[0].x, currentY)) == FillRow(pts, row);
        DrawLine(Line(Point(farthestX, currentY), Point(pts[0].x, currentY)));
        assert bot.trace == start + Run(failing, k, rows[..row + 1], z) by {
          FillStep(failing, k, pts, row, z);
          AppendAssoc(start, done, Attempted(failing, k + |done|, Stroke(FillRow(pts, row), z)));
        }
        currentY := currentY - RowStep;
        row := row + 1;
      }
      RowCountExact(topY, bottomY, row);
      assert rows[..row] == rows;
      outcome := Completed;
    }
  }
}
