# AutoPainter planning core in Dafny

AutoPainter photographs a dot-to-dot puzzle or a set of shapes and has a
Dobot plotting arm draw them. This project models the deterministic part
of that pipeline and proves properties of it:

- **Numbers and dots** (`object_detection/detect_numbers.py`). Crop files
  are ordered by the number in their names. Detections are split by class
  into numbers and dots. Every number is paired with every dot whose
  corner lies closer than 100 pixels. Each dot's box centre is mapped into
  percentage coordinates. The OCR text of a number is cleaned to its
  digits, unlabelled entries are dropped, and the rest are stably sorted
  by label. Module `DetectNumbers` in `Numbers.dfy`. The stable sort is
  module `Sorting` in `Sorting.dfy`.
- **Motion planning** (`dobot/dobot_controller.py`). Points are mapped
  into the arm's workspace. A line is drawn as a four-move stroke, and a
  dot-to-dot picture as a chain of strokes. An area is coloured by its
  closed boundary, one move down to z = -20, and horizontal fill rows
  2 units apart. Module `DobotControl` in `Dobot.dfy`. The arm is the
  class `Arm`: it records every move it is asked to make, and a fixed set
  of attempt numbers says which moves fail. `Controller` is the
  `DobotController` class; its methods are proved to leave exactly the
  trace that the specification functions `Attempted`, `Run` and
  `AreaTrace` describe.
- **Polygon conversion** (`object_segmentation/detect_polygons.py`).
  Segmentation polygons are converted to percentage coordinates. Scalar
  entries are skipped, and a vertex is kept only when it moved more than
  0.1 from the vertex converted just before it. Module `DetectPolygons` in
  `Polygons.dfy`.

`Common.dfy` holds `Option`, `Result`, `LastOf` with its lemma
`LastOfConcat`, and a sequence associativity step.

The application constants become parameters. These are the webcam
resolution (`Resolution`), the workspace offsets and pen height
(`Config`), and Python's `round(v, 2)` (a function `round2` passed in).
The OCR engine becomes a function `ocr` from a crop name to the text read
from that crop. The files in a directory become a sequence of names given
as input.

Two behaviours of the code are worth stating up front, and the model
keeps both. The distance between a number and a dot is measured between
the boxes' `(x_min, y_min)` corners, not their centres
(detect_numbers.py:71-72). The normalised coordinates are not clipped to
[0, 100]. Before rounding, a centre right of the central square lies above
100 (`RightStripAboveRange`). Rounding to two decimals can bring a centre
just past the border back to exactly 100, but far enough right the result
stays above 100: a centre at x = 1900 in a 1920x1080 frame converts above
137 (`RightStripLeavesRange`). Polygon coordinates are not clipped either.
Before rounding, a vertex with x above 882 + 2268 = 3150 lies above 100
(`FarRightAboveRange`), and a vertex at x = 4000 converts above 137
whatever the rounding (`FarRightLeavesRange`).

## Model

| member | source | states |
|---|---|---|
| Sorting.SortByKey | object_detection/detect_numbers.py:59 | definition: insertion sort by an integer key, each element inserted before the first element of the sorted rest whose key is not smaller; shared by the file sort and the label sort at detect_numbers.py:239 |
| Sorting.SortByKeyIsStableSort | object_detection/detect_numbers.py:59 | the insertion sort is ascending by key, a permutation of its input, and keeps equal keys in input order, as Python's stable `list.sort(key=...)` |
| Sorting.StableSortIsUnique | object_detection/detect_numbers.py:239 | any ascending, order-keeping permutation equals `SortByKey`, so the stable sort of `sorted(..., key=...)` is fully determined |
| Sorting.SortedAgreeingAreEqual | object_detection/detect_numbers.py:239 | two ascending sequences that agree on the order within every key class are equal |
| Sorting.InsertPermutes | object_detection/detect_numbers.py:59 | inserting an element yields a permutation of the element plus the sequence |
| Sorting.InsertSorted | object_detection/detect_numbers.py:59 | inserting into an ascending sequence keeps it ascending |
| Sorting.InsertKeepsKeyOrder | object_detection/detect_numbers.py:59 | insertion puts the new element before every element of its own key, which is what keeps the sort stable |
| Sorting.NoSmallerKey | object_detection/detect_numbers.py:59 | an ascending sequence whose head key exceeds k holds no element of key k |
| DetectNumbers.Before | object_detection/detect_numbers.py:59 | definition: the piece of `str.split` before the first occurrence of the pattern, the whole text when it does not occur |
| DetectNumbers.After | object_detection/detect_numbers.py:59 | definition: the text after the first occurrence of the pattern, where `split(...)[1]` starts; None where `[1]` raises IndexError |
| DetectNumbers.ParseInt | object_detection/detect_numbers.py:59 | definition: `int()` of a text: an optional sign and at least one ASCII digit, None where `int()` raises ValueError; also used for the label at detect_numbers.py:219 |
| DetectNumbers.Find | object_detection/detect_numbers.py:59 | the index returned is an occurrence of the pattern and no earlier index is one; None means there is no occurrence at all (the split points of `str.split`) |
| DetectNumbers.DecimalRoundTrip | object_detection/detect_numbers.py:59 | the decimal text of n is a non-empty digit string whose value is n |
| DetectNumbers.ParseIntOfDecimal | object_detection/detect_numbers.py:59 | `int()` of the decimal text of n gives n |
| DetectNumbers.FindAbsent | object_detection/detect_numbers.py:59 | a text without the pattern's first character has no occurrence of the pattern |
| DetectNumbers.FindAfterDigits | object_detection/detect_numbers.py:59 | in digits followed by the pattern, the first occurrence sits right after the digits |
| DetectNumbers.FileNumber | object_detection/detect_numbers.py:59 | definition: the sort key `int(x.split('image')[1].split('.jpg')[0])`, IndexError when "image" does not occur and ValueError when the cut text is not an integer |
| DetectNumbers.FileNumberOfCropName | object_detection/detect_numbers.py:59 | the sort key of the crop name `image<n>.jpg` is n |
| DetectNumbers.FileNumberIndexError | object_detection/detect_numbers.py:59 | a name raises IndexError if and only if "image" does not occur in it |
| DetectNumbers.FileNumberValueError | object_detection/detect_numbers.py:59 | every name "image" followed by text without a digit raises ValueError |
| DetectNumbers.FileNumberErrors | object_detection/detect_numbers.py:59 | examples, one per error path: "dot.jpg" raises IndexError and "image.jpg" raises ValueError |
| DetectNumbers.JpgFiles | object_detection/detect_numbers.py:56-58 | a name is kept iff it is listed and ends in ".jpg" |
| DetectNumbers.ListJpgFiles | object_detection/detect_numbers.py:55-58 | the filter loop collects exactly the ".jpg" names in listing order |
| DetectNumbers.FirstKeyError | object_detection/detect_numbers.py:59 | reports None iff every key parses, and otherwise the error of the first name, in list order, whose key fails |
| DetectNumbers.SortedFiles | object_detection/detect_numbers.py:59 | for any list of names whose keys all parse, sorting by key gives a stable sort of that list and holds only its names |
| DetectNumbers.SortFilesByNumber | object_detection/detect_numbers.py:48-60 | fails iff some ".jpg" name has no integer key, with the first such name's error; otherwise returns only ".jpg" names, stably sorted by key |
| DetectNumbers.SquaredDistance | object_detection/detect_numbers.py:63-73 | the squared corner distance is non-negative and zero for coinciding corners |
| DetectNumbers.DistanceSymmetric | object_detection/detect_numbers.py:71-73 | distance and nearness are symmetric in the two detections |
| DetectNumbers.ThresholdIsStrict | object_detection/detect_numbers.py:137 | corners exactly 100 apart are not paired; 99 apart they are |
| DetectNumbers.Near | object_detection/detect_numbers.py:137 | definition: the corner distance is below 100, compared on squares |
| DetectNumbers.NearDots | object_detection/detect_numbers.py:136-138 | definition: the pairs of one number with each near dot, in dot order |
| DetectNumbers.Pairs | object_detection/detect_numbers.py:133-138 | definition: the near pairs of each number in turn, number-major |
| DetectNumbers.GroupByDistance | object_detection/detect_numbers.py:133-138 | the nested loop produces exactly `Pairs(numbers, dots)` |
| DetectNumbers.NearDotsMembership | object_detection/detect_numbers.py:136-138 | a pair is produced for a number iff it holds that number and a dot of the list, and the two are near |
| DetectNumbers.PairsMembership | object_detection/detect_numbers.py:135-138 | a (number, dot) pair is in the grouping iff both are listed and their distance is below 100 |
| DetectNumbers.NearDotsLength | object_detection/detect_numbers.py:136-138 | one number yields at most one pair per dot |
| DetectNumbers.PairsLength | object_detection/detect_numbers.py:135-138 | the grouping has at most numbers times dots pairs |
| DetectNumbers.PairsNumberMajor | object_detection/detect_numbers.py:135-138 | the pairs of earlier numbers all precede those of later numbers |
| DetectNumbers.NearDotsDotOrder | object_detection/detect_numbers.py:136-138 | for one number, pairs follow the order of the dots |
| DetectNumbers.BoxesOfClass | object_detection/detect_numbers.py:109-115 | the boxes of one class never outnumber the detections |
| DetectNumbers.BoxesOfClassMembership | object_detection/detect_numbers.py:109-115 | a box is among the boxes of class c iff some detection of class c has it |
| DetectNumbers.ClassesPartition | object_detection/detect_numbers.py:110-115 | numbers plus dots never exceed the detections, and equal them iff every class id is 0 or 1 |
| DetectNumbers.BoxesOfClassPrefix | object_detection/detect_numbers.py:109-115 | a prefix of the detections has no more boxes of a class than the whole |
| DetectNumbers.SplitByClass | object_detection/detect_numbers.py:103-115 | raises IndexError iff a class has more boxes than crop names; otherwise the k-th number (dot) has the k-th class-1 (class-0) box and the k-th Number (Dot) crop name |
| DetectNumbers.PercentX | object_detection/detect_numbers.py:184-188 | definition: a centre x beyond (W - H) / 2 loses (W - H) / 2, then is divided by H and scaled by 100 |
| DetectNumbers.PercentY | object_detection/detect_numbers.py:189 | definition: a centre y divided by H and scaled by 100 |
| DetectNumbers.Normalize | object_detection/detect_numbers.py:181-189 | definition: the box centre through PercentX and PercentY, each rounded by `round2` |
| DetectNumbers.NormalizeInRange | object_detection/detect_numbers.py:181-189 | a centre inside the folded frame maps into [0, 100] on both axes |
| DetectNumbers.RightStripAboveRange | object_detection/detect_numbers.py:186-188 | before rounding, every centre with x > (W + H) / 2 lies above 100, for any positive height |
| DetectNumbers.RightStripLeavesRange | object_detection/detect_numbers.py:184-188 | a dot near the right edge of a 1920x1080 frame maps above 137 percent |
| DetectNumbers.LeftStripFolds | object_detection/detect_numbers.py:186-188 | a centre in the left strip and the centre (W-H)/2 to its right map to the same percentage |
| DetectNumbers.DenormalizeInverts | object_detection/detect_numbers.py:181-189 | without rounding, scaling back recovers the shifted centre's pixel coordinates |
| DetectNumbers.DenormalizeRoundTrip | object_detection/detect_numbers.py:181-189 | for every point with x > 0 and a positive height, normalising the box at its denormalised pixel gives back the point rounded on both axes |
| DetectNumbers.LeftEdgeDoesNotRoundTrip | object_detection/detect_numbers.py:181-189 | example of where the round trip stops: x = 0 denormalises to the pixel at exactly (W - H) / 2, which is not shifted, so a 1920x1080 frame reads it back as above 38 rather than 0 |
| DetectNumbers.ConvertCoordinates | object_detection/detect_numbers.py:169-193 | one marker per entry, in order, with the label passed through and the dot's box centre normalised |
| DetectNumbers.CleanDigits | object_detection/detect_numbers.py:216 | the cleaned text consists of digits only and is no longer than the OCR text |
| DetectNumbers.CleanDigitsAppend | object_detection/detect_numbers.py:216 | cleaning distributes over concatenation, so the digits keep their order |
| DetectNumbers.CleanDigitsKeepsDigits | object_detection/detect_numbers.py:216 | every digit occurs as often in the cleaned text as in the OCR text |
| DetectNumbers.CleanDigitsOfDigits | object_detection/detect_numbers.py:216 | a digit string is left unchanged |
| DetectNumbers.NoDigitsCleanEmpty | object_detection/detect_numbers.py:216 | the cleaned text is empty iff the OCR text has no digit |
| DetectNumbers.Label | object_detection/detect_numbers.py:216-221 | definition: `int` of the text's digits, None where it raises ValueError |
| DetectNumbers.LabelNoneIffNoDigit | object_detection/detect_numbers.py:216-221 | the label is None iff the OCR text has no digit, and otherwise is the non-negative value of its digits |
| DetectNumbers.LabelIgnoresNoise | object_detection/detect_numbers.py:215-221 | the decimal text of n surrounded by non-digit noise is labelled n |
| DetectNumbers.Labelled | object_detection/detect_numbers.py:233 | filtering never lengthens the list |
| DetectNumbers.LabelledMembership | object_detection/detect_numbers.py:233 | a marker survives the filter iff it was converted and has a label |
| DetectNumbers.Recognized | object_detection/detect_numbers.py:209-225 | definition: per pair, in order, the label of the number's OCR text and the dot's normalised centre |
| DetectNumbers.LabelAndConvert | object_detection/detect_numbers.py:206-225 | the loop that re-converts the growing detection list leaves exactly one converted marker per pair, in order |
| DetectNumbers.NoneLabelled | object_detection/detect_numbers.py:233-235 | nothing survives the filter iff no OCR text yields a label |
| DetectNumbers.RecognizeNumbers | object_detection/detect_numbers.py:196-240 | None iff no entry has a label; otherwise every marker has a label, and the result is the stable sort by label of the labelled markers |
| DetectNumbers.OrderingExample | object_detection/detect_numbers.py:233-240 | labels 3, 1, None, 2, 1 come out as 1, 1, 2, 3, with the two 1s in input order |
| DetectNumbers.LabelledExample | object_detection/detect_numbers.py:233 | the filter drops exactly the unlabelled marker and keeps the others in order |
| DetectNumbers.SortExample | object_detection/detect_numbers.py:239 | sorting by label is ascending and keeps equal labels in input order |
| DobotControl.ToWorkspace | dobot/dobot_controller.py:18 | definition: the point (x, y) becomes (y + offset x, x - offset y) |
| DobotControl.Calculated | dobot/dobot_controller.py:15-20 | definition: ToWorkspace of every point, in order |
| DobotControl.WorkspaceRoundTrip | dobot/dobot_controller.py:18 | the axis swap with offsets is inverted by `FromWorkspace`, in both directions |
| DobotControl.WorkspaceExample | dobot/dobot_controller.py:18 | with offsets 194 and 50, (10, 20) maps to (214, -40) |
| DobotControl.CalculatePoints | dobot/dobot_controller.py:6-20 | same length and order, each point mapped to (y + offset x, x - offset y) |
| DobotControl.Stroke | dobot/dobot_controller.py:65-68 | definition: the four moves of a line: above the start at z 0, down to the pen height, across at the pen height, up at z 0 |
| DobotControl.Attempted | dobot/dobot_controller.py:62-71 | a stroke never attempts more moves than it plans, and always attempts its first move |
| DobotControl.AttemptedIsFailurePrefix | dobot/dobot_controller.py:62-71 | the attempted moves are a prefix of the plan; none but possibly the last failed; a cut-short prefix ends in the failing move; with no failure the whole plan is attempted |
| DobotControl.StrokeAttempts | dobot/dobot_controller.py:65-71 | a stroke stops right after its first failing move, at 1, 2, 3 or 4 moves |
| DobotControl.Run | dobot/dobot_controller.py:80-82 | a run of strokes makes at least one and at most four moves per line |
| DobotControl.Strokes | dobot/dobot_controller.py:65-68 | failure-free strokes make exactly four moves per line |
| DobotControl.RunAppend | dobot/dobot_controller.py:80-82 | one more line adds that line's stroke, numbered after the moves already made |
| DobotControl.RunWithoutFailure | dobot/dobot_controller.py:65-68 | with no failing move the run is the full four-move stroke of every line, in order |
| DobotControl.StrokeAt | dobot/dobot_controller.py:65-68 | moves 4i to 4i+3 of failure-free strokes are the stroke of line i |
| DobotControl.RunStartsEveryStroke | dobot/dobot_controller.py:62-71 | a failure inside one stroke does not stop the run: the run begins with its first line's lift-off move and ends with the last line's attempted moves |
| DobotControl.PartialFailureExample | dobot/dobot_controller.py:62-82 | when move 6 fails, the second of three strokes stops after three moves and the third is still drawn in full |
| DobotControl.ChainLines | dobot/dobot_controller.py:80-82 | n points give max(n-1, 0) lines |
| DobotControl.ChainLinesAt | dobot/dobot_controller.py:80-82 | line i runs from point i to point i+1 |
| DobotControl.BoundaryLines | dobot/dobot_controller.py:92-99 | n >= 1 points give n boundary lines |
| DobotControl.BoundaryLinesAt | dobot/dobot_controller.py:92-99 | the boundary is the consecutive pairs followed by the closing line from the last point to the first |
| DobotControl.TopY | dobot/dobot_controller.py:102 | definition: the largest y of the points, by recursion over the list |
| DobotControl.BottomY | dobot/dobot_controller.py:108 | definition: the smallest y of the points, by recursion over the list |
| DobotControl.FarthestX | dobot/dobot_controller.py:104 | definition: the largest x among the points whose y is TopY |
| DobotControl.TopYIsMax | dobot/dobot_controller.py:102 | `top_y` is the y of some point and no point is higher |
| DobotControl.BottomYIsMin | dobot/dobot_controller.py:108 | the loop bound is the y of some point and no point is lower |
| DobotControl.MaxXOnRow | dobot/dobot_controller.py:104 | definition: the generator `max` over the x of the points whose y equals the row's, None where the generator is empty |
| DobotControl.MaxXOnRowIsMax | dobot/dobot_controller.py:104 | None iff no point lies on the row; otherwise the largest x among the points on it |
| DobotControl.FarthestXIsMax | dobot/dobot_controller.py:102-104 | `farthest_x` is the largest x among the points at `top_y`, and such a point exists |
| DobotControl.RowCount | dobot/dobot_controller.py:107-110 | definition: the number of turns of the fill loop, ceil((top - bottom) / 2) when top is above bottom and 0 otherwise |
| DobotControl.RowCountExact | dobot/dobot_controller.py:107-110 | row k is drawn iff top - 2k is above the bottom |
| DobotControl.FillRow | dobot/dobot_controller.py:107-110 | definition: row k runs at y = top - 2k from farthest_x to the first point's x |
| DobotControl.Sink | dobot/dobot_controller.py:100 | definition: the move to the first point at z = -20 |
| DobotControl.FillLines | dobot/dobot_controller.py:107-110 | definition: fill row k for each turn of the while loop, `RowCount(top, bottom)` of them; what each row is, is stated by `FillRowsExact` |
| DobotControl.FillRowsExact | dobot/dobot_controller.py:107-110 | row k exists iff top - 2k > bottom, and it runs from (farthest_x, top - 2k) to (first point's x, top - 2k) |
| DobotControl.FlatAreaHasNoFill | dobot/dobot_controller.py:108 | an area whose points all have the same y gets no fill row |
| DobotControl.SinkAndFillTrace | dobot/dobot_controller.py:100-110 | definition: the sink move, then the run of the fill rows unless the sink move failed |
| DobotControl.AreaTrace | dobot/dobot_controller.py:90-110 | definition: no move for no points; otherwise the run of the boundary lines, then SinkAndFillTrace numbered after them |
| DobotControl.AreaOutcome | dobot/dobot_controller.py:84-110 | definition: IndexError for no points, MoveFailed when the sink move fails, otherwise completed |
| DobotControl.AreaWithoutFailure | dobot/dobot_controller.py:84-110 | with no failing move, the area draws its full boundary strokes, the sink move and the full fill strokes: 4n + 1 + 4 * rows moves, and completes |
| DobotControl.AreaSinkFailure | dobot/dobot_controller.py:99-100 | when the sink move fails, the trace ends with it, no fill row is drawn, and MoveFailed escapes |
| DobotControl.SquareExample | dobot/dobot_controller.py:102-110 | a 20-by-20 square has top 20, bottom 0, farthest x 20 and 10 fill rows |
| DobotControl.Arm.MoveTo | dobot/dobot_controller.py:65 | the move is recorded, and it fails iff its attempt number is in the failing set |
| DobotControl.Controller.DrawLine | dobot/dobot_controller.py:51-71 | the trace grows by the attempted moves of the stroke, stopping silently after a failing one |
| DobotControl.Controller.DrawChain | dobot/dobot_controller.py:80-82 | the trace grows by the run of the strokes between consecutive points |
| DobotControl.Controller.DrawDotToDot | dobot/dobot_controller.py:73-82 | the trace grows by the run of the chain through the workspace points |
| DobotControl.Controller.DrawArea | dobot/dobot_controller.py:84-110 | the trace grows by `AreaTrace` of the workspace points, and the outcome is `AreaOutcome`: IndexError with no points, MoveFailed from the sink move, otherwise completed |
| DobotControl.Controller.DrawCalculatedArea | dobot/dobot_controller.py:92-110 | on a non-empty point list: the boundary run, then the sink move and, if it succeeds, the fill run |
| DobotControl.Controller.SinkAndFill | dobot/dobot_controller.py:100-110 | the sink move, then the fill rows unless it failed; MoveFailed exactly when it failed |
| DobotControl.Controller.DrawBoundary | dobot/dobot_controller.py:92-99 | the trace grows by the run of the closed boundary's strokes |
| DobotControl.Controller.Fill | dobot/dobot_controller.py:102-110 | the sweeping loop draws exactly the fill rows, in order, and completes |
| DetectPolygons.ConvertVertex | object_segmentation/detect_polygons.py:59-66 | definition: the shifted x and the y, each divided by 2268, scaled by 100 and rounded by `round2` |
| DetectPolygons.Folded | object_segmentation/detect_polygons.py:62-63 | the shifted x is never right of x, stays positive for a positive x, and an x in [0, 3150] lands in [0, 2268] |
| DetectPolygons.ConvertVertexInRange | object_segmentation/detect_polygons.py:62-66 | a vertex with x in [0, 3150] and y in [0, 2268] lands in [0, 100] on both axes |
| DetectPolygons.FarRightAboveRange | object_segmentation/detect_polygons.py:62-65 | before rounding, every vertex with x > 3150 lies above 100 |
| DetectPolygons.FarRightLeavesRange | object_segmentation/detect_polygons.py:62-65 | example: a vertex at x = 4000 converts above 137 whatever the rounding, so polygon x is not clipped to [0, 100] |
| DetectPolygons.StripsCoincide | object_segmentation/detect_polygons.py:62-66 | x and x + 882 convert alike for 0 < x <= 882; x = 882 is not shifted |
| DetectPolygons.ConvertVertexInverts | object_segmentation/detect_polygons.py:62-66 | without rounding, scaling back gives the folded x and the unchanged y |
| DetectPolygons.Vertices | object_segmentation/detect_polygons.py:55-66 | definition: the converted vertices of one polygon in order, scalars skipped |
| DetectPolygons.GroupVertices | object_segmentation/detect_polygons.py:54-66 | definition: the vertices of a group's polygons one after the other |
| DetectPolygons.VerticesAppend | object_segmentation/detect_polygons.py:55-66 | conversion of a polygon is piecewise, so vertex order is kept |
| DetectPolygons.VerticesMembership | object_segmentation/detect_polygons.py:55-66 | a converted coordinate belongs to a polygon iff it is the conversion of one of its vertex entries |
| DetectPolygons.ScalarsOnly | object_segmentation/detect_polygons.py:56-57 | a polygon of scalar entries only converts to nothing |
| DetectPolygons.GroupVerticesMembership | object_segmentation/detect_polygons.py:54-66 | every converted coordinate of a group comes from a vertex entry of one of its polygons |
| DetectPolygons.Far | object_segmentation/detect_polygons.py:69-72 | definition: the move exceeds 0.1 on at least one axis |
| DetectPolygons.Emitted | object_segmentation/detect_polygons.py:68-75 | definition: each vertex after the first that is Far from the vertex just before it |
| DetectPolygons.EmittedLength | object_segmentation/detect_polygons.py:68-75 | a group keeps at most one vertex fewer than it converts |
| DetectPolygons.EmittedMembership | object_segmentation/detect_polygons.py:68-75 | a coordinate is kept iff it occurs after the first position and differs by more than 0.1 on some axis from the coordinate just before it |
| DetectPolygons.AllFarKeepsTail | object_segmentation/detect_polygons.py:68-75 | when every step is larger than 0.1, everything but the first vertex is kept, in order |
| DetectPolygons.EmittedConcat | object_segmentation/detect_polygons.py:52-75 | across a polygon boundary the comparison continues: the second part's first vertex is compared with the first part's last |
| DetectPolygons.SlowDriftDropsAll | object_segmentation/detect_polygons.py:68-75 | steps of 0.05 are all dropped although the drift adds up to 0.15, since the comparison is with the previous converted vertex, not the last kept one |
| DetectPolygons.ConvertedData | object_segmentation/detect_polygons.py:48-79 | definition: per group, in order, `Emitted` of the group's converted vertices; its bounds and contents are stated by `ConvertedDataBounds` and `EmittedMembership` |
| DetectPolygons.ConvertedDataBounds | object_segmentation/detect_polygons.py:48-79 | each group's list is empty or shorter than its converted vertices, and holds only conversions of that group's vertex entries |
| DetectPolygons.SeamVertexKept | object_segmentation/detect_polygons.py:52-75 | example: two one-vertex polygons in one group keep the second vertex, because the point of comparison crosses the polygon boundary |
| DetectPolygons.SeparateGroupsDropAll | object_segmentation/detect_polygons.py:50-52 | the same polygons as two groups keep nothing: each group's first vertex is dropped |
| DetectPolygons.ConvertCoordinatesPoly | object_segmentation/detect_polygons.py:41-79 | the nested loops produce exactly `ConvertedData` |
| DetectPolygons.ConvertGroup | object_segmentation/detect_polygons.py:50-77 | one group, with no previous point at its start, gives the kept vertices of its converted vertices |
| DetectPolygons.ConvertPolygon | object_segmentation/detect_polygons.py:54-75 | carrying on from the vertices converted before it, a polygon extends the kept list and the previous point as the whole run prescribes |
| DetectPolygons.ConvertPoint | object_segmentation/detect_polygons.py:55-75 | a scalar changes nothing; a vertex is kept iff far from the previous point, and it becomes the previous point |

## Left out

- I/O around the core is not modelled: `load_model` and YOLO inference, `delete_folder_contents`, `os.listdir`, `cv2` image reading, resizing, thresholding, annotation and windows, the pytesseract call, and `segment_instances`. The detections, the listed file names and the OCR text are inputs.
- `print` calls are output only and are not modelled.
- app.py (the GUI) and object_detection/capture_webcam.py are not part of this model.
- `DobotController.__init__`, `init_bot`, the logger and `is_connected` are serial-port set-up and are not modelled. The arm is an `Arm` with a fixed set of failing attempt numbers.
- DobotControl.Arm.MoveTo: failure depends on the attempt number only. Any pattern of failures in one run is such a set, but a cause that depends on timing is not modelled.
- DobotControl.Arm.MoveTo: a failure is a recorded move that reports failure. The exception's type and message are not modelled.
- `nearest_x` (dobot_controller.py:105) is never used and is not computed. It cannot fail once `farthest_x` exists.
- Python's `round(v, 2)` is the parameter `round2`. Only what a lemma requires of it is assumed.
- Binary floating point is not modelled: coordinates are reals, so the fill loop's repeated `current_y -= 2` is exact.
- `sqrt` is not modelled: nearness compares the squared distance with 100 * 100, which decides the same pairs.
- DetectNumbers.ParseInt: accepts an optional sign and ASCII digits only. Python's `int()` also accepts surrounding whitespace, underscores between digits and non-ASCII decimal digits.
- DetectNumbers.CleanDigits: keeps ASCII digits only. Python's `str.isdigit` also keeps other Unicode digits.
- DetectNumbers.ConvertCoordinates: requires a non-zero camera height. With height 0 the source raises ZeroDivisionError on the first entry; that path is not modelled.
- DetectNumbers.LabelAndConvert: requires a non-zero camera height, for the same reason.
- DetectNumbers.RecognizeNumbers: requires a non-zero camera height, for the same reason.
- DetectNumbers.NormalizeInRange: proved only for frames at most three times as wide as high and centres inside the folded frame. Outside these, the source can give coordinates beyond 100 (`RightStripAboveRange`, `RightStripLeavesRange`).
- DetectPolygons.Entry: a vertex is a pair of reals. Entries of other numpy types, or arrays of other lengths, are not modelled; the source would index or reject them differently.
