/**
 * The planning half of object_detection/detect_numbers.py: splitting the
 * detector's boxes into numbers and dots, pairing numbers with nearby dots,
 * normalising dot centres to percentage space, cleaning the recognised text
 * of each number and ordering the labelled dots by their number.
 *
 * The detector, the crop files on disk and the character recognizer are
 * outside the model: their results come in as parameters (the raw
 * detections, the crop file names, and `ocr`, the text recognised in the
 * crop with a given file name).
 */
module DetectNumbers {
  import opened Common
  import opened Sorting

  /** A bounding box in pixels, as (x_min, y_min, x_max, y_max). */
  datatype Box = Box(xMin: real, yMin: real, xMax: real, yMax: real)

  datatype Kind = Number | Dot

  /** A classified detection: its kind ('number' or 'dot'), its box and the file name of its crop. */
  datatype Detection = Detection(kind: Kind, box: Box, crop: string)

  /** One entry of the detector's output: class id (1 is a number, 0 a dot) and box. */
  datatype RawDetection = RawDetection(classId: int, box: Box)

  /** The Python exceptions the modelled code can raise. */
  datatype Error = IndexError | ValueError

  // ---------------------------------------------------------------------
  // Strings
  // ---------------------------------------------------------------------

  predicate IsDigit(c: char) {
    '0' <= c <= '9'
  }

  predicate AllDigits(s: string) {
    forall i :: 0 <= i < |s| ==> IsDigit(s[i])
  }

  predicate EndsWith(s: string, suffix: string) {
    |suffix| <= |s| && s[|s| - |suffix|..] == suffix
  }

  /** `pat` occurs in `s` starting at index `i`. */
  predicate OccursAt(s: string, pat: string, i: int) {
    0 <= i && i + |pat| <= |s| && s[i..i + |pat|] == pat
  }

  /** The index of the first occurrence of `pat` in `s`, as `str.find` gives it. */
  function Find(s: string, pat: string): (r: Option<nat>)
    requires |pat| > 0
    ensures r.Some? ==> OccursAt(s, pat, r.value)
    ensures r.Some? ==> forall i :: 0 <= i < r.value ==> !OccursAt(s, pat, i)
    ensures r.None? ==> forall i :: !OccursAt(s, pat, i)
    decreases |s|
  {
    if |s| < |pat| then None
    else if s[..|pat|] == pat then Some(0)
    else
      var rest := Find(s[1..], pat);
      assert !OccursAt(s, pat, 0);
      if rest.None? then
        assert forall i :: !OccursAt(s, pat, i) by {
          forall i ensures !OccursAt(s, pat, i) {
            if i > 0 { OccursShift(s, pat, i - 1); }
          }
        }
        None
      else
        assert forall i :: 0 <= i < rest.value + 1 ==> !OccursAt(s, pat, i) by {
          forall i | 0 < i < rest.value + 1 ensures !OccursAt(s, pat, i) {
            OccursShift(s, pat, i - 1);
          }
        }
        OccursShift(s, pat, rest.value);
        Some(rest.value + 1)
  }

  lemma OccursShift(s: string, pat: string, i: nat)
    requires |s| > 0
    ensures OccursAt(s, pat, i + 1) <==> OccursAt(s[1..], pat, i)
  {
    if i + 1 + |pat| <= |s| {
      assert s[i + 1..i + 1 + |pat|] == s[1..][i..i + |pat|];
    }
  }

  /** `s.split(pat)[0]`: the text before the first occurrence of `pat`, or all of `s`. */
  function Before(s: string, pat: string): string
    requires |pat| > 0
  {
    match Find(s, pat)
    case None => s
    case Some(i) => s[..i]
  }

  /** The text after the first occurrence of `pat`; None when `pat` does not occur. */
  function After(s: string, pat: string): Option<string>
    requires |pat| > 0
  {
    match Find(s, pat)
    case None => None
    case Some(i) => Some(s[i + |pat|..])
  }

  /** The value of a string of decimal digits, most significant first. */
  function DecimalValue(ds: string): nat
    requires AllDigits(ds)
  {
    if ds == [] then 0
    else DecimalValue(ds[..|ds| - 1]) * 10 + (ds[|ds| - 1] as int - '0' as int)
  }

  /** The decimal digits of `n` without leading zeros. */
  function ToDecimal(n: nat): string {
    (if n < 10 then "" else ToDecimal(n / 10)) + [(('0' as int) + n % 10) as char]
  }

  /** Python's `int(s)` on a string: an optional sign and at least one decimal digit. */
  function ParseInt(s: string): Option<int> {
    if |s| > 1 && (s[0] == '-' || s[0] == '+') && AllDigits(s[1..]) then
      var v: int := DecimalValue(s[1..]);
      Some(if s[0] == '-' then -v else v)
    else if |s| > 0 && AllDigits(s) then Some(DecimalValue(s))
    else None
  }

  lemma {:induction false} DecimalRoundTrip(n: nat)
    ensures |ToDecimal(n)| > 0 && AllDigits(ToDecimal(n))
    ensures DecimalValue(ToDecimal(n)) == n
  {
    var d := ToDecimal(n);
    if n >= 10 {
      DecimalRoundTrip(n / 10);
      assert d[..|d| - 1] == ToDecimal(n / 10);
    } else {
      assert d[..|d| - 1] == "";
    }
  }

  /** int() reads back every decimal rendering of a natural number. */
  lemma ParseIntOfDecimal(n: nat)
    ensures ParseInt(ToDecimal(n)) == Some(n)
  {
    DecimalRoundTrip(n);
  }

  /** A text with no character equal to pat[0] contains no occurrence of `pat`. */
  lemma FindAbsent(s: string, pat: string)
    requires |pat| > 0
    requires forall k :: 0 <= k < |s| ==> s[k] != pat[0]
    ensures Find(s, pat) == None
  {
    forall i | 0 <= i && i + |pat| <= |s| ensures !OccursAt(s, pat, i) {
      assert s[i..i + |pat|][0] == s[i];
    }
  }

  lemma FindAfterDigits(d: string, t: string, pat: string)
    requires |pat| > 0 && !IsDigit(pat[0]) && AllDigits(d)
    requires |pat| <= |t| && t[..|pat|] == pat
    ensures Find(d + t, pat) == Some(|d|)
  {
    var s := d + t;
    assert OccursAt(s, pat, |d|) by {
      assert s[|d|..] == t;
      assert s[|d|..|d| + |pat|] == s[|d|..][..|pat|];
    }
    var r := Find(s, pat);
    assert r.Some?;
    if r.value < |d| {
      assert IsDigit(s[r.value]) by {
        assert s[r.value] == d[r.value];
      }
      NotAtDigit(s, pat, r.value);
    }
    assert r.value <= |d|;
  }

  lemma NotAtDigit(s: string, pat: string, i: nat)
    requires i < |s| && IsDigit(s[i]) && |pat| > 0 && !IsDigit(pat[0])
    ensures !OccursAt(s, pat, i)
  {
    if i + |pat| <= |s| {
      assert s[i..i + |pat|][0] == s[i];
    }
  }

  // ---------------------------------------------------------------------
  // sort_files_by_number (lines 48-60)
  // ---------------------------------------------------------------------

  /**
   * The sort key of a crop file name, `int(x.split('image')[1].split('.jpg')[0])`:
   * IndexError when "image" does not occur, ValueError when the text between
   * "image" and ".jpg" is not an integer.
   */
  function FileNumber(name: string): Result<int, Error> {
    match After(name, "image")
    case None => Err(IndexError)
    case Some(rest) =>
      match ParseInt(Before(Before(rest, "image"), ".jpg"))
      case None => Err(ValueError)
      case Some(n) => Ok(n)
  }

  /** FileNumber as a total key; the files it is applied to all have a number. */
  function FileKey(name: string): int {
    match FileNumber(name)
    case Ok(n) => n
    case Err(_) => 0
  }

  /** The names ending in ".jpg", in listing order. */
  function JpgFiles(names: seq<string>): (r: seq<string>)
    ensures forall f :: f in r <==> f in names && EndsWith(f, ".jpg")
  {
    if names == [] then []
    else
      var last := names[|names| - 1];
      assert names == names[..|names| - 1] + [last];
      JpgFiles(names[..|names| - 1]) + (if EndsWith(last, ".jpg") then [last] else [])
  }

  /** The name image<n>.jpg, with n written in decimal, has the sort key n. */
  lemma FileNumberOfCropName(n: nat)
    ensures FileNumber("image" + ToDecimal(n) + ".jpg") == Ok(n)
  {
    var d := ToDecimal(n);
    var name := "image" + d + ".jpg";
    var rest := d + ".jpg";
    assert AllDigits(d) by {
      DecimalRoundTrip(n);
    }
    assert After(name, "image") == Some(rest) by {
      assert name[..|"image"|] == "image";
      assert Find(name, "image") == Some(0);
      assert name[5..] == rest;
    }
    assert Before(rest, "image") == rest by {
      forall k | 0 <= k < |rest| ensures rest[k] != 'i' {
        if k < |d| { assert IsDigit(d[k]); }
      }
      FindAbsent(rest, "image");
    }
    assert Before(rest, ".jpg") == d by {
      FindAfterDigits(d, ".jpg", ".jpg");
      assert rest[..|d|] == d;
    }
    ParseIntOfDecimal(n);
  }

  /** A name raises IndexError exactly when "image" does not occur in it. */
  lemma FileNumberIndexError(name: string)
    ensures FileNumber(name) == Err(IndexError) <==> Find(name, "image") == None
  {
  }

  /** The text before `pat` is a prefix of `s`. */
  lemma BeforeIsPrefix(s: string, pat: string)
    requires |pat| > 0
    ensures |Before(s, pat)| <= |s| && Before(s, pat) == s[..|Before(s, pat)|]
  {
  }

  /** Text without a digit parses as no integer. */
  lemma NoDigitsNoInt(u: string)
    requires forall i :: 0 <= i < |u| ==> !IsDigit(u[i])
    ensures ParseInt(u) == None
  {
    if |u| > 1 {
      assert u[1..][0] == u[1];
    }
  }

  /** A name "image" + t whose tail holds no digit raises ValueError. */
  lemma FileNumberValueError(t: string)
    requires forall i :: 0 <= i < |t| ==> !IsDigit(t[i])
    ensures FileNumber("image" + t) == Err(ValueError)
  {
    var name := "image" + t;
    assert After(name, "image") == Some(t) by {
      assert name[..|"image"|] == "image";
      assert Find(name, "image") == Some(0);
      assert name[5..] == t;
    }
    var u := Before(t, "image");
    BeforeIsPrefix(t, "image");
    var v := Before(u, ".jpg");
    BeforeIsPrefix(u, ".jpg");
    forall i | 0 <= i < |v| ensures !IsDigit(v[i]) {
      assert v[i] == u[i] == t[i];
    }
    NoDigitsNoInt(v);
  }

  /** Two names from each error path: no "image" at all, and nothing between "image" and ".jpg". */
  lemma FileNumberErrors()
    ensures FileNumber("dot.jpg") == Err(IndexError)
    ensures FileNumber("image.jpg") == Err(ValueError)
  {
    FindAbsent("dot.jpg", "image");
    FileNumberValueError(".jpg");
  }

  /**
   * sort_files_by_number over a directory listing `names`: the ".jpg" names,
   * stably sorted by FileNumber; the first ".jpg" name without a number
   * raises its error out of the sort.
   */
  method SortFilesByNumber(names: seq<string>) returns (r: Result<seq<string>, Error>)
    ensures r.Err? <==> exists f :: f in JpgFiles(names) && FileNumber(f).Err?
    ensures r.Err? ==> exists i :: 0 <= i < |JpgFiles(names)| && FileNumber(JpgFiles(names)[i]) == Err(r.error)
                          && forall j :: 0 <= j < i ==> FileNumber(JpgFiles(names)[j]).Ok?
    ensures r.Ok? ==> forall f :: f in r.value ==> EndsWith(f, ".jpg")
    ensures r.Ok? ==> IsStableSortOf(r.value, JpgFiles(names), FileKey)
  {
    var files := ListJpgFiles(names);
    var failure := FirstKeyError(files);
    if failure.Some? {
      return Err(failure.value);
    }
    SortedFiles(files);
    r := Ok(SortByKey(files, FileKey));
  }

  /** The keys of list.sort are computed in list order; the first that raises ends the sort. */
  method FirstKeyError(files: seq<string>) returns (failure: Option<Error>)
    ensures failure.None? <==> forall j :: 0 <= j < |files| ==> FileNumber(files[j]).Ok?
    ensures failure.Some? ==> exists i :: 0 <= i < |files| && FileNumber(files[i]) == Err(failure.value)
                                && forall j :: 0 <= j < i ==> FileNumber(files[j]).Ok?
  {
    for i := 0 to |files|
      invariant forall j :: 0 <= j < i ==> FileNumber(files[j]).Ok?
    {
      var key := FileNumber(files[i]);
      if key.Err? {
        return Some(key.error);
      }
    }
    return None;
  }

  lemma SortedFiles(files: seq<string>)
    requires forall j :: 0 <= j < |files| ==> FileNumber(files[j]).Ok?
    ensures !exists f :: f in files && FileNumber(f).Err?
    ensures forall f :: f in SortByKey(files, FileKey) ==> f in files
    ensures IsStableSortOf(SortByKey(files, FileKey), files, FileKey)
  {
    SortByKeyIsStableSort(files, FileKey);
    var sorted := SortByKey(files, FileKey);
    assert forall f :: f in sorted ==> f in multiset(files);
  }

  /** The listing loop of sort_files_by_number: keep the ".jpg" names in order. */
  method ListJpgFiles(names: seq<string>) returns (files: seq<string>)
    ensures files == JpgFiles(names)
  {
    files := [];
    for i := 0 to |names|
      invariant files == JpgFiles(names[..i])
    {
      assert names[..i + 1][..i] == names[..i];
      if EndsWith(names[i], ".jpg") {
        files := files + [names[i]];
      }
    }
    assert names[..|names|] == names;
  }

  // ---------------------------------------------------------------------
  // calculate_distance (lines 63-73) and the grouping loop (lines 133-138)
  // ---------------------------------------------------------------------

  /** The distance below which a number labels a dot. */
  const Threshold: real := 100.0

  /**
   * The square of calculate_distance: the distance between the (x_min, y_min)
   * corners of the two boxes. The far corners play no part.
   */
  function SquaredDistance(a: Detection, b: Detection): (r: real)
    ensures r >= 0.0
    ensures a.box.xMin == b.box.xMin && a.box.yMin == b.box.yMin ==> r == 0.0
  {
    var dx := b.box.xMin - a.box.xMin;
    var dy := b.box.yMin - a.box.yMin;
    NonNegativeSquare(dx);
    NonNegativeSquare(dy);
    dx * dx + dy * dy
  }

  lemma NonNegativeSquare(v: real)
    ensures v * v >= 0.0
  {
    if v < 0.0 {
      assert v * v == (-v) * (-v);
    }
  }

  /** `calculate_distance(a, b) < 100`, compared on squares since a distance is never negative. */
  predicate Near(a: Detection, b: Detection) {
    SquaredDistance(a, b) < Threshold * Threshold
  }

  lemma DistanceSymmetric(a: Detection, b: Detection)
    ensures SquaredDistance(a, b) == SquaredDistance(b, a)
    ensures Near(a, b) <==> Near(b, a)
  {
    var dx := b.box.xMin - a.box.xMin;
    var dy := b.box.yMin - a.box.yMin;
    assert (-dx) * (-dx) == dx * dx && (-dy) * (-dy) == dy * dy;
  }

  /** The pairs (n, d) for the dots d near n, in dot order. */
  function NearDots(n: Detection, dots: seq<Detection>): seq<(Detection, Detection)> {
    if dots == [] then []
    else
      var d := dots[|dots| - 1];
      NearDots(n, dots[..|dots| - 1]) + (if Near(n, d) then [(n, d)] else [])
  }

  /** Every (number, dot) pair within the threshold, number-major, then in dot order. */
  function Pairs(numbers: seq<Detection>, dots: seq<Detection>): seq<(Detection, Detection)> {
    if numbers == [] then []
    else Pairs(numbers[..|numbers| - 1], dots) + NearDots(numbers[|numbers| - 1], dots)
  }

  /** The grouping loop of detect_dots_numbers. */
  method GroupByDistance(numbers: seq<Detection>, dots: seq<Detection>) returns (grouped: seq<(Detection, Detection)>)
    ensures grouped == Pairs(numbers, dots)
  {
    grouped := [];
    for i := 0 to |numbers|
      invariant grouped == Pairs(numbers[..i], dots)
    {
      for j := 0 to |dots|
        invariant grouped == Pairs(numbers[..i], dots) + NearDots(numbers[i], dots[..j])
      {
        assert dots[..j + 1][..j] == dots[..j];
        if Near(numbers[i], dots[j]) {
          grouped := grouped + [(numbers[i], dots[j])];
        }
      }
      assert dots[..|dots|] == dots;
      assert numbers[..i + 1][..i] == numbers[..i];
    }
    assert numbers[..|numbers|] == numbers;
  }

  lemma {:induction false} NearDotsMembership(n: Detection, dots: seq<Detection>, p: (Detection, Detection))
    ensures p in NearDots(n, dots) <==> p.0 == n && p.1 in dots && Near(n, p.1)
  {
    if dots != [] {
      var init := dots[..|dots| - 1];
      NearDotsMembership(n, init, p);
      assert dots == init + [dots[|dots| - 1]];
    }
  }

  /** A pair is grouped exactly when its number and dot are within the threshold. */
  lemma {:induction false} PairsMembership(numbers: seq<Detection>, dots: seq<Detection>, p: (Detection, Detection))
    ensures p in Pairs(numbers, dots) <==> p.0 in numbers && p.1 in dots && Near(p.0, p.1)
  {
    if numbers != [] {
      var init := numbers[..|numbers| - 1];
      PairsMembership(init, dots, p);
      NearDotsMembership(numbers[|numbers| - 1], dots, p);
      assert numbers == init + [numbers[|numbers| - 1]];
    }
  }

  lemma {:induction false} NearDotsLength(n: Detection, dots: seq<Detection>)
    ensures |NearDots(n, dots)| <= |dots|
  {
    if dots != [] {
      NearDotsLength(n, dots[..|dots| - 1]);
    }
  }

  /** The grouping is many-to-many but yields at most one pair per (number, dot). */
  lemma {:induction false} PairsLength(numbers: seq<Detection>, dots: seq<Detection>)
    ensures |Pairs(numbers, dots)| <= |numbers| * |dots|
  {
    if numbers != [] {
      PairsLength(numbers[..|numbers| - 1], dots);
      NearDotsLength(numbers[|numbers| - 1], dots);
      assert (|numbers| - 1) * |dots| + |dots| == |numbers| * |dots|;
    }
  }

  /** Each number's pairs follow those of the numbers before it. */
  lemma {:induction false} PairsNumberMajor(first: seq<Detection>, rest: seq<Detection>, dots: seq<Detection>)
    ensures Pairs(first + rest, dots) == Pairs(first, dots) + Pairs(rest, dots)
    decreases |rest|
  {
    if rest != [] {
      var init := rest[..|rest| - 1];
      PairsNumberMajor(first, init, dots);
      assert (first + rest)[..|first + rest| - 1] == first + init;
      assert (first + rest)[|first + rest| - 1] == rest[|rest| - 1];
    } else {
      assert first + rest == first;
    }
  }

  /** Within one number, pairs follow the order of the dots. */
  lemma {:induction false} NearDotsDotOrder(n: Detection, first: seq<Detection>, rest: seq<Detection>)
    ensures NearDots(n, first + rest) == NearDots(n, first) + NearDots(n, rest)
    decreases |rest|
  {
    if rest != [] {
      var init := rest[..|rest| - 1];
      NearDotsDotOrder(n, first, init);
      assert (first + rest)[..|first + rest| - 1] == first + init;
      assert (first + rest)[|first + rest| - 1] == rest[|rest| - 1];
    } else {
      assert first + rest == first;
    }
  }

  /** At distance exactly 100 there is no pair; just below it there is one. */
  lemma ThresholdIsStrict(crop: string)
    ensures !Near(Detection(Number, Box(0.0, 0.0, 5.0, 5.0), crop), Detection(Dot, Box(60.0, 80.0, 70.0, 90.0), crop))
    ensures Near(Detection(Number, Box(0.0, 0.0, 5.0, 5.0), crop), Detection(Dot, Box(99.0, 0.0, 120.0, 9.0), crop))
    ensures Pairs([Detection(Number, Box(0.0, 0.0, 5.0, 5.0), crop)], [Detection(Dot, Box(60.0, 80.0, 70.0, 90.0), crop)]) == []
  {
    var n := Detection(Number, Box(0.0, 0.0, 5.0, 5.0), crop);
    var d := Detection(Dot, Box(60.0, 80.0, 70.0, 90.0), crop);
    assert [n][..0] == [] && [d][..0] == [];
    assert NearDots(n, [d]) == [];
  }

  // ---------------------------------------------------------------------
  // The class split of process_image (lines 109-115)
  // ---------------------------------------------------------------------

  /** The boxes of the detections of class `c`, in detection order. */
  function BoxesOfClass(raw: seq<RawDetection>, c: int): (r: seq<Box>)
    ensures |r| <= |raw|
  {
    if raw == [] then []
    else
      var last := raw[|raw| - 1];
      BoxesOfClass(raw[..|raw| - 1], c) + (if last.classId == c then [last.box] else [])
  }

  lemma {:induction false} BoxesOfClassMembership(raw: seq<RawDetection>, c: int, b: Box)
    ensures b in BoxesOfClass(raw, c) <==> exists i :: 0 <= i < |raw| && raw[i].classId == c && raw[i].box == b
  {
    if raw != [] {
      var init := raw[..|raw| - 1];
      BoxesOfClassMembership(init, c, b);
      assert forall i :: 0 <= i < |init| ==> init[i] == raw[i];
    }
  }

  /** Numbers and dots together are at most all detections, and exactly all when every class is 0 or 1. */
  lemma {:induction false} ClassesPartition(raw: seq<RawDetection>)
    ensures |BoxesOfClass(raw, 1)| + |BoxesOfClass(raw, 0)| <= |raw|
    ensures |BoxesOfClass(raw, 1)| + |BoxesOfClass(raw, 0)| == |raw| <==> forall i :: 0 <= i < |raw| ==> raw[i].classId in {0, 1}
  {
    if raw != [] {
      var init := raw[..|raw| - 1];
      ClassesPartition(init);
      assert forall i :: 0 <= i < |init| ==> init[i] == raw[i];
    }
  }

  lemma {:induction false} BoxesOfClassPrefix(raw: seq<RawDetection>, k: nat, c: int)
    requires k <= |raw|
    ensures |BoxesOfClass(raw[..k], c)| <= |BoxesOfClass(raw, c)|
    decreases |raw|
  {
    if k < |raw| {
      var init := raw[..|raw| - 1];
      assert raw[..k] == init[..k];
      BoxesOfClassPrefix(init, k, c);
    } else {
      assert raw[..k] == raw;
    }
  }

  datatype Split = Split(numbers: seq<Detection>, dots: seq<Detection>)

  /** `ds` are the boxes of one kind, the k-th carrying the k-th crop name. */
  predicate Named(ds: seq<Detection>, kind: Kind, boxes: seq<Box>, crops: seq<string>) {
    |ds| == |boxes| <= |crops| && forall k :: 0 <= k < |ds| ==> ds[k] == Detection(kind, boxes[k], crops[k])
  }

  /**
   * The class split loop of process_image: class 1 becomes a number and
   * class 0 a dot, each taking the next crop name of its kind; other classes
   * are dropped. Running out of crop names raises IndexError.
   */
  method SplitByClass(raw: seq<RawDetection>, numberCrops: seq<string>, dotCrops: seq<string>) returns (r: Result<Split, Error>)
    ensures r.Err? <==> |BoxesOfClass(raw, 1)| > |numberCrops| || |BoxesOfClass(raw, 0)| > |dotCrops|
    ensures r.Err? ==> r.error == IndexError
    ensures r.Ok? ==> Named(r.value.numbers, Number, BoxesOfClass(raw, 1), numberCrops)
    ensures r.Ok? ==> Named(r.value.dots, Dot, BoxesOfClass(raw, 0), dotCrops)
  {
    var numbers, dots := [], [];
    var numberIndex, dotIndex := 0, 0;
    for i := 0 to |raw|
      invariant numberIndex == |numbers| && dotIndex == |dots|
      invariant Named(numbers, Number, BoxesOfClass(raw[..i], 1), numberCrops)
      invariant Named(dots, Dot, BoxesOfClass(raw[..i], 0), dotCrops)
    {
      assert raw[..i + 1][..i] == raw[..i];
      if raw[i].classId == 1 {
        if numberIndex >= |numberCrops| {
          BoxesOfClassPrefix(raw, i + 1, 1);
          return Err(IndexError);
        }
        numbers := numbers + [Detection(Number, raw[i].box, numberCrops[numberIndex])];
        numberIndex := numberIndex + 1;
      } else if raw[i].classId == 0 {
        if dotIndex >= |dotCrops| {
          BoxesOfClassPrefix(raw, i + 1, 0);
          return Err(IndexError);
        }
        dots := dots + [Detection(Dot, raw[i].box, dotCrops[dotIndex])];
        dotIndex := dotIndex + 1;
      }
    }
    assert raw[..|raw|] == raw;
    r := Ok(Split(numbers, dots));
  }

  // ---------------------------------------------------------------------
  // convert_coordinates (lines 169-193)
  // ---------------------------------------------------------------------

  /** The capture resolution, WEBCAM_RESOLUTION_WIDTH by WEBCAM_RESOLUTION_HEIGHT. */
  datatype Resolution = Resolution(width: real, height: real)

  /** A point in percentage space. */
  datatype NormPoint = NormPoint(x: real, y: real)

  /** Half the width by which the frame exceeds a square: (W - H) / 2. */
  function HalfExcess(res: Resolution): real {
    (res.width - res.height) / 2.0
  }

  /** The centre x in percent of the height, before rounding; shifted left only beyond HalfExcess. */
  function PercentX(cx: real, res: Resolution): real
    requires res.height != 0.0
  {
    (if cx > HalfExcess(res) then cx - HalfExcess(res) else cx) / res.height * 100.0
  }

  /** The centre y in percent of the height, before rounding; never shifted. */
  function PercentY(cy: real, res: Resolution): real
    requires res.height != 0.0
  {
    cy / res.height * 100.0
  }

  /** The dot's box centre in percentage space, each axis rounded by `round2` (Python's `round(v, 2)`). */
  function Normalize(b: Box, res: Resolution, round2: real -> real): NormPoint
    requires res.height != 0.0
  {
    NormPoint(round2(PercentX((b.xMin + b.xMax) / 2.0, res)), round2(PercentY((b.yMin + b.yMax) / 2.0, res)))
  }

  lemma PercentBounds(v: real, h: real)
    requires h > 0.0 && 0.0 <= v <= h
    ensures 0.0 <= v / h * 100.0 <= 100.0
  {
    assert v / h * h == v;
  }

  /**
   * A centre inside the frame and left of the right excess strip, in a frame
   * at most three times as wide as high, normalises into [0, 100] on both axes.
   */
  lemma NormalizeInRange(b: Box, res: Resolution, round2: real -> real)
    requires res.height > 0.0 && res.width <= 3.0 * res.height
    requires 0.0 <= (b.xMin + b.xMax) / 2.0 <= (res.width + res.height) / 2.0
    requires 0.0 <= (b.yMin + b.yMax) / 2.0 <= res.height
    requires forall v :: 0.0 <= v <= 100.0 ==> 0.0 <= round2(v) <= 100.0
    ensures 0.0 <= Normalize(b, res, round2).x <= 100.0
    ensures 0.0 <= Normalize(b, res, round2).y <= 100.0
  {
    var cx := (b.xMin + b.xMax) / 2.0;
    var x := if cx > HalfExcess(res) then cx - HalfExcess(res) else cx;
    PercentBounds(x, res.height);
    PercentBounds((b.yMin + b.yMax) / 2.0, res.height);
  }

  /**
   * The centre is not clipped to the central square: a centre in the right
   * excess strip of a 1920x1080 frame lands above 100 whatever the rounding.
   */
  lemma RightStripLeavesRange(round2: real -> real)
    requires forall v :: -0.005 <= round2(v) - v <= 0.005
    ensures Normalize(Box(1890.0, 500.0, 1910.0, 520.0), Resolution(1920.0, 1080.0), round2).x > 137.0
  {
    assert PercentX(1900.0, Resolution(1920.0, 1080.0)) == 1480.0 / 1080.0 * 100.0;
  }

  /** Before rounding, every centre right of the central square, x > (W + H) / 2, lies above 100. */
  lemma RightStripAboveRange(cx: real, res: Resolution)
    requires res.height > 0.0 && cx > (res.width + res.height) / 2.0
    ensures PercentX(cx, res) > 100.0
  {
    assert cx - HalfExcess(res) > res.height;
    assert (cx - HalfExcess(res)) / res.height > 1.0;
  }

  /** A centre in the left excess strip lands where the centre HalfExcess further right does. */
  lemma LeftStripFolds(c: real, res: Resolution)
    requires res.height != 0.0 && 0.0 < c <= HalfExcess(res)
    ensures PercentX(c, res) == PercentX(c + HalfExcess(res), res)
  {
  }

  /** The inverse of the normalisation for centres right of HalfExcess, before rounding. */
  function Denormalize(p: NormPoint, res: Resolution): (real, real) {
    (p.x / 100.0 * res.height + HalfExcess(res), p.y / 100.0 * res.height)
  }

  lemma ScaleBack(a: real, h: real)
    requires h != 0.0
    ensures a / h * 100.0 / 100.0 * h == a
  {
    assert a / h * 100.0 / 100.0 == a / h;
    assert a / h * h == a;
  }

  lemma DenormalizeInverts(cx: real, cy: real, res: Resolution)
    requires res.height != 0.0 && cx > HalfExcess(res)
    ensures Denormalize(NormPoint(PercentX(cx, res), PercentY(cy, res)), res) == (cx, cy)
  {
    var a := cx - HalfExcess(res);
    assert PercentX(cx, res) == a / res.height * 100.0;
    ScaleBack(a, res.height);
    ScaleBack(cy, res.height);
    assert Denormalize(NormPoint(PercentX(cx, res), PercentY(cy, res)), res).0 == a + HalfExcess(res);
    assert Denormalize(NormPoint(PercentX(cx, res), PercentY(cy, res)), res).1 == cy;
  }

  lemma ScaleUp(v: real, h: real)
    requires h != 0.0
    ensures v / 100.0 * h / h * 100.0 == v
  {
    assert v / 100.0 * h / h == v / 100.0;
  }

  /**
   * Normalising the one-pixel box at the denormalised point gives back the
   * point, rounded, for every point right of the left edge of the square.
   */
  lemma DenormalizeRoundTrip(p: NormPoint, res: Resolution, round2: real -> real)
    requires res.height > 0.0 && p.x > 0.0
    ensures var c := Denormalize(p, res);
      Normalize(Box(c.0, c.1, c.0, c.1), res, round2) == NormPoint(round2(p.x), round2(p.y))
  {
    var c := Denormalize(p, res);
    var h := res.height;
    assert p.x / 100.0 * h > 0.0 by {
      assert p.x / 100.0 > 0.0;
    }
    assert (c.0 + c.0) / 2.0 == c.0;
    assert (c.1 + c.1) / 2.0 == c.1;
    assert PercentX(c.0, res) == p.x by {
      assert c.0 - HalfExcess(res) == p.x / 100.0 * h;
      ScaleUp(p.x, h);
    }
    assert PercentY(c.1, res) == p.y by {
      ScaleUp(p.y, h);
    }
  }

  /**
   * The left edge of the square, x = 0, does not come back: its
   * denormalised centre sits exactly on HalfExcess, is not shifted, and a
   * 1920x1080 frame reads it as about 38.89, whatever the rounding.
   */
  lemma LeftEdgeDoesNotRoundTrip(round2: real -> real)
    requires forall v :: -0.005 <= round2(v) - v <= 0.005
    ensures Denormalize(NormPoint(0.0, 50.0), Resolution(1920.0, 1080.0)) == (420.0, 540.0)
    ensures Normalize(Box(420.0, 540.0, 420.0, 540.0), Resolution(1920.0, 1080.0), round2).x > 38.0
    ensures Normalize(Box(420.0, 540.0, 420.0, 540.0), Resolution(1920.0, 1080.0), round2)
      != NormPoint(round2(0.0), round2(50.0))
  {
    assert PercentX(420.0, Resolution(1920.0, 1080.0)) == 420.0 / 1080.0 * 100.0;
  }

  /** A dot with its label, converted to percentage space. */
  datatype Marker = Marker(number: Option<int>, at: NormPoint)

  /** convert_coordinates: one marker per entry (number crop, dot, label), in order. */
  method ConvertCoordinates(info: seq<(Detection, Detection, Option<int>)>, res: Resolution, round2: real -> real)
    returns (converted: seq<Marker>)
    requires res.height != 0.0
    ensures |converted| == |info|
    ensures forall i :: 0 <= i < |info| ==> converted[i] == Marker(info[i].2, Normalize(info[i].1.box, res, round2))
  {
    converted := [];
    for i := 0 to |info|
      invariant |converted| == i
      invariant forall j :: 0 <= j < i ==> converted[j] == Marker(info[j].2, Normalize(info[j].1.box, res, round2))
    {
      var (_, dot, number) := info[i];
      converted := converted + [Marker(number, Normalize(dot.box, res, round2))];
    }
  }

  // ---------------------------------------------------------------------
  // recognize_numbers (lines 196-240)
  // ---------------------------------------------------------------------

  /** `''.join(filter(str.isdigit, text))`: the decimal digits of `text`, in order. */
  function CleanDigits(text: string): (r: string)
    ensures AllDigits(r) && |r| <= |text|
  {
    if text == [] then ""
    else
      (if IsDigit(text[0]) then [text[0]] else "") + CleanDigits(text[1..])
  }

  lemma {:induction false} CleanDigitsAppend(a: string, b: string)
    ensures CleanDigits(a + b) == CleanDigits(a) + CleanDigits(b)
  {
    if a != [] {
      CleanDigitsAppend(a[1..], b);
      assert (a + b)[1..] == a[1..] + b;
    } else {
      assert a + b == b;
    }
  }

  /** Every digit occurs in the cleaned text as often as in the text. */
  lemma {:induction false} CleanDigitsKeepsDigits(text: string, c: char)
    requires IsDigit(c)
    ensures multiset(CleanDigits(text))[c] == multiset(text)[c]
  {
    if text != [] {
      CleanDigitsKeepsDigits(text[1..], c);
      assert text == [text[0]] + text[1..];
    }
  }

  lemma {:induction false} CleanDigitsOfDigits(ds: string)
    requires AllDigits(ds)
    ensures CleanDigits(ds) == ds
  {
    if ds != [] {
      CleanDigitsOfDigits(ds[1..]);
    }
  }

  /** The label of a recognised text: `int(cleaned)`, None on the ValueError of an empty string. */
  function Label(text: string): Option<int> {
    ParseInt(CleanDigits(text))
  }

  lemma {:induction false} NoDigitsCleanEmpty(text: string)
    ensures CleanDigits(text) == [] <==> forall i :: 0 <= i < |text| ==> !IsDigit(text[i])
  {
    if text != [] {
      NoDigitsCleanEmpty(text[1..]);
      assert forall i :: 1 <= i < |text| ==> text[i] == text[1..][i - 1];
    }
  }

  /** A text gives no label exactly when it holds no digit; otherwise the label is its digits read as a number. */
  lemma LabelNoneIffNoDigit(text: string)
    ensures Label(text).None? <==> forall i :: 0 <= i < |text| ==> !IsDigit(text[i])
    ensures Label(text).Some? ==> Label(text).value == DecimalValue(CleanDigits(text)) >= 0
  {
    NoDigitsCleanEmpty(text);
  }

  /** Recognised noise around a number does not change its label. */
  lemma LabelIgnoresNoise(n: nat, before: string, after: string)
    requires forall i :: 0 <= i < |before| ==> !IsDigit(before[i])
    requires forall i :: 0 <= i < |after| ==> !IsDigit(after[i])
    ensures Label(before + ToDecimal(n) + after) == Some(n)
  {
    var d := ToDecimal(n);
    DecimalRoundTrip(n);
    CleanDigitsAppend(before + d, after);
    CleanDigitsAppend(before, d);
    NoDigitsCleanEmpty(before);
    NoDigitsCleanEmpty(after);
    CleanDigitsOfDigits(d);
    assert CleanDigits(before + d + after) == d;
    ParseIntOfDecimal(n);
  }

  /** The sort key of a marker: its label (the unlabelled ones are filtered out first). */
  function LabelKey(m: Marker): int {
    if m.number.Some? then m.number.value else 0
  }

  /** `[coord for coord in converted if coord[0] is not None]`. */
  function Labelled(ms: seq<Marker>): (r: seq<Marker>)
    ensures |r| <= |ms|
  {
    if ms == [] then []
    else (if ms[0].number.Some? then [ms[0]] else []) + Labelled(ms[1..])
  }

  /** Labelled keeps exactly the markers that carry a number. */
  lemma {:induction false} LabelledMembership(ms: seq<Marker>)
    ensures forall m :: m in Labelled(ms) <==> m in ms && m.number.Some?
  {
    if ms != [] {
      LabelledMembership(ms[1..]);
      assert ms == [ms[0]] + ms[1..];
    }
  }

  /** Every (number, dot) pair with the label of its number's crop and its dot's normalised centre. */
  function Recognized(pairs: seq<(Detection, Detection)>, ocr: string -> string, res: Resolution, round2: real -> real)
    : seq<Marker>
    requires res.height != 0.0
  {
    seq(|pairs|, i requires 0 <= i < |pairs| => Marker(Label(ocr(pairs[i].0.crop)), Normalize(pairs[i].1.box, res, round2)))
  }

  /** The markers of the pairs in order, all of them converted, as the loop of recognize_numbers collects them. */
  method LabelAndConvert(pairs: seq<(Detection, Detection)>, ocr: string -> string, res: Resolution, round2: real -> real)
    returns (converted: seq<Marker>)
    requires res.height != 0.0
    ensures converted == Recognized(pairs, ocr, res, round2)
  {
    var detectionInfo: seq<(Detection, Detection, Option<int>)> := [];
    converted := [];
    for i := 0 to |pairs|
      invariant |detectionInfo| == i
      invariant forall j :: 0 <= j < i ==> detectionInfo[j] == (pairs[j].0, pairs[j].1, Label(ocr(pairs[j].0.crop)))
      invariant converted == Recognized(pairs[..i], ocr, res, round2)
    {
      var (numberInfo, dotInfo) := pairs[i];
      var number := Label(ocr(numberInfo.crop));
      detectionInfo := detectionInfo + [(numberInfo, dotInfo, number)];
      converted := ConvertCoordinates(detectionInfo, res, round2);
    }
    assert pairs[..|pairs|] == pairs;
  }

  /** Nothing is labelled exactly when no number crop gives a label. */
  lemma NoneLabelled(pairs: seq<(Detection, Detection)>, ocr: string -> string, res: Resolution, round2: real -> real)
    requires res.height != 0.0
    ensures Labelled(Recognized(pairs, ocr, res, round2)) == [] <==> forall i :: 0 <= i < |pairs| ==> Label(ocr(pairs[i].0.crop)).None?
  {
    var ms := Recognized(pairs, ocr, res, round2);
    LabelledMembership(ms);
    if Labelled(ms) == [] {
      forall i | 0 <= i < |pairs| ensures Label(ocr(pairs[i].0.crop)).None? {
        assert ms[i] in ms;
      }
    } else {
      var m := Labelled(ms)[0];
      assert m in ms && m.number.Some?;
      var i :| 0 <= i < |ms| && ms[i] == m;
      assert Label(ocr(pairs[i].0.crop)).Some?;
    }
  }

  /**
   * recognize_numbers: label every pair by the text `ocr` recognises in its
   * number's crop, convert its dot, drop the unlabelled ones and sort the rest
   * stably by label; None when nothing is labelled.
   */
  method RecognizeNumbers(pairs: seq<(Detection, Detection)>, ocr: string -> string, res: Resolution, round2: real -> real)
    returns (r: Option<seq<Marker>>)
    requires res.height != 0.0
    ensures r.None? <==> forall i :: 0 <= i < |pairs| ==> Label(ocr(pairs[i].0.crop)).None?
    ensures r.Some? ==> forall m :: m in r.value ==> m.number.Some?
    ensures r.Some? ==> IsStableSortOf(r.value, Labelled(Recognized(pairs, ocr, res, round2)), LabelKey)
  {
    var converted := LabelAndConvert(pairs, ocr, res, round2);
    NoneLabelled(pairs, ocr, res, round2);
    var filtered := Labelled(converted);
    if filtered == [] {
      return None;
    }
    LabelledMembership(converted);
    SortByKeyIsStableSort(filtered, LabelKey);
    var sorted := SortByKey(filtered, LabelKey);
    assert forall m :: m in sorted ==> m in multiset(filtered);
    r := Some(sorted);
  }

  /** The ordering of labels 3, 1, None, 2, 1: the unlabelled one is gone and the two 1s keep their order. */
  lemma OrderingExample(a: NormPoint, b: NormPoint, c: NormPoint, d: NormPoint, e: NormPoint)
    ensures SortByKey(Labelled([Marker(Some(3), a), Marker(Some(1), b), Marker(None, c), Marker(Some(2), d), Marker(Some(1), e)]), LabelKey)
         == [Marker(Some(1), b), Marker(Some(1), e), Marker(Some(2), d), Marker(Some(3), a)]
  {
    var m3, m1, none, m2, m1b := Marker(Some(3), a), Marker(Some(1), b), Marker(None, c), Marker(Some(2), d), Marker(Some(1), e);
    LabelledExample(m3, m1, none, m2, m1b);
    SortExample(m3, m1, m2, m1b);
  }

  lemma LabelledExample(m3: Marker, m1: Marker, none: Marker, m2: Marker, m1b: Marker)
    requires m3.number.Some? && m1.number.Some? && none.number.None? && m2.number.Some? && m1b.number.Some?
    ensures Labelled([m3, m1, none, m2, m1b]) == [m3, m1, m2, m1b]
  {
    var all := [m3, m1, none, m2, m1b];
    assert all[1..] == [m1, none, m2, m1b] && all[1..][1..] == [none, m2, m1b];
    assert all[1..][1..][1..] == [m2, m1b] && all[1..][1..][1..][1..] == [m1b] && [m1b][1..] == [];
    assert Labelled([m1b]) == [m1b];
    assert Labelled([m2, m1b]) == [m2, m1b];
    assert Labelled([none, m2, m1b]) == [m2, m1b];
    assert Labelled([m1, none, m2, m1b]) == [m1, m2, m1b];
  }

  lemma SortExample(m3: Marker, m1: Marker, m2: Marker, m1b: Marker)
    requires m3.number == Some(3) && m1.number == Some(1) && m2.number == Some(2) && m1b.number == Some(1)
    ensures SortByKey([m3, m1, m2, m1b], LabelKey) == [m1, m1b, m2, m3]
  {
    var all := [m3, m1, m2, m1b];
    assert all[1..] == [m1, m2, m1b] && all[1..][1..] == [m2, m1b] && all[1..][1..][1..] == [m1b];
    assert SortByKey([m1b], LabelKey) == [m1b];
    assert Insert(m2, [m1b], LabelKey) == [m1b] + Insert(m2, [], LabelKey) == [m1b, m2];
    assert SortByKey([m2, m1b], LabelKey) == [m1b, m2];
    assert SortByKey([m1, m2, m1b], LabelKey) == [m1, m1b, m2];
    assert [m1, m1b, m2][1..] == [m1b, m2] && [m1b, m2][1..] == [m2] && [m2][1..] == [];
    assert Insert(m3, [m2], LabelKey) == [m2] + Insert(m3, [], LabelKey) == [m2, m3];
    assert Insert(m3, [m1b, m2], LabelKey) == [m1b] + Insert(m3, [m2], LabelKey) == [m1b, m2, m3];
    assert Insert(m3, [m1, m1b, m2], LabelKey) == [m1] + Insert(m3, [m1b, m2], LabelKey) == [m1, m1b, m2, m3];
  }
}
