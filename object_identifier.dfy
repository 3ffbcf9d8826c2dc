/** The hazard detector (backend/object_identifier.py): per-region trackers
    with a bounded history, the 30-pixel grid that keys them, the fire and
    smoke detection rules on contours, and the step that cuts JPEG frames out
    of the MJPEG byte stream. Colour masks, blurring, contour finding and
    decoding are OpenCV's and appear here only through their results. */
module ObjectIdentifier {
  import opened Common

  /** `MIN_FRAMES_VALIDATION`: readings a tracker needs before it can validate. */
  const MIN_FRAMES_VALIDATION: nat := 5
  /** `HazardTracker(max_history=10)`. */
  const DEFAULT_MAX_HISTORY: nat := 10
  /** The side of a grid cell in `get_tracker_key`. */
  const GRID: nat := 30
  /** Smallest contour areas (exclusive) for a fire and a smoke detection. */
  const FIRE_MIN_AREA: real := 350.0
  const SMOKE_MIN_AREA: real := 1000.0

  /** One `{"area": ..., "intensity": ...}` entry of a tracker's history. */
  datatype Sample = Sample(area: real, intensity: real)

  /** A contour as the detectors see it: its area, its bounding rectangle
      and the mean grey level inside that rectangle. */
  datatype Contour = Contour(area: real, x: int, y: int, w: int, h: int, intensity: real)

  /** A detection record: label, confidence and `[x, y, x + w, y + h]`. */
  datatype Detection = Detection(kind: string, confidence: real, box: seq<int>)

  type GridKey = (int, int)

  /** A tracker: a `deque(maxlen=max_history)` of samples. The grid cell it
      was created for is recorded as a ghost, so that the pool can state that
      no two cells share a tracker. */
  class HazardTracker {
    const maxHistory: nat
    ghost const cell: GridKey
    var history: seq<Sample>

    ghost predicate Valid()
      reads this
    {
      |history| <= maxHistory
    }

    constructor (maxHistory: nat, ghost cell: GridKey)
      ensures Valid()
      ensures this.maxHistory == maxHistory && this.cell == cell && history == []
    {
      this.maxHistory := maxHistory;
      this.cell := cell;
      history := [];
    }

    /** `update`: append to the deque, which drops its oldest entry when
        full. The history becomes the last `maxHistory` of the old history
        followed by the new sample, so the newest sample is last. */
    method Update(area: real, intensity: real)
      requires Valid()
      modifies this
      ensures Valid()
      ensures history == LastN(old(history) + [Sample(area, intensity)], maxHistory)
    {
      ghost var before := history;
      history := history + [Sample(area, intensity)];
      if |history| > maxHistory {
        history := history[1..];
      }
      if maxHistory > 0 {
        LastNAppend(before, Sample(area, intensity), maxHistory);
      }
    }

    /** `is_valid_hazard(kind)`: never before MIN_FRAMES_VALIDATION samples;
        after that a FLAME must also flicker and change shape (Flickers),
        while any other kind is valid on the frame count alone. */
    function IsValidHazard(kind: string): (r: bool)
      reads this
      ensures r <==> |history| >= MIN_FRAMES_VALIDATION && (kind == "FLAME" ==> Flickers(history))
    {
      if |history| < MIN_FRAMES_VALIDATION then false
      else if kind == "FLAME" then Flickers(history)
      else true
    }
  }

  /** Relative spread of intensity a flame must exceed: `FLICKER_THRESHOLD`. */
  const FLICKER_THRESHOLD: real := 0.05
  /** Relative spread of area a flame must exceed: `GROWTH_STABILITY`. */
  const GROWTH_STABILITY: real := 0.08
  /** The guard numpy's means are shifted by before dividing. */
  const EPSILON: real := 0.000001

  function Intensities(h: seq<Sample>): (r: seq<real>)
    ensures |r| == |h| && forall i :: 0 <= i < |h| ==> r[i] == h[i].intensity
  {
    if |h| == 0 then [] else Intensities(h[..|h| - 1]) + [h[|h| - 1].intensity]
  }

  function Areas(h: seq<Sample>): (r: seq<real>)
    ensures |r| == |h| && forall i :: 0 <= i < |h| ==> r[i] == h[i].area
  {
    if |h| == 0 then [] else Areas(h[..|h| - 1]) + [h[|h| - 1].area]
  }

  function Sum(xs: seq<real>): real
  {
    if |xs| == 0 then 0.0 else Sum(xs[..|xs| - 1]) + xs[|xs| - 1]
  }

  /** `np.mean`. */
  function Mean(xs: seq<real>): real
    requires |xs| > 0
  {
    Sum(xs) / (|xs| as real)
  }

  function SquaredDeviations(xs: seq<real>, m: real): (r: real)
    ensures r >= 0.0
  {
    if |xs| == 0 then 0.0
    else SquaredDeviations(xs[..|xs| - 1], m) + Square(xs[|xs| - 1] - m)
  }

  function Square(d: real): (r: real)
    ensures r >= 0.0
  {
    if d >= 0.0 then d * d else (-d) * (-d)
  }

  /** `np.var`: the population variance. */
  function Variance(xs: seq<real>): (r: real)
    requires |xs| > 0
    ensures r >= 0.0
  {
    SquaredDeviations(xs, Mean(xs)) / (|xs| as real)
  }

  /** The flame test of `is_valid_hazard`: the intensity variance over the
      shifted mean intensity exceeds FLICKER_THRESHOLD, and the standard
      deviation of the area over the shifted mean area exceeds
      GROWTH_STABILITY. A quotient by a negative mean is never positive, so
      each comparison holds only for a positive mean; the square root is
      avoided by comparing squares, which is exact for non-negative sides. */
  predicate Flickers(h: seq<Sample>)
  {
    |h| > 0 &&
    FlickerTest(Variance(Intensities(h)), Mean(Intensities(h)) + EPSILON) &&
    GrowthTest(Variance(Areas(h)), Mean(Areas(h)) + EPSILON)
  }

  /** `variance > FLICKER_THRESHOLD`, with `variance` the intensity variance
      over the shifted mean `avg`. */
  predicate FlickerTest(v: real, avg: real)
  {
    avg > 0.0 && v / avg > FLICKER_THRESHOLD
  }

  /** `area_variation > GROWTH_STABILITY`, squared: the area variance `v`
      against the square of GROWTH_STABILITY times the shifted mean `avg`. */
  predicate GrowthTest(v: real, avg: real)
  {
    avg > 0.0 && v > (GROWTH_STABILITY * avg) * (GROWTH_STABILITY * avg)
  }

  /** A history that passes the flame test is non-empty and varies in both
      intensity and area. */
  lemma FlickerNeedsVariation(h: seq<Sample>)
    ensures Flickers(h) ==> |h| > 0 && Variance(Intensities(h)) > 0.0 && Variance(Areas(h)) > 0.0
  {
    if Flickers(h) {
      FlickerTestNeedsSpread(Variance(Intensities(h)), Mean(Intensities(h)) + EPSILON);
      GrowthTestNeedsSpread(Variance(Areas(h)), Mean(Areas(h)) + EPSILON);
    }
  }

  lemma FlickerTestNeedsSpread(v: real, avg: real)
    ensures FlickerTest(v, avg) ==> v > 0.0
  {
  }

  lemma GrowthTestNeedsSpread(v: real, avg: real)
    ensures GrowthTest(v, avg) ==> v > 0.0
  {
    if GrowthTest(v, avg) {
      assert GROWTH_STABILITY * avg > 0.0;
    }
  }

  /** A steady light never passes as a flame: when every sample has the same
      intensity, the intensity variance is zero and Flickers fails. */
  lemma SteadyLightNeverFlickers(h: seq<Sample>, c: real)
    requires forall i :: 0 <= i < |h| ==> h[i].intensity == c
    ensures !Flickers(h)
  {
    if |h| > 0 {
      var xs := Intensities(h);
      ConstantSum(xs, c);
      MeanOfConstant(|xs| as real, c);
      assert Mean(xs) == c;
      ConstantDeviations(xs, c);
      assert Variance(xs) == 0.0;
    }
  }

  lemma MeanOfConstant(n: real, c: real)
    requires n > 0.0
    ensures (n * c) / n == c
  {
  }

  lemma {:induction false} ConstantSum(xs: seq<real>, c: real)
    requires forall i :: 0 <= i < |xs| ==> xs[i] == c
    ensures Sum(xs) == (|xs| as real) * c
  {
    if |xs| > 0 {
      ConstantSum(xs[..|xs| - 1], c);
    }
  }

  lemma {:induction false} ConstantDeviations(xs: seq<real>, c: real)
    requires forall i :: 0 <= i < |xs| ==> xs[i] == c
    ensures SquaredDeviations(xs, c) == 0.0
  {
    if |xs| > 0 {
      ConstantDeviations(xs[..|xs| - 1], c);
    }
  }

  /** `get_tracker_key(x, y, w, h)`: the 30-pixel grid cell of the corner
      `(x, y)`. Python's `//` rounds down, as Dafny's `/` does for a positive
      divisor; the width and height play no part. */
  function TrackerKey(x: int, y: int, w: int, h: int): (k: GridKey)
    ensures GRID * k.0 <= x < GRID * k.0 + GRID
    ensures GRID * k.1 <= y < GRID * k.1 + GRID
  {
    (x / GRID, y / GRID)
  }

  /** Two regions share a tracker exactly when their corners lie in the same
      grid cell, whatever their sizes. */
  lemma SameTrackerIffSameCell(x1: int, y1: int, w1: int, h1: int, x2: int, y2: int, w2: int, h2: int, cx: int, cy: int)
    requires GRID * cx <= x1 < GRID * cx + GRID && GRID * cy <= y1 < GRID * cy + GRID
    ensures TrackerKey(x1, y1, w1, h1) == TrackerKey(x2, y2, w2, h2) <==>
      GRID * cx <= x2 < GRID * cx + GRID && GRID * cy <= y2 < GRID * cy + GRID
  {
    var k1 := TrackerKey(x1, y1, w1, h1);
    var k2 := TrackerKey(x2, y2, w2, h2);
    CellUnique(x1, k1.0, cx);
    CellUnique(y1, k1.1, cy);
    if GRID * cx <= x2 < GRID * cx + GRID && GRID * cy <= y2 < GRID * cy + GRID {
      CellUnique(x2, k2.0, cx);
      CellUnique(y2, k2.1, cy);
    }
  }

  /** A coordinate lies in exactly one grid cell. */
  lemma CellUnique(x: int, a: int, b: int)
    requires GRID * a <= x < GRID * a + GRID
    requires GRID * b <= x < GRID * b + GRID
    ensures a == b
  {
  }

  /** `[x, y, x + w, y + h]`. */
  function Box(c: Contour): seq<int>
  {
    [c.x, c.y, c.x + c.w, c.y + c.h]
  }

  function Min(a: real, b: real): real
  {
    if a <= b then a else b
  }

  /** A FLAME detection for a contour: confidence `min(0.99, 0.6 + area / 10000)`. */
  function FlameDetection(c: Contour): (d: Detection)
    ensures d.kind == "FLAME" && d.box == Box(c)
    ensures d.confidence <= 0.99
    ensures c.area >= 0.0 ==> d.confidence >= 0.6
  {
    Detection("FLAME", Min(0.99, 0.6 + c.area / 10000.0), Box(c))
  }

  /** A SMOKE detection for a contour: confidence `min(0.90, 0.4 + area / 15000)`. */
  function SmokeDetection(c: Contour): (d: Detection)
    ensures d.kind == "SMOKE" && d.box == Box(c)
    ensures d.confidence <= 0.90
    ensures c.area >= 0.0 ==> d.confidence >= 0.4
  {
    Detection("SMOKE", Min(0.90, 0.4 + c.area / 15000.0), Box(c))
  }

  /** The grid keys of this frame's fire contours: the `active_keys` set. */
  function ActiveKeys(contours: seq<Contour>): set<GridKey>
  {
    if |contours| == 0 then {}
    else
      var c := contours[|contours| - 1];
      ActiveKeys(contours[..|contours| - 1]) + (if c.area > FIRE_MIN_AREA then {TrackerKey(c.x, c.y, c.w, c.h)} else {})
  }

  /** What `detect_smoke` returns: one SMOKE detection per contour over the
      smoke area threshold, in contour order. */
  function SmokeDetections(contours: seq<Contour>): seq<Detection>
  {
    if |contours| == 0 then []
    else
      var last := contours[|contours| - 1];
      SmokeDetections(contours[..|contours| - 1]) + (if last.area > SMOKE_MIN_AREA then [SmokeDetection(last)] else [])
  }

  /** Every smoke detection comes from a contour over the threshold, is
      labelled SMOKE, has confidence at most 0.90 and that contour's box;
      there is one detection per such contour. */
  lemma {:induction false} SmokeDetectionsSound(contours: seq<Contour>)
    ensures |SmokeDetections(contours)| == |Large(contours, SMOKE_MIN_AREA)|
    ensures forall d | d in SmokeDetections(contours) ::
      d.kind == "SMOKE" && d.confidence <= 0.90 &&
      exists c :: c in contours && c.area > SMOKE_MIN_AREA && d.box == Box(c)
  {
    if |contours| > 0 {
      var init := contours[..|contours| - 1];
      SmokeDetectionsSound(init);
      forall d | d in SmokeDetections(contours)
        ensures d.kind == "SMOKE" && d.confidence <= 0.90
        ensures exists c :: c in contours && c.area > SMOKE_MIN_AREA && d.box == Box(c)
      {
        if d in SmokeDetections(init) {
          var c :| c in init && c.area > SMOKE_MIN_AREA && d.box == Box(c);
          assert c in contours;
        } else {
          assert d == SmokeDetection(contours[|contours| - 1]);
        }
      }
    }
  }

  /** The contours whose area exceeds `threshold`, in order. */
  function Large(contours: seq<Contour>, threshold: real): (r: seq<Contour>)
    ensures |r| <= |contours|
  {
    if |contours| == 0 then []
    else
      var last := contours[|contours| - 1];
      Large(contours[..|contours| - 1], threshold) + (if last.area > threshold then [last] else [])
  }

  /** `detect_smoke`: scan the contours and collect a detection for each one
      larger than the smoke threshold. */
  method DetectSmoke(contours: seq<Contour>) returns (detections: seq<Detection>)
    ensures detections == SmokeDetections(contours)
    ensures |detections| <= |contours|
    ensures forall d | d in detections :: d.kind == "SMOKE" && d.confidence <= 0.90
  {
    detections := [];
    var i := 0;
    while i < |contours|
      invariant 0 <= i <= |contours|
      invariant detections == SmokeDetections(contours[..i])
    {
      assert contours[..i + 1][..i] == contours[..i];
      var c := contours[i];
      if c.area > SMOKE_MIN_AREA {
        detections := detections + [SmokeDetection(c)];
      }
      i := i + 1;
    }
    assert contours[..|contours|] == contours;
    SmokeDetectionsSound(contours);
  }

  /** The history a cell starts a frame with: its tracker's, or none. */
  function Start(hist: map<GridKey, seq<Sample>>, key: GridKey): seq<Sample>
  {
    if key in hist then hist[key] else []
  }

  /** What one contour does to the tracked histories: a contour over the
      fire threshold appends its sample to its cell's history (a new cell
      starts empty), capped at DEFAULT_MAX_HISTORY; any other contour
      changes nothing. */
  function Record(hist: map<GridKey, seq<Sample>>, c: Contour): (r: map<GridKey, seq<Sample>>)
    ensures r.Keys == hist.Keys + (if c.area > FIRE_MIN_AREA then {TrackerKey(c.x, c.y, c.w, c.h)} else {})
  {
    if c.area > FIRE_MIN_AREA then
      var key := TrackerKey(c.x, c.y, c.w, c.h);
      hist[key := LastN(Start(hist, key) + [Sample(c.area, c.intensity)], DEFAULT_MAX_HISTORY)]
    else hist
  }

  /** The histories after the contours of one frame are recorded in order. */
  function RecordAll(hist: map<GridKey, seq<Sample>>, contours: seq<Contour>): (r: map<GridKey, seq<Sample>>)
    ensures r.Keys == hist.Keys + ActiveKeys(contours)
  {
    if |contours| == 0 then hist
    else Record(RecordAll(hist, contours[..|contours| - 1]), contours[|contours| - 1])
  }

  /** The evidence a FLAME needs: `is_valid_hazard("FLAME")` on a history. */
  predicate FlameEvidence(h: seq<Sample>)
  {
    |h| >= MIN_FRAMES_VALIDATION && Flickers(h)
  }

  /** What `detect_fire`'s loop returns: a FLAME detection for each fire
      contour whose cell's history, once that contour is recorded, holds
      flame evidence, in contour order. */
  function FireDetections(hist: map<GridKey, seq<Sample>>, contours: seq<Contour>): seq<Detection>
  {
    if |contours| == 0 then []
    else
      var c := contours[|contours| - 1];
      var after := RecordAll(hist, contours);
      FireDetections(hist, contours[..|contours| - 1]) +
        (if c.area > FIRE_MIN_AREA && FlameEvidence(after[TrackerKey(c.x, c.y, c.w, c.h)]) then [FlameDetection(c)] else [])
  }

  /** The samples of a frame's fire contours that fall in cell `key`, in
      contour order. */
  function CellSamples(contours: seq<Contour>, key: GridKey): seq<Sample>
  {
    if |contours| == 0 then []
    else
      var c := contours[|contours| - 1];
      CellSamples(contours[..|contours| - 1], key) +
        (if c.area > FIRE_MIN_AREA && TrackerKey(c.x, c.y, c.w, c.h) == key then [Sample(c.area, c.intensity)] else [])
  }

  /** After a frame, every cell's history is the last DEFAULT_MAX_HISTORY of
      the history it started with followed by this frame's samples in that
      cell: the deque loses nothing it should keep, and cells do not share
      samples. */
  lemma {:induction false} RecordAllCell(hist: map<GridKey, seq<Sample>>, contours: seq<Contour>, key: GridKey)
    requires key in hist ==> |hist[key]| <= DEFAULT_MAX_HISTORY
    requires key in RecordAll(hist, contours)
    ensures RecordAll(hist, contours)[key] == LastN(Start(hist, key) + CellSamples(contours, key), DEFAULT_MAX_HISTORY)
  {
    if |contours| == 0 {
      assert CellSamples(contours, key) == [];
      assert Start(hist, key) + [] == hist[key];
    } else {
      var init := contours[..|contours| - 1];
      var c := contours[|contours| - 1];
      var prev := RecordAll(hist, init);
      var s0 := Start(hist, key);
      if key in prev {
        RecordAllCell(hist, init, key);
      } else {
        NoSamplesOutside(hist, init, key);
        assert s0 + CellSamples(init, key) == [];
      }
      assert Start(prev, key) == LastN(s0 + CellSamples(init, key), DEFAULT_MAX_HISTORY);
      if c.area > FIRE_MIN_AREA && TrackerKey(c.x, c.y, c.w, c.h) == key {
        var v := Sample(c.area, c.intensity);
        LastNAppendLastN(s0 + CellSamples(init, key), v, DEFAULT_MAX_HISTORY);
        assert s0 + CellSamples(contours, key) == (s0 + CellSamples(init, key)) + [v];
      } else {
        assert CellSamples(contours, key) == CellSamples(init, key);
      }
    }
  }

  /** A cell that no history holds after some contours had neither a
      starting history nor a sample among them. */
  lemma {:induction false} NoSamplesOutside(hist: map<GridKey, seq<Sample>>, contours: seq<Contour>, key: GridKey)
    requires key !in RecordAll(hist, contours)
    ensures key !in hist && CellSamples(contours, key) == []
  {
    if |contours| > 0 {
      NoSamplesOutside(hist, contours[..|contours| - 1], key);
    }
  }

  /** Evidence cannot come from nowhere: when none of a frame's cells was
      tracked before and the frame has fewer than MIN_FRAMES_VALIDATION
      contours, no FLAME is reported, whatever the contours look like. */
  lemma {:induction false} NewCellsNeedEvidence(hist: map<GridKey, seq<Sample>>, contours: seq<Contour>)
    requires forall c | c in contours :: TrackerKey(c.x, c.y, c.w, c.h) !in hist
    requires |contours| < MIN_FRAMES_VALIDATION
    ensures FireDetections(hist, contours) == []
  {
    if |contours| > 0 {
      var init := contours[..|contours| - 1];
      var c := contours[|contours| - 1];
      assert forall c' | c' in init :: c' in contours;
      NewCellsNeedEvidence(hist, init);
      if c.area > FIRE_MIN_AREA {
        var key := TrackerKey(c.x, c.y, c.w, c.h);
        RecordAllCell(hist, contours, key);
        assert Start(hist, key) == [];
        CellSamplesLength(contours, key);
      }
    }
  }

  lemma {:induction false} CellSamplesLength(contours: seq<Contour>, key: GridKey)
    ensures |CellSamples(contours, key)| <= |contours|
  {
    if |contours| > 0 {
      CellSamplesLength(contours[..|contours| - 1], key);
    }
  }

  /** Recording one more contour of a frame: how RecordAll, ActiveKeys and
      FireDetections of the first `i + 1` contours follow from those of the
      first `i`. */
  lemma PrefixStep(start: map<GridKey, seq<Sample>>, contours: seq<Contour>, i: nat)
    requires i < |contours|
    ensures var c := contours[i];
      var key := TrackerKey(c.x, c.y, c.w, c.h);
      var after := RecordAll(start, contours[..i + 1]);
      after == Record(RecordAll(start, contours[..i]), c) &&
      ActiveKeys(contours[..i + 1]) == ActiveKeys(contours[..i]) + (if c.area > FIRE_MIN_AREA then {key} else {}) &&
      FireDetections(start, contours[..i + 1]) == FireDetections(start, contours[..i]) +
        (if c.area > FIRE_MIN_AREA && FlameEvidence(after[key]) then [FlameDetection(c)] else [])
  {
    var prefix := contours[..i + 1];
    assert prefix[..i] == contours[..i] && prefix[i] == contours[i];
  }

  /** Every detection is the FLAME detection of a contour over the fire
      threshold, and there are no more detections than contours. */
  lemma {:induction false} FireDetectionsSound(hist: map<GridKey, seq<Sample>>, contours: seq<Contour>)
    ensures |FireDetections(hist, contours)| <= |contours|
    ensures forall d | d in FireDetections(hist, contours) ::
      exists c :: c in contours && c.area > FIRE_MIN_AREA && d == FlameDetection(c)
  {
    if |contours| > 0 {
      var init := contours[..|contours| - 1];
      FireDetectionsSound(hist, init);
      forall d | d in FireDetections(hist, contours)
        ensures exists c :: c in contours && c.area > FIRE_MIN_AREA && d == FlameDetection(c)
      {
        if d in FireDetections(hist, init) {
          var c :| c in init && c.area > FIRE_MIN_AREA && d == FlameDetection(c);
          assert c in contours;
        } else {
          assert contours[|contours| - 1] in contours;
        }
      }
    }
  }

  /** The global `trackers` dictionary, from grid key to tracker. Every
      cell has a tracker of its own. */
  class TrackerPool {
    var trackers: map<GridKey, HazardTracker>

    ghost predicate Valid()
      reads this, trackers.Values
    {
      forall k | k in trackers ::
        trackers[k].Valid() && trackers[k].maxHistory == DEFAULT_MAX_HISTORY && trackers[k].cell == k
    }

    /** The history each tracked cell holds. */
    ghost function Histories(): (r: map<GridKey, seq<Sample>>)
      reads this, trackers.Values
      ensures r.Keys == trackers.Keys
    {
      map k | k in trackers :: trackers[k].history
    }

    constructor ()
      ensures Valid() && trackers == map[]
    {
      trackers := map[];
    }

    /** The tracker of a cell, created (with an empty history) when the
        cell has none; no history changes. */
    method TrackerFor(key: GridKey) returns (t: HazardTracker)
      requires Valid()
      modifies this
      ensures Valid()
      ensures trackers == old(trackers)[key := t]
      ensures key in old(trackers) ==> t == old(trackers[key])
      ensures key !in old(trackers) ==> fresh(t)
      ensures t.Valid() && t.maxHistory == DEFAULT_MAX_HISTORY && t.cell == key
      ensures Histories() == old(Histories())[key := Start(old(Histories()), key)]
    {
      if key !in trackers {
        t := new HazardTracker(DEFAULT_MAX_HISTORY, key);
        trackers := trackers[key := t];
      } else {
        t := trackers[key];
      }
    }

    /** The body of `detect_fire`'s loop for a contour over the fire
        threshold: the tracker of its grid cell (a new one when the cell has
        none) records the contour's area and intensity, every other tracker
        keeps its history, and the contour yields a FLAME detection exactly
        when its cell's tracker is then valid. */
    method Track(c: Contour) returns (d: Option<Detection>)
      requires Valid()
      modifies this, trackers.Values
      ensures Valid()
      ensures var key := TrackerKey(c.x, c.y, c.w, c.h);
        Histories() == old(Histories())[key := LastN(Start(old(Histories()), key) + [Sample(c.area, c.intensity)], DEFAULT_MAX_HISTORY)]
      ensures forall k | k in old(trackers) :: trackers[k] == old(trackers[k])
      ensures forall k | k in trackers && k !in old(trackers) :: fresh(trackers[k])
      ensures var key := TrackerKey(c.x, c.y, c.w, c.h);
        (d.Some? <==> FlameEvidence(Histories()[key])) && (d.Some? ==> d.value == FlameDetection(c))
    {
      ghost var h0 := Histories();
      var key := TrackerKey(c.x, c.y, c.w, c.h);
      var tracker := TrackerFor(key);
      ghost var mid := Histories();
      assert mid[key] == Start(h0, key);
      tracker.Update(c.area, c.intensity);
      ghost var post := mid[key := tracker.history];
      forall k | k in post
        ensures Histories()[k] == post[k]
        ensures trackers[k].Valid() && trackers[k].maxHistory == DEFAULT_MAX_HISTORY && trackers[k].cell == k
      {
        if k != key {
          assert trackers[k] != tracker;
        }
      }
      assert Histories() == post;
      assert Valid();
      assert post == h0[key := LastN(Start(h0, key) + [Sample(c.area, c.intensity)], DEFAULT_MAX_HISTORY)];
      if tracker.IsValidHazard("FLAME") {
        d := Some(FlameDetection(c));
      } else {
        d := None;
      }
    }

    /** The cleanup of `detect_fire`: every tracker whose cell is not in
        `active` is deleted, and the others are kept as they are. */
    method DropStale(active: set<GridKey>)
      requires Valid()
      modifies this
      ensures Valid()
      ensures trackers == map k | k in old(trackers) && k in active :: old(trackers)[k]
      ensures Histories() == map k | k in old(Histories()) && k in active :: old(Histories())[k]
    {
      var stale := set k | k in trackers && k !in active;
      ghost var kept := map k | k in trackers && k in active :: trackers[k];
      while stale != {}
        invariant Valid()
        invariant stale <= trackers.Keys
        invariant trackers.Keys - stale == kept.Keys
        invariant forall k | k in trackers :: k in old(trackers) && trackers[k] == old(trackers)[k]
        decreases stale
      {
        var k :| k in stale;
        trackers := map k' | k' in trackers && k' != k :: trackers[k'];
        stale := stale - {k};
      }
    }

    /** One turn of `detect_fire`'s loop: a contour over the fire
        threshold is tracked; any other contour changes nothing. */
    method Visit(c: Contour) returns (d: Option<Detection>)
      requires Valid()
      modifies this, trackers.Values
      ensures Valid()
      ensures Histories() == Record(old(Histories()), c)
      ensures forall k | k in old(trackers) :: trackers[k] == old(trackers[k])
      ensures forall k | k in trackers && k !in old(trackers) :: fresh(trackers[k])
      ensures var key := TrackerKey(c.x, c.y, c.w, c.h);
        d == if c.area > FIRE_MIN_AREA && FlameEvidence(Histories()[key]) then Some(FlameDetection(c)) else None
    {
      if c.area > FIRE_MIN_AREA {
        d := Track(c);
      } else {
        d := None;
      }
    }

    /** Turn `i` of `detect_fire`'s loop: after the first `i` contours are
        recorded, visiting contour `i` records the first `i + 1`. */
    method Step(ghost start: map<GridKey, seq<Sample>>, contours: seq<Contour>, i: nat,
                detections: seq<Detection>, activeKeys: set<GridKey>)
      returns (detections': seq<Detection>, activeKeys': set<GridKey>)
      requires Valid()
      requires i < |contours|
      requires Histories() == RecordAll(start, contours[..i])
      requires detections == FireDetections(start, contours[..i])
      requires activeKeys == ActiveKeys(contours[..i])
      modifies this, trackers.Values
      ensures Valid()
      ensures Histories() == RecordAll(start, contours[..i + 1])
      ensures detections' == FireDetections(start, contours[..i + 1])
      ensures activeKeys' == ActiveKeys(contours[..i + 1])
      ensures old(trackers).Keys <= trackers.Keys
      ensures forall k | k in old(trackers) :: trackers[k] == old(trackers[k])
      ensures forall k | k in trackers && k !in old(trackers) :: fresh(trackers[k])
    {
      var c := contours[i];
      PrefixStep(start, contours, i);
      var d := Visit(c);
      activeKeys' := activeKeys;
      if c.area > FIRE_MIN_AREA {
        activeKeys' := activeKeys + {TrackerKey(c.x, c.y, c.w, c.h)};
      }
      detections' := detections;
      if d.Some? {
        detections' := detections + [d.value];
      }
    }

    /** The loop of `detect_fire`: every contour is visited in order,
        collecting the cells of the fire contours and the detections. */
    method TrackAll(contours: seq<Contour>) returns (detections: seq<Detection>, activeKeys: set<GridKey>)
      requires Valid()
      modifies this, trackers.Values
      ensures Valid()
      ensures activeKeys == ActiveKeys(contours)
      ensures trackers.Keys == old(trackers).Keys + activeKeys
      ensures Histories() == RecordAll(old(Histories()), contours)
      ensures detections == FireDetections(old(Histories()), contours)
      ensures forall k | k in old(trackers) :: trackers[k] == old(trackers[k])
      ensures forall k | k in trackers && k !in old(trackers) :: fresh(trackers[k])
    {
      ghost var start := Histories();
      detections := [];
      activeKeys := {};
      var i := 0;
      assert contours[..0] == [];
      while i < |contours|
        invariant 0 <= i <= |contours|
        invariant Valid()
        invariant activeKeys == ActiveKeys(contours[..i])
        invariant trackers.Keys == old(trackers).Keys + activeKeys
        invariant Histories() == RecordAll(start, contours[..i])
        invariant detections == FireDetections(start, contours[..i])
        invariant forall k | k in old(trackers) :: trackers[k] == old(trackers[k])
        invariant forall k | k in trackers && k !in old(trackers) :: fresh(trackers[k])
      {
        detections, activeKeys := Step(start, contours, i, detections, activeKeys);
        i := i + 1;
      }
      assert contours[..|contours|] == contours;
    }

    /** `detect_fire` on one frame's contours: TrackAll, then DropStale with
        the cells seen. The pool then holds exactly the cells of this
        frame's fire contours, each with the history RecordAll gives it (see
        RecordAllCell), a cell that was already tracked keeps its tracker,
        and the detections are FireDetections of the frame. */
    method DetectFire(contours: seq<Contour>) returns (detections: seq<Detection>)
      requires Valid()
      modifies this, trackers.Values
      ensures Valid()
      ensures trackers.Keys == ActiveKeys(contours)
      ensures Histories() == map k | k in ActiveKeys(contours) :: RecordAll(old(Histories()), contours)[k]
      ensures detections == FireDetections(old(Histories()), contours)
      ensures forall k | k in trackers && k in old(trackers) :: trackers[k] == old(trackers[k])
      ensures forall k | k in trackers && k !in old(trackers) :: fresh(trackers[k])
      ensures |detections| <= |contours|
      ensures forall d | d in detections ::
        exists c :: c in contours && c.area > FIRE_MIN_AREA && d == FlameDetection(c)
    {
      var activeKeys;
      detections, activeKeys := TrackAll(contours);
      DropStale(activeKeys);
      FireDetectionsSound(old(Histories()), contours);
    }
  }

  // ---------------------------------------------------------------------
  // MJPEG framing

  type byte = bv8

  /** Start-of-image and end-of-image markers of JPEG (ITU-T T.81, Annex B,
      section B.1.1.3, Table B.1): `FF D8` and `FF D9`. */
  const MARKER_PREFIX: byte := 0xFF
  const SOI: byte := 0xD8
  const EOI: byte := 0xD9

  predicate MarkerAt(buf: seq<byte>, i: int, code: byte)
  {
    0 <= i && i + 1 < |buf| && buf[i] == MARKER_PREFIX && buf[i + 1] == code
  }

  /** `buf.find(bytes([0xFF, code]), from)`: the first index at or after
      `from` where the two-byte marker starts, or -1. */
  function FindMarker(buf: seq<byte>, code: byte, from: nat): (r: int)
    ensures r == -1 || (from <= r && MarkerAt(buf, r, code))
    ensures r == -1 ==> forall j :: from <= j ==> !MarkerAt(buf, j, code)
    ensures r != -1 ==> forall j :: from <= j < r ==> !MarkerAt(buf, j, code)
    decreases |buf| - from
  {
    if from + 1 >= |buf| then -1
    else if buf[from] == MARKER_PREFIX && buf[from + 1] == code then from
    else FindMarker(buf, code, from + 1)
  }

  /** One pass of the framing step on the buffer after a read: when both
      markers occur, the frame is `buf[a:b+2]` (Python's slice, empty when
      the first EOI comes before the first SOI) and the buffer keeps
      `buf[b+2:]`; otherwise no frame and the buffer is unchanged. The
      buffer never grows, and a frame taken out of it is a slice of it. */
  function CutFrame(buf: seq<byte>): (r: (Option<seq<byte>>, seq<byte>))
    ensures r.0.None? ==> r.1 == buf
    ensures r.0.Some? ==> |r.1| + 2 <= |buf| && |r.0.value| + |r.1| <= |buf|
  {
    var a := FindMarker(buf, SOI, 0);
    var b := FindMarker(buf, EOI, 0);
    if a != -1 && b != -1 then
      (Some(if a <= b then buf[a..b + 2] else []), buf[b + 2..])
    else (None, buf)
  }

  /** A frame is cut exactly when the buffer holds both an SOI and an EOI
      marker; otherwise the buffer is left as it is. */
  lemma CutFrameNeedsBoth(buf: seq<byte>)
    ensures CutFrame(buf).0.Some? <==>
      (exists j :: MarkerAt(buf, j, SOI)) && (exists j :: MarkerAt(buf, j, EOI))
    ensures CutFrame(buf).0.None? ==> CutFrame(buf).1 == buf
  {
    var a := FindMarker(buf, SOI, 0);
    var b := FindMarker(buf, EOI, 0);
    if a != -1 && b != -1 {
      assert MarkerAt(buf, a, SOI) && MarkerAt(buf, b, EOI);
    }
  }

  /** When a frame is cut, the buffer shrinks to what follows the first EOI
      marker. */
  lemma CutFrameKeepsTail(buf: seq<byte>)
    ensures CutFrame(buf).0.Some? ==>
      |CutFrame(buf).1| < |buf| - 1 && buf[|buf| - |CutFrame(buf).1|..] == CutFrame(buf).1 &&
      MarkerAt(buf, |buf| - |CutFrame(buf).1| - 2, EOI) &&
      forall j :: 0 <= j < |buf| - |CutFrame(buf).1| - 2 ==> !MarkerAt(buf, j, EOI)
  {
    var b := FindMarker(buf, EOI, 0);
    if CutFrame(buf).0.Some? {
      assert CutFrame(buf).1 == buf[b + 2..];
    }
  }

  /** A non-empty frame (the SOI came first) starts with the first SOI
      marker (no SOI occurs before it), ends with the first EOI marker,
      holds no earlier EOI, and together with the kept tail is a suffix of
      the buffer. */
  lemma CutFrameIsFrame(buf: seq<byte>)
    ensures CutFrame(buf).0.Some? && CutFrame(buf).0.value != [] ==>
      var f := CutFrame(buf).0.value;
      |f| >= 4 && f[0] == MARKER_PREFIX && f[1] == SOI &&
      f[|f| - 2] == MARKER_PREFIX && f[|f| - 1] == EOI &&
      (forall j :: 0 <= j < |f| - 2 ==> !MarkerAt(f, j, EOI)) &&
      f + CutFrame(buf).1 == buf[|buf| - |f| - |CutFrame(buf).1|..] &&
      (forall j :: 0 <= j < |buf| - |f| - |CutFrame(buf).1| ==> !MarkerAt(buf, j, SOI))
  {
    var a := FindMarker(buf, SOI, 0);
    var b := FindMarker(buf, EOI, 0);
    if a != -1 && b != -1 && a <= b {
      var f := buf[a..b + 2];
      assert a != b;
      forall j | 0 <= j < |f| - 2
        ensures !MarkerAt(f, j, EOI)
      {
        assert !MarkerAt(buf, a + j, EOI);
      }
      assert f + buf[b + 2..] == buf[a..];
    }
  }

  /** A cut frame holds bytes exactly when an SOI marker starts before the
      first EOI marker does (the slice `buf[a:b+2]` is non-empty iff
      `a <= b`); an EOI that comes first yields the empty frame. */
  lemma CutFrameNonEmpty(buf: seq<byte>)
    ensures CutFrame(buf).0.Some? ==>
      (CutFrame(buf).0.value != [] <==>
        exists j :: MarkerAt(buf, j, SOI) && forall i :: 0 <= i <= j ==> !MarkerAt(buf, i, EOI))
  {
    var a := FindMarker(buf, SOI, 0);
    var b := FindMarker(buf, EOI, 0);
    if a != -1 && b != -1 {
      assert a != b;
      if a < b {
        assert MarkerAt(buf, a, SOI) && forall i :: 0 <= i <= a ==> !MarkerAt(buf, i, EOI);
      } else {
        assert MarkerAt(buf, b, EOI);
      }
    }
  }

  /** The reader's byte buffer, `bytes_data`. */
  class FrameBuffer {
    var bytes: seq<byte>

    constructor ()
      ensures bytes == []
    {
      bytes := [];
    }

    /** One turn of the `process_stream` loop up to decoding: append the
        chunk read from the stream, then cut at most one frame. */
    method ReadChunk(chunk: seq<byte>) returns (frame: Option<seq<byte>>)
      modifies this
      ensures (frame, bytes) == CutFrame(old(bytes) + chunk)
    {
      bytes := bytes + chunk;
      var a := FindMarker(bytes, SOI, 0);
      var b := FindMarker(bytes, EOI, 0);
      if a != -1 && b != -1 {
        frame := Some(if a <= b then bytes[a..b + 2] else []);
        bytes := bytes[b + 2..];
      } else {
        frame := None;
      }
    }
  }
}
