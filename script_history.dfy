/** The vanilla-JavaScript dashboard (frontend/script.js): the per-metric
    telemetry history it keeps for its bar chart, the pushes each telemetry
    update makes, and which series the chart and the big readout show. */
module ScriptHistory {
  import opened Common
  import opened Js

  const MAX_HISTORY: nat := 30

  /** The four series of `telemetryHistory`. */
  datatype Metric = Temp | Gas | Radiation | Pressure

  /** The fields of a telemetry object that `updateUI` reads. */
  datatype Reading = Reading(temp: JsValue, gas: JsValue, radiation: JsValue, pressure: JsValue)

  function Field(data: Reading, m: Metric): (v: JsValue)
    ensures Displayable(data) ==> Formattable(v)
  {
    match m
    case Temp => data.temp
    case Gas => data.gas
    case Radiation => data.radiation
    case Pressure => data.pressure
  }

  /** `updateUI` formats every truthy field with `toFixed` before it pushes
      anything, which throws unless the field is a number: a reading gets as
      far as the pushes only when each field is a number or falsy. */
  predicate Displayable(data: Reading)
  {
    Formattable(data.temp) && Formattable(data.gas) && Formattable(data.radiation) && Formattable(data.pressure)
  }

  predicate Formattable(v: JsValue)
  {
    !Truthy(v) || v.Num?
  }

  /** The properties every object literal inherits from `Object.prototype`
      (ECMAScript 2023, sections 20.1.3 and B.2.2.1-B.2.2.5). Looked up in
      `metricKeys` each gives a function or an object, which is truthy. */
  const INHERITED_NAMES: set<string> := {
    "constructor", "hasOwnProperty", "isPrototypeOf", "propertyIsEnumerable",
    "toLocaleString", "toString", "valueOf", "__proto__",
    "__defineGetter__", "__defineSetter__", "__lookupGetter__", "__lookupSetter__"}

  /** The series `telemetryHistory[metricKeys[tab] || 'temp']` denotes: `rad`
      and `gas` their own series, an inherited property name none at all (the
      truthy lookup escapes the fallback, and the key it yields names no
      series), and any other name the temperature series. */
  function MetricForTab(tab: string): (m: Option<Metric>)
    ensures m == Some(Radiation) <==> tab == "rad"
    ensures m == Some(Gas) <==> tab == "gas"
    ensures m.None? <==> tab in INHERITED_NAMES
    ensures m == Some(Temp) <==> tab != "rad" && tab != "gas" && tab !in INHERITED_NAMES
    ensures m != Some(Pressure)
  {
    if tab == "temp" then Some(Temp)
    else if tab == "gas" then Some(Gas)
    else if tab == "rad" then Some(Radiation)
    else if tab in INHERITED_NAMES then None
    else Some(Temp)
  }

  /** Where the chart's "Current" bars take their values from: the fresh
      array `createChart` puts there, or, once redrawn, the history array of
      a series itself (`datasets[0].data = data` shares the array, so every
      later push and shift on that series shows in the chart). */
  datatype Dataset = Own(values: seq<real>) | Shares(metric: Metric)

  /** The chart: x-axis labels and the dataset of the current bars. */
  datatype ChartView = ChartView(labels: seq<int>, current: Dataset)

  /** What `updateChart` leaves in the chart when the active tab selects
      `key` and the lookup gives `data` ([] when `key` is None): no chart
      stays no chart, an unknown or empty series leaves the chart as it was,
      otherwise the chart shares that series, labelled 1, 2, ... */
  function Redrawn(chart: Option<ChartView>, key: Option<Metric>, data: seq<real>): (r: Option<ChartView>)
    ensures chart.None? ==> r.None?
    ensures key.None? || |data| == 0 ==> r == chart
    ensures chart.Some? && key.Some? && |data| > 0 ==> r.Some? && r.value.current == Shares(key.value)
    ensures chart.Some? && key.Some? && |data| > 0 ==>
      |r.value.labels| == |data| && forall i :: 0 <= i < |data| ==> r.value.labels[i] == i + 1
  {
    if chart.None? || key.None? || |data| == 0 then chart
    else Some(ChartView(seq(|data|, i => i + 1), Shares(key.value)))
  }

  /** The module-level state of the page: `telemetryHistory`, the chart
      (null until `createChart` finds its canvas) and `activeMetric`. */
  class Dashboard {
    var temp: seq<real>
    var gas: seq<real>
    var radiation: seq<real>
    var pressure: seq<real>
    var chart: Option<ChartView>
    var activeMetric: string

    /** `telemetryHistory[key]`. */
    function Series(key: Metric): seq<real>
      reads this
    {
      match key
      case Temp => temp
      case Gas => gas
      case Radiation => radiation
      case Pressure => pressure
    }

    /** `telemetryHistory[metricKeys[tab] || 'temp']`, an undefined lookup
        read as no readings (`updateChart` and `updateBigValue` treat an
        undefined and an empty series alike). */
    function Selected(tab: string): (r: seq<real>)
      reads this
      ensures MetricForTab(tab).None? ==> r == []
    {
      match MetricForTab(tab)
      case None => []
      case Some(m) => Series(m)
    }

    /** The values the chart's current bars show, or nothing without a chart. */
    function Bars(): (r: Option<seq<real>>)
      reads this
      ensures r.None? <==> chart.None?
      ensures chart.Some? && chart.value.current.Shares? ==> r == Some(Series(chart.value.current.metric))
    {
      match chart
      case None => None
      case Some(c) =>
        match c.current
        case Own(v) => Some(v)
        case Shares(m) => Some(Series(m))
    }

    /** Every series holds at most MAX_HISTORY readings. */
    ghost predicate Valid()
      reads this
    {
      |temp| <= MAX_HISTORY && |gas| <= MAX_HISTORY && |radiation| <= MAX_HISTORY && |pressure| <= MAX_HISTORY
    }

    /** The page as loaded: four empty series, no chart, the temperature tab. */
    constructor ()
      ensures Valid()
      ensures forall m: Metric :: Series(m) == []
      ensures chart.None? && activeMetric == "temp"
    {
      temp, gas, radiation, pressure := [], [], [], [];
      chart := None;
      activeMetric := "temp";
    }

    /** `createChart`: an empty bar chart, provided the page has its canvas. */
    method CreateChart(hasCanvas: bool)
      modifies this
      ensures forall m: Metric :: Series(m) == old(Series(m))
      ensures activeMetric == old(activeMetric)
      ensures chart == if hasCanvas then Some(ChartView([], Own([]))) else old(chart)
      ensures hasCanvas ==> Bars() == Some([])
    {
      if hasCanvas {
        chart := Some(ChartView([], Own([])));
      }
    }

    /** `pushHistory(key, val)`: append, then shift once if over the cap.
        The series becomes the last MAX_HISTORY readings of the old series
        followed by `val`; no other series changes. The array is updated in
        place, so a chart that shares it shows the new series, and any
        other chart shows what it showed. */
    method PushHistory(key: Metric, val: real)
      requires Valid()
      modifies this
      ensures Valid()
      ensures Series(key) == LastN(old(Series(key)) + [val], MAX_HISTORY)
      ensures forall m: Metric :: m != key ==> Series(m) == old(Series(m))
      ensures chart == old(chart) && activeMetric == old(activeMetric)
      ensures chart.Some? && chart.value.current == Shares(key) ==> Bars() == Some(Series(key))
      ensures chart.None? || chart.value.current != Shares(key) ==> Bars() == old(Bars())
    {
      var s := Series(key) + [val];
      if |s| > MAX_HISTORY {
        s := s[1..];
      }
      LastNAppend(Series(key), val, MAX_HISTORY);
      SetSeries(key, s);
    }

    /** `telemetryHistory[key]` now holds `s`, in the same array. */
    method SetSeries(key: Metric, s: seq<real>)
      requires Valid() && |s| <= MAX_HISTORY
      modifies this
      ensures Valid()
      ensures Series(key) == s
      ensures forall m: Metric :: m != key ==> Series(m) == old(Series(m))
      ensures chart == old(chart) && activeMetric == old(activeMetric)
    {
      match key
      case Temp => temp := s;
      case Gas => gas := s;
      case Radiation => radiation := s;
      case Pressure => pressure := s;
    }

    /** One "save to history" line of `updateUI`: a truthy field is pushed
        onto its series; a falsy one (missing, null or 0) is skipped. */
    method SaveToHistory(key: Metric, v: JsValue)
      requires Valid() && Formattable(v)
      modifies this
      ensures Valid()
      ensures Series(key) == Appended(old(Series(key)), v)
      ensures forall m: Metric :: m != key ==> Series(m) == old(Series(m))
      ensures chart == old(chart) && activeMetric == old(activeMetric)
      ensures chart.Some? && chart.value.current == Shares(key) ==> Bars() == Some(Appended(old(Series(key)), v))
      ensures chart.None? || chart.value.current != Shares(key) ==> Bars() == old(Bars())
    {
      if Truthy(v) {
        PushHistory(key, v.x);
      }
    }

    /** `updateChart`: redraw the chart from the series the active tab selects. */
    method UpdateChart()
      requires Valid()
      modifies this
      ensures Valid()
      ensures forall m: Metric :: Series(m) == old(Series(m))
      ensures activeMetric == old(activeMetric)
      ensures chart == Redrawn(old(chart), MetricForTab(activeMetric), Selected(activeMetric))
      ensures chart.Some? && Selected(activeMetric) != [] ==> Bars() == Some(Selected(activeMetric))
    {
      if chart.None? {
        return;
      }
      var key := MetricForTab(activeMetric);
      if key.None? {
        return;
      }
      var data := Series(key.value);
      if |data| == 0 {
        return;
      }
      chart := Some(ChartView(seq(|data|, i => i + 1), Shares(key.value)));
    }

    /** `updateUI`: push each truthy reading onto its series (a 0 or missing
        reading is skipped), then redraw the chart. When the active tab
        selects nothing to draw, the chart keeps sharing the series it last
        drew, which has just been pushed onto like the others. */
    method UpdateUI(data: Reading)
      requires Valid() && Displayable(data)
      modifies this
      ensures Valid()
      ensures forall m: Metric :: Series(m) == Appended(old(Series(m)), Field(data, m))
      ensures activeMetric == old(activeMetric)
      ensures chart == Redrawn(old(chart), MetricForTab(activeMetric), Selected(activeMetric))
    {
      SaveToHistory(Temp, data.temp);
      SaveToHistory(Gas, data.gas);
      SaveToHistory(Radiation, data.radiation);
      SaveToHistory(Pressure, data.pressure);
      UpdateChart();
    }

    /** A click on a chart tab: select it and redraw. */
    method SelectTab(tab: string)
      requires Valid()
      modifies this
      ensures Valid()
      ensures forall m: Metric :: Series(m) == old(Series(m))
      ensures activeMetric == tab
      ensures chart == Redrawn(old(chart), MetricForTab(tab), Selected(tab))
      ensures chart.Some? && Selected(tab) != [] ==> Bars() == Some(Selected(tab))
    {
      activeMetric := tab;
      UpdateChart();
    }

    /** The reading `updateBigValue(metric)` shows: the newest element of the
        selected series, or nothing while that series is empty or the name
        selects no series. */
    function LatestReading(metric: string): (r: Option<real>)
      requires Valid()
      reads this
      ensures metric in INHERITED_NAMES ==> r.None?
      ensures r.None? <==> Selected(metric) == []
      ensures r.Some? ==> r.value == Selected(metric)[|Selected(metric)| - 1]
    {
      var data := Selected(metric);
      if |data| > 0 then Some(data[|data| - 1]) else None
    }
  }

  /** A series after `if (v) pushHistory(key, v)`: a truthy number is
      appended within the cap, anything falsy leaves the series as it was. */
  function Appended(s: seq<real>, v: JsValue): (r: seq<real>)
    requires Formattable(v)
    ensures !Truthy(v) ==> r == s
    ensures Truthy(v) && |s| < MAX_HISTORY ==> r == s + [v.x]
    ensures Truthy(v) && |s| == MAX_HISTORY ==> r == s[1..] + [v.x]
  {
    if Truthy(v) then
      if |s| <= MAX_HISTORY then
        LastNAppend(s, v.x, MAX_HISTORY);
        LastN(s + [v.x], MAX_HISTORY)
      else LastN(s + [v.x], MAX_HISTORY)
    else s
  }

  /** The readings of metric `m` that a session pushes, oldest first: the
      truthy ones (a reading that is not a number never gets as far as a
      push, see Displayable). */
  function Recorded(readings: seq<Reading>, m: Metric): (r: seq<real>)
    ensures |r| <= |readings|
  {
    if |readings| == 0 then []
    else
      var last := Field(readings[|readings| - 1], m);
      Recorded(readings[..|readings| - 1], m) + (if Truthy(last) && last.Num? then [last.x] else [])
  }

  /** The last MAX_HISTORY recorded readings of metric `m`. */
  function Window(readings: seq<Reading>, m: Metric): (r: seq<real>)
    ensures |r| <= MAX_HISTORY
  {
    LastN(Recorded(readings, m), MAX_HISTORY)
  }

  /** One more update moves the window of the last MAX_HISTORY recorded
      readings forward by that update alone. */
  lemma {:induction false} RecordedStep(readings: seq<Reading>, data: Reading, m: Metric)
    requires Displayable(data)
    ensures Window(readings + [data], m) == Appended(Window(readings, m), Field(data, m))
  {
    var all := readings + [data];
    assert all[..|all| - 1] == readings;
    if Truthy(Field(data, m)) {
      LastNAppendLastN(Recorded(readings, m), Field(data, m).x, MAX_HISTORY);
    }
  }

  /** A session of updates on a freshly loaded page leaves in each series
      the last MAX_HISTORY truthy readings of that metric, in arrival order. */
  method Session(readings: seq<Reading>) returns (page: Dashboard)
    requires forall k :: 0 <= k < |readings| ==> Displayable(readings[k])
    ensures page.Valid()
    ensures forall m: Metric :: page.Series(m) == Window(readings, m)
  {
    page := new Dashboard();
    var i := 0;
    while i < |readings|
      invariant 0 <= i <= |readings|
      invariant fresh(page) && page.Valid()
      invariant forall m: Metric :: page.Series(m) == Window(readings[..i], m)
    {
      assert readings[..i + 1] == readings[..i] + [readings[i]];
      Feed(page, readings[..i], readings[i]);
      i := i + 1;
    }
    assert readings[..|readings|] == readings;
  }

  /** One update of a session: a page whose series are the windows of the
      updates so far holds, after `updateUI(data)`, the windows of those
      updates followed by `data`. */
  method Feed(page: Dashboard, done: seq<Reading>, data: Reading)
    requires page.Valid() && Displayable(data)
    requires forall m: Metric :: page.Series(m) == Window(done, m)
    modifies page
    ensures page.Valid()
    ensures forall m: Metric :: page.Series(m) == Window(done + [data], m)
  {
    page.UpdateUI(data);
    forall m: Metric
      ensures page.Series(m) == Window(done + [data], m)
    {
      RecordedStep(done, data, m);
    }
  }
}
