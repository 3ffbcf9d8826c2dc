/** The OLED data sender (backend/oled_sender.py): the alert it derives
    from a telemetry record, the plain-text packet it posts to the display,
    and the guard that decides whether a fetched record is sent at all.
    The HTTP fetch and post are left to the caller; the way Python prints a
    number (`str(round(x, n))`) is the `render` parameter. */
module OledSender {
  import opened Common
  import opened Py

  /** The four alert levels, highest priority first. */
  datatype Alert = Fire | GasHigh | TempWarn | Safe

  const FIRE_TEMP: real := 70.0
  const GAS_LIMIT: real := 500.0
  const WARN_TEMP: real := 50.0

  /** The text the packet shows for an alert. */
  function AlertName(a: Alert): (r: string)
    ensures r in ["FIRE", "GAS_HIGH", "TEMP_WARN", "SAFE"]
  {
    match a
    case Fire => "FIRE"
    case GasHigh => "GAS_HIGH"
    case TempWarn => "TEMP_WARN"
    case Safe => "SAFE"
  }

  /** Different alerts are shown as different words, so the receiver can
      tell them apart. */
  lemma AlertNamesDistinct(a: Alert, b: Alert)
    ensures AlertName(a) == AlertName(b) ==> a == b
  {
  }

  /** `data.get("flame", 1)`: the flame sensor is active low, so a missing
      flag reads as 1, no flame. */
  function Flame(d: map<string, PyValue>): PyValue
  {
    if "flame" in d then d["flame"] else PyNum(1.0)
  }

  /** `flame == 0`: true for the number 0 and for `False`, which Python
      compares equal to 0; false for anything else. */
  predicate FlameSeen(v: PyValue)
  {
    v == PyNum(0.0) || v == PyBool(false)
  }

  function Temp(d: map<string, PyValue>): real
    requires NumericOrAbsent(d, "temp")
  {
    GetNum(d, "temp", 0.0)
  }

  /** What the first branch of the chain tests. */
  predicate FireCondition(d: map<string, PyValue>)
    requires NumericOrAbsent(d, "temp")
  {
    FlameSeen(Flame(d)) || Temp(d) > FIRE_TEMP
  }

  /** A record `build_oled_text` gets through without raising: `round`
      needs numbers for temp, pressure, lat and lng, and `gas > 500` is
      evaluated (and so needs a number) only when the alert is not FIRE. */
  predicate Readable(d: map<string, PyValue>)
  {
    NumericOrAbsent(d, "temp") && NumericOrAbsent(d, "pressure") &&
    NumericOrAbsent(d, "lat") && NumericOrAbsent(d, "lng") &&
    (FireCondition(d) || NumericOrAbsent(d, "gas"))
  }

  /** The alert chain of `build_oled_text`. The alert is SAFE exactly when
      no condition of the chain holds, and the fire condition decides FIRE
      whatever else the record says. */
  function AlertOf(d: map<string, PyValue>): (r: Alert)
    requires Readable(d)
    ensures r == Fire <==> FireCondition(d)
    ensures r == Safe <==> !FireCondition(d) && GetNum(d, "gas", 0.0) <= GAS_LIMIT && Temp(d) <= WARN_TEMP
  {
    if FireCondition(d) then Fire
    else if GetNum(d, "gas", 0.0) > GAS_LIMIT then GasHigh
    else if Temp(d) > WARN_TEMP then TempWarn
    else Safe
  }

  /** The alert is FIRE exactly when the flame flag reads 0 or the
      temperature exceeds 70, whatever the gas level; GAS_HIGH exactly when
      it is not FIRE and gas exceeds 500; TEMP_WARN exactly when it is
      neither and the temperature exceeds 50; SAFE in every other case. */
  lemma AlertClassification(d: map<string, PyValue>)
    requires Readable(d)
    ensures AlertOf(d) == Fire <==> FlameSeen(Flame(d)) || Temp(d) > FIRE_TEMP
    ensures !FireCondition(d) ==>
      (AlertOf(d) == GasHigh <==> GetNum(d, "gas", 0.0) > GAS_LIMIT) &&
      (AlertOf(d) == TempWarn <==> GetNum(d, "gas", 0.0) <= GAS_LIMIT && Temp(d) > WARN_TEMP) &&
      (AlertOf(d) == Safe <==> GetNum(d, "gas", 0.0) <= GAS_LIMIT && Temp(d) <= WARN_TEMP)
  {
  }

  /** A fire outranks a gas alarm: high gas alongside a flame or a
      temperature over 70 still gives FIRE. */
  lemma FireOutranksGas(d: map<string, PyValue>)
    requires Readable(d) && NumericOrAbsent(d, "gas")
    requires GetNum(d, "gas", 0.0) > GAS_LIMIT
    ensures AlertOf(d) == Fire <==> FireCondition(d)
    ensures AlertOf(d) in {Fire, GasHigh}
  {
  }

  /** With every field missing, the defaults (flame 1, the rest 0) give SAFE. */
  lemma EmptyRecordIsSafe()
    ensures Readable(map[]) && AlertOf(map[]) == Safe
  {
    assert !FlameSeen(PyNum(1.0));
  }

  /** How a value appears in the packet: `round(x, digits)` printed, or the
      value printed as it is. */
  datatype Shown = Rounded(x: real, digits: nat) | Plain(v: PyValue)

  /** The packet's eight keys, in order. */
  const KEYS: seq<string> := ["Temp", "Gas", "Press", "Flame", "Water", "Lat", "Lng", "Alert"]

  const FIELD_SEP: string := ", "

  function Get(d: map<string, PyValue>, key: string, default: PyValue): PyValue
  {
    if key in d then d[key] else default
  }

  /** The eight `Key: value` fields of the packet, before joining. */
  function Fields(d: map<string, PyValue>, render: Shown -> string): (r: seq<string>)
    requires Readable(d)
    ensures |r| == |KEYS|
    ensures forall i :: 0 <= i < |KEYS| ==> |r[i]| >= |KEYS[i]| + 2 && r[i][..|KEYS[i]| + 2] == KEYS[i] + ": "
    ensures r[7] == "Alert: " + AlertName(AlertOf(d))
  {
    ["Temp: " + render(Rounded(Temp(d), 1)),
     "Gas: " + render(Plain(Get(d, "gas", PyNum(0.0)))),
     "Press: " + render(Rounded(GetNum(d, "pressure", 0.0), 1)),
     "Flame: " + render(Plain(Flame(d))),
     "Water: " + render(Plain(Get(d, "water", PyNum(0.0)))),
     "Lat: " + render(Rounded(GetNum(d, "lat", 0.0), 6)),
     "Lng: " + render(Rounded(GetNum(d, "lng", 0.0), 6)),
     "Alert: " + AlertName(AlertOf(d))]
  }

  /** `build_oled_text(data)`: the fields joined by ", ". The packet opens
      with the temperature field and closes with the alert field. */
  function BuildOledText(d: map<string, PyValue>, render: Shown -> string): (r: string)
    requires Readable(d)
    ensures |r| >= 6 && r[..6] == "Temp: "
    ensures var alert := "Alert: " + AlertName(AlertOf(d));
      |r| >= |alert| && r[|r| - |alert|..] == alert
  {
    JoinEnds(Fields(d, render), FIELD_SEP);
    Join(Fields(d, render), FIELD_SEP)
  }

  /** No rendered value contains a comma (true of Python's printed numbers). */
  predicate CommaFree(d: map<string, PyValue>, render: Shown -> string)
    requires Readable(d)
  {
    forall i, j :: 0 <= i < |KEYS| && 0 <= j < |Fields(d, render)[i]| ==> Fields(d, render)[i][j] != ','
  }

  /** The packet is easy to take apart on the receiver: as long as no value
      prints with a comma, splitting it on ", " gives back exactly eight
      fields, the i-th beginning with the i-th key and the last one naming
      the alert. */
  lemma PacketSplits(d: map<string, PyValue>, render: Shown -> string)
    requires Readable(d) && CommaFree(d, render)
    ensures Split(BuildOledText(d, render), FIELD_SEP) == Fields(d, render)
    ensures |Split(BuildOledText(d, render), FIELD_SEP)| == |KEYS|
    ensures forall i :: 0 <= i < |KEYS| ==>
      var f := Split(BuildOledText(d, render), FIELD_SEP)[i];
      |f| >= |KEYS[i]| + 2 && f[..|KEYS[i]| + 2] == KEYS[i] + ": "
    ensures Split(BuildOledText(d, render), FIELD_SEP)[7] == "Alert: " + AlertName(AlertOf(d))
  {
    SplitJoin(Fields(d, render), FIELD_SEP);
  }

  /** `if data and data.get("timestamp")`: a fetch that failed (None), an
      empty record or one without a truthy timestamp is not sent. */
  predicate ShouldSend(fetched: Option<map<string, PyValue>>)
  {
    fetched.Some? && |fetched.value| > 0 && "timestamp" in fetched.value && PyTruthy(fetched.value["timestamp"])
  }

  /** One turn of `main`'s loop: the packet to post, if any. */
  function Tick(fetched: Option<map<string, PyValue>>, render: Shown -> string): (r: Option<string>)
    requires ShouldSend(fetched) ==> Readable(fetched.value)
    ensures r.Some? <==> fetched.Some? && "timestamp" in fetched.value && PyTruthy(fetched.value["timestamp"])
    ensures r.Some? ==> r.value == BuildOledText(fetched.value, render)
  {
    if ShouldSend(fetched) then Some(BuildOledText(fetched.value, render)) else None
  }
}
