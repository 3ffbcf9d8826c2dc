/** The gas profile radar (frontend_react/src/components/GasRadarChart.jsx):
    the eleven chart labels and the value vector built from the flat gas
    object, one value per label. Chart.js drawing is not modelled. */
module GasRadarChart {
  import opened Common
  import opened Js

  /** The radar's axis labels, in drawing order. */
  const LABELS: seq<string> := [
    "Ammonia (NH3)", "Nitrogen (N2)", "Oxygen (O2)", "Benzene (C6H6)", "Smoke", "CO2", "CO",
    "Alcohol Vapour", "Sulfur", "Methane (CH4)", "Hydrogen (H2)"]

  /** The fields of the gas object read for each label, in the same order. */
  const FIELDS: seq<string> := [
    "ammonia", "nitrogen", "oxygen", "benzene", "smoke", "co2", "co",
    "alcohol", "sulfur", "methane", "hydrogen"]

  /** `gasData.<field> || 0`. */
  function Level(gas: map<string, JsValue>, field: string): (v: JsValue)
    ensures Truthy(Get(gas, field)) ==> v == Get(gas, field)
    ensures !Truthy(Get(gas, field)) ==> v == Num(0.0)
  {
    Or(Get(gas, field), Num(0.0))
  }

  /** `dataValues`: the eleven levels when a gas object is present,
      otherwise `Array(11).fill(0)`. */
  function DataValues(gasData: Option<map<string, JsValue>>): (r: seq<JsValue>)
    ensures |r| == |LABELS| == |FIELDS| == 11
    ensures gasData.None? ==> forall i :: 0 <= i < |r| ==> r[i] == Num(0.0)
    ensures gasData.Some? ==> forall i :: 0 <= i < |r| ==> r[i] == Level(gasData.value, FIELDS[i])
  {
    if gasData.Some? then
      var g := gasData.value;
      [Level(g, "ammonia"), Level(g, "nitrogen"), Level(g, "oxygen"), Level(g, "benzene"),
       Level(g, "smoke"), Level(g, "co2"), Level(g, "co"), Level(g, "alcohol"),
       Level(g, "sulfur"), Level(g, "methane"), Level(g, "hydrogen")]
    else
      seq(11, i => Num(0.0))
  }

  /** The i-th field is the gas the i-th label names: the label, lower
      cased up to its first space or parenthesis, starts with the field. */
  lemma FieldsMatchLabels()
    ensures forall i :: 0 <= i < 11 ==>
      |FIELDS[i]| <= |LABELS[i]| && LowerAscii(LABELS[i][..|FIELDS[i]|]) == FIELDS[i]
  {
  }

  function LowerAscii(s: string): (r: string)
    ensures |r| == |s|
  {
    seq(|s|, i requires 0 <= i < |s| => if 'A' <= s[i] <= 'Z' then (s[i] as int + 32) as char else s[i])
  }

  /** Every value drawn is a truthy reading or 0: a missing, null, false,
      empty or zero reading is drawn as 0. */
  lemma ValuesTruthyOrZero(gasData: Option<map<string, JsValue>>)
    ensures forall i :: 0 <= i < 11 ==> Truthy(DataValues(gasData)[i]) || DataValues(gasData)[i] == Num(0.0)
  {
  }

  /** What the chart area shows. */
  datatype View = Radar(labels: seq<string>, values: seq<JsValue>) | Placeholder

  /** The radar when a gas object is present, else "Fetching gas profile...".
      The value on the i-th axis is the level of the gas that axis names. */
  function Render(gasData: Option<map<string, JsValue>>): (v: View)
    ensures v.Radar? <==> gasData.Some?
    ensures v.Radar? ==> v.labels == LABELS && |v.values| == |v.labels|
    ensures v.Radar? ==> forall i :: 0 <= i < |v.values| ==> v.values[i] == Level(gasData.value, FIELDS[i])
  {
    if gasData.Some? then Radar(LABELS, DataValues(gasData)) else Placeholder
  }
}
