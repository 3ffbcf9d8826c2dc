/** The gyroscope panel (frontend_react/src/components/GyroPanel.jsx): the
    three axis readings with their fallbacks and the width of each bar. */
module GyroPanel {
  import opened Common
  import opened Js

  /** `telemetry?.<axis> || 0`. */
  function Axis(telemetry: Option<map<string, JsValue>>, axis: string): (v: JsValue)
    ensures !Truthy(GetOpt(telemetry, axis)) ==> v == Num(0.0)
    ensures Truthy(GetOpt(telemetry, axis)) ==> v == GetOpt(telemetry, axis)
  {
    Or(GetOpt(telemetry, axis), Num(0.0))
  }

  function AbsReal(x: real): real
  {
    if x < 0.0 then -x else x
  }

  /** `getProgress(val)`: `Math.min(Math.abs(val / 20), 100)`, a bar width
      in percent. */
  function Progress(v: real): (p: real)
    ensures 0.0 <= p <= 100.0
    ensures AbsReal(v) >= 2000.0 ==> p == 100.0
    ensures AbsReal(v) < 2000.0 ==> p == AbsReal(v) / 20.0
  {
    var a := AbsReal(v / 20.0);
    if a < 100.0 then a else 100.0
  }

  /** A bar is as wide for a rotation as for the same rotation the other way. */
  lemma ProgressSymmetric(v: real)
    ensures Progress(-v) == Progress(v)
  {
  }

  /** A faster rotation never draws a shorter bar. */
  lemma ProgressMonotone(v: real, w: real)
    requires AbsReal(v) <= AbsReal(w)
    ensures Progress(v) <= Progress(w)
  {
  }

  /** A reading reaches the bar only as a number: the component divides it,
      and the readings it is given are numbers or absent. */
  predicate NumericAxes(telemetry: Option<map<string, JsValue>>)
  {
    Axis(telemetry, "gx").Num? && Axis(telemetry, "gy").Num? && Axis(telemetry, "gz").Num?
  }

  /** The three bar widths: pitch (gx), roll (gy) and yaw (gz). */
  function Bars(telemetry: Option<map<string, JsValue>>): (r: (real, real, real))
    requires NumericAxes(telemetry)
    ensures 0.0 <= r.0 <= 100.0 && 0.0 <= r.1 <= 100.0 && 0.0 <= r.2 <= 100.0
    ensures telemetry.None? ==> r == (0.0, 0.0, 0.0)
    ensures Truthy(GetOpt(telemetry, "gx")) ==> r.0 == Progress(GetOpt(telemetry, "gx").x)
    ensures Truthy(GetOpt(telemetry, "gy")) ==> r.1 == Progress(GetOpt(telemetry, "gy").x)
    ensures Truthy(GetOpt(telemetry, "gz")) ==> r.2 == Progress(GetOpt(telemetry, "gz").x)
    ensures !Truthy(GetOpt(telemetry, "gx")) ==> r.0 == 0.0
    ensures !Truthy(GetOpt(telemetry, "gy")) ==> r.1 == 0.0
    ensures !Truthy(GetOpt(telemetry, "gz")) ==> r.2 == 0.0
  {
    (Progress(Axis(telemetry, "gx").x), Progress(Axis(telemetry, "gy").x), Progress(Axis(telemetry, "gz").x))
  }

  /** Each bar depends on its own axis alone: two readings that agree on gx
      draw the same pitch bar, whatever their other fields. */
  lemma BarsIndependent(t1: Option<map<string, JsValue>>, t2: Option<map<string, JsValue>>)
    requires NumericAxes(t1) && NumericAxes(t2)
    ensures GetOpt(t1, "gx") == GetOpt(t2, "gx") ==> Bars(t1).0 == Bars(t2).0
    ensures GetOpt(t1, "gy") == GetOpt(t2, "gy") ==> Bars(t1).1 == Bars(t2).1
    ensures GetOpt(t1, "gz") == GetOpt(t2, "gz") ==> Bars(t1).2 == Bars(t2).2
  {
  }
}
