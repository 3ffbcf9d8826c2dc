/** The quick fire-risk heuristic of the backend's AI engine
    (backend/ai_engine.py), checked against the OLED sender's alert chain. */
module AiEngine {
  import opened Py
  import OledSender

  const RISK_TEMP: real := 70.0
  const RISK_GAS: real := 500.0

  /** `detect_fire_risk(temp, gas)`. */
  function DetectFireRisk(temp: real, gas: real): (r: bool)
    ensures r <==> temp > RISK_TEMP || gas > RISK_GAS
  {
    temp > RISK_TEMP || gas > RISK_GAS
  }

  /** The thresholds themselves are not a risk: a temperature of exactly 70
      with gas at most 500, or gas of exactly 500 with a temperature at
      most 70, is safe. */
  lemma BoundariesAreSafe(temp: real, gas: real)
    requires (temp == RISK_TEMP && gas <= RISK_GAS) || (gas == RISK_GAS && temp <= RISK_TEMP)
    ensures !DetectFireRisk(temp, gas)
  {
  }

  /** Raising the temperature or the gas level never clears a risk. */
  lemma RiskMonotone(temp: real, gas: real, temp': real, gas': real)
    requires temp <= temp' && gas <= gas'
    ensures DetectFireRisk(temp, gas) ==> DetectFireRisk(temp', gas')
  {
  }

  /** While the flame sensor reports no flame, the heuristic agrees with
      the OLED alert: a risk exactly when the alert is FIRE or GAS_HIGH. */
  lemma AgreesWithOledAlert(d: map<string, PyValue>)
    requires OledSender.Readable(d) && NumericOrAbsent(d, "gas")
    requires !OledSender.FlameSeen(OledSender.Flame(d))
    ensures DetectFireRisk(OledSender.Temp(d), GetNum(d, "gas", 0.0)) <==>
      OledSender.AlertOf(d) in {OledSender.Fire, OledSender.GasHigh}
  {
    OledSender.AlertClassification(d);
  }

  /** With a flame reported, the OLED says FIRE even when the heuristic sees
      no risk: the two disagree on a cool, clean reading with the flame flag
      at 0. */
  lemma FlameOnlyOledSeesIt()
    ensures OledSender.AlertOf(map["flame" := PyNum(0.0)]) == OledSender.Fire
    ensures !DetectFireRisk(0.0, 0.0)
  {
    var d := map["flame" := PyNum(0.0)];
    assert OledSender.Flame(d) == PyNum(0.0);
  }
}
