/** The water-spray subsystem (firmware/Main_Rover/FireSuppression.h): a
    pump relay and a nozzle servo, with a local over-temperature trigger. */
module FireSuppression {
  import opened Arduino

  /** The nozzle's centre angle, used by `begin` and by default aiming. */
  const CENTER: int := 90
  /** Temperatures strictly above this trigger the spray. */
  const TRIGGER_TEMP: real := 80.0

  /** One output action, in the order the firmware performs them. */
  datatype Output = PumpWrite(level: Level) | NozzleWrite(angle: int)

  class FireSuppressionSystem {
    /** The relay pin level (26): High sprays. */
    var pump: Level
    /** The last angle written to the nozzle servo (pin 27). */
    var nozzle: int
    ghost var outputs: seq<Output>

    /** The relay and servo states before `begin` are not set by the
        firmware, so the model starts from whatever they are. */
    constructor (pump0: Level, nozzle0: int)
      ensures pump == pump0 && nozzle == nozzle0 && outputs == []
    {
      pump, nozzle := pump0, nozzle0;
      outputs := [];
    }

    /** `begin`: pump off, then nozzle centred. */
    method Begin()
      modifies this
      ensures pump == Low && nozzle == CENTER
      ensures outputs == old(outputs) + [PumpWrite(Low), NozzleWrite(CENTER)]
    {
      pump := Low;
      outputs := outputs + [PumpWrite(Low)];
      nozzle := CENTER;
      outputs := outputs + [NozzleWrite(CENTER)];
    }

    /** `activate(targetAngle)`: aim first, then start the pump, so water
        never leaves the nozzle before it points at the target. */
    method Activate(targetAngle: int)
      modifies this
      ensures nozzle == targetAngle && pump == High
      ensures outputs == old(outputs) + [NozzleWrite(targetAngle), PumpWrite(High)]
    {
      nozzle := targetAngle;
      outputs := outputs + [NozzleWrite(targetAngle)];
      pump := High;
      outputs := outputs + [PumpWrite(High)];
    }

    /** `deactivate`: pump off; the nozzle stays where it is. */
    method Deactivate()
      modifies this
      ensures pump == Low && nozzle == old(nozzle)
      ensures outputs == old(outputs) + [PumpWrite(Low)]
    {
      pump := Low;
      outputs := outputs + [PumpWrite(Low)];
    }

    /** `checkAutoTrigger(temperature)`: above 80 degrees, spray at the
        centre angle and report it; otherwise report nothing and change
        nothing. */
    method CheckAutoTrigger(temperature: real) returns (fired: bool)
      modifies this
      ensures fired <==> temperature > TRIGGER_TEMP
      ensures fired ==>
        pump == High && nozzle == CENTER &&
        outputs == old(outputs) + [NozzleWrite(CENTER), PumpWrite(High)]
      ensures !fired ==> pump == old(pump) && nozzle == old(nozzle) && outputs == old(outputs)
    {
      if temperature > TRIGGER_TEMP {
        Activate(CENTER);
        return true;
      }
      return false;
    }
  }

  /** In every run of actions, each pump-on write comes straight after a
      nozzle write: the spray is always aimed first. */
  ghost predicate AimedBeforeSpray(outs: seq<Output>)
  {
    forall i :: 0 <= i < |outs| && outs[i] == PumpWrite(High) ==> i > 0 && outs[i - 1].NozzleWrite?
  }

  /** Any sequence of begin, activate, deactivate and trigger checks keeps
      the aim-before-spray order of the output log. */
  lemma AppendKeepsAimed(outs: seq<Output>, more: seq<Output>)
    requires AimedBeforeSpray(outs)
    requires more in {[PumpWrite(Low), NozzleWrite(CENTER)], [PumpWrite(Low)], []} ||
      (|more| == 2 && more[0].NozzleWrite? && more[1] == PumpWrite(High))
    ensures AimedBeforeSpray(outs + more)
  {
    var all := outs + more;
    forall i | 0 <= i < |all| && all[i] == PumpWrite(High)
      ensures i > 0 && all[i - 1].NozzleWrite?
    {
      if i < |outs| {
        assert all[i] == outs[i];
        assert all[i - 1] == outs[i - 1];
      }
    }
  }
}
