/** The drive motors (firmware/Main_Rover/Motors.h): two H-bridge channels
    of an L298N, each with two direction inputs and a PWM enable, driven by
    differential mixing of a speed and a turn. */
module Motors {
  import opened Arduino

  /** The outputs of one bridge channel: IN1, IN2 and the PWM duty on EN. */
  datatype Bridge = Bridge(in1: Level, in2: Level, duty: int)

  /** Both direction inputs low, no PWM: the channel coasts. */
  const STOPPED: Bridge := Bridge(Low, Low, 0)

  /** The controller commands the navigation code issues. */
  datatype Command = Move(speed: int, turn: int) | Stop

  const INT32_MIN: int := -0x8000_0000
  const INT32_MAX: int := 0x7FFF_FFFF

  /** A 32-bit `int` result as the ESP32 computes it: the mathematical value
      wrapped into the two's-complement range. */
  function Wrap32(x: int): (r: int)
    ensures INT32_MIN <= r <= INT32_MAX
    ensures INT32_MIN <= x <= INT32_MAX ==> r == x
  {
    (x - INT32_MIN) % 0x1_0000_0000 + INT32_MIN
  }

  /** The channel state `setMotor` leaves for a requested speed: the speed
      is clamped to [-255, 255]; a positive speed drives forward (IN1 high),
      a negative one backward (IN2 high), zero leaves both low; the duty is
      the magnitude of the clamped speed. */
  function Drive(speed: int): (b: Bridge)
    ensures 0 <= b.duty <= 255
    ensures b.duty == if Abs(speed) <= 255 then Abs(speed) else 255
    ensures b.in1 == High <==> speed > 0
    ensures b.in2 == High <==> speed < 0
    ensures !(b.in1 == High && b.in2 == High)
  {
    var s := Constrain(speed, -255, 255);
    if s > 0 then Bridge(High, Low, Abs(s))
    else if s < 0 then Bridge(Low, High, Abs(s))
    else Bridge(Low, Low, Abs(s))
  }

  /** The signed speed a bridge state produces, as the motor sees it. */
  function SignedSpeed(b: Bridge): int
  {
    if b.in1 == High && b.in2 == Low then b.duty
    else if b.in1 == Low && b.in2 == High then -b.duty
    else 0
  }

  /** What a motor does under `Drive(speed)` is exactly the requested speed
      clamped to [-255, 255]: the direction pins and the duty together lose
      nothing but the clamping. */
  lemma DriveSignedSpeed(speed: int)
    ensures SignedSpeed(Drive(speed)) == Constrain(speed, -255, 255)
  {
  }

  class MotorController {
    /** The left channel (EN 14, IN1 26, IN2 27) and the right one (EN 15, IN1 32, IN2 33). */
    var left: Bridge
    var right: Bridge
    /** Whether `begin` has made the six pins outputs. */
    var configured: bool
    /** The `move` and `stop` calls made so far, in order. */
    ghost var commands: seq<Command>

    /** The pin levels at power-on are not set by the firmware, so the
        model starts from whatever they are. */
    constructor (left0: Bridge, right0: Bridge)
      ensures left == left0 && right == right0 && !configured && commands == []
    {
      left, right := left0, right0;
      configured := false;
      commands := [];
    }

    /** `begin`: make the pins outputs and stop both channels. */
    method Begin()
      modifies this
      ensures configured
      ensures left == STOPPED && right == STOPPED
      ensures commands == old(commands) + [Command.Stop]
    {
      configured := true;
      Stop();
    }

    /** `move(speed, turn)`: left gets `speed + turn`, right gets
        `speed - turn`, each computed as a 32-bit `int`. */
    method Move(speed: int, turn: int)
      requires INT32_MIN <= speed <= INT32_MAX && INT32_MIN <= turn <= INT32_MAX
      modifies this
      ensures left == Drive(Wrap32(speed + turn))
      ensures right == Drive(Wrap32(speed - turn))
      ensures configured == old(configured)
      ensures commands == old(commands) + [Command.Move(speed, turn)]
    {
      var leftSpeed := Wrap32(speed + turn);
      var rightSpeed := Wrap32(speed - turn);
      SetMotor(1, leftSpeed);
      SetMotor(2, rightSpeed);
      commands := commands + [Command.Move(speed, turn)];
    }

    /** `stop`: all four direction inputs low and both duties 0. */
    method Stop()
      modifies this
      ensures left == STOPPED && right == STOPPED
      ensures configured == old(configured)
      ensures commands == old(commands) + [Command.Stop]
    {
      left := left.(in1 := Low);
      left := left.(in2 := Low);
      left := left.(duty := 0);
      right := right.(in1 := Low);
      right := right.(in2 := Low);
      right := right.(duty := 0);
      commands := commands + [Command.Stop];
    }

    /** `setMotor(motor, speed)`: motor 1 is the left channel and any other
        number the right one; the chosen channel is set as Drive says, pin
        by pin, and the other channel is left alone. */
    method SetMotor(motor: int, speed: int)
      modifies this
      ensures motor == 1 ==> left == Drive(speed) && right == old(right)
      ensures motor != 1 ==> right == Drive(speed) && left == old(left)
      ensures configured == old(configured) && commands == old(commands)
    {
      var b := if motor == 1 then left else right;
      var s := Constrain(speed, -255, 255);
      if s > 0 {
        b := b.(in1 := High);
        b := b.(in2 := Low);
      } else if s < 0 {
        b := b.(in1 := Low);
        b := b.(in2 := High);
      } else {
        b := b.(in1 := Low);
        b := b.(in2 := Low);
      }
      b := b.(duty := Abs(s));
      if motor == 1 {
        left := b;
      } else {
        right := b;
      }
    }
  }

  /** Mixing can ask for more than full speed; the channel then runs at
      full duty in the asked direction, while the other side still gets
      its own mix: `move(200, 100)` gives left forward at 255 and right
      forward at 100. */
  lemma MixSaturates()
    ensures Drive(Wrap32(200 + 100)) == Bridge(High, Low, 255)
    ensures Drive(Wrap32(200 - 100)) == Bridge(High, Low, 100)
  {
  }
}
