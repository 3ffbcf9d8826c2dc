/** The autonomous navigation loop (firmware/Main_Rover/Navigation.h): an
    auto-mode flag and a two-way obstacle rule that drives the shared motor
    controller. The front distance, which the firmware takes from a random
    placeholder, is a parameter. */
module Navigation {
  import opened Arduino
  import opened Motors

  /** Obstacles closer than this many centimetres make the rover turn. */
  const OBSTACLE_CM: real := 30.0
  const CRUISE: int := 150

  /** The command one auto-mode update issues for a front distance: spin
      right when an obstacle is strictly between 0 and 30 cm, otherwise
      drive straight ahead. */
  function Avoidance(distance: real): (c: Command)
    ensures c == Command.Move(0, CRUISE) <==> 0.0 < distance < OBSTACLE_CM
    ensures c == Command.Move(CRUISE, 0) <==> !(0.0 < distance < OBSTACLE_CM)
  {
    if distance < OBSTACLE_CM && distance > 0.0 then Command.Move(0, CRUISE) else Command.Move(CRUISE, 0)
  }

  class NavigationSystem {
    const motors: MotorController
    var autoMode: bool

    /** `NavigationSystem(m)`: shares the controller; auto mode starts off. */
    constructor (m: MotorController)
      ensures motors == m && !autoMode
    {
      motors := m;
      autoMode := false;
    }

    /** `toggleAutonomous(enable)`: set the flag; leaving auto mode also
        stops the motors, entering it changes nothing else. */
    method ToggleAutonomous(enable: bool)
      modifies this, motors
      ensures autoMode == enable
      ensures !enable ==>
        motors.left == STOPPED && motors.right == STOPPED &&
        motors.commands == old(motors.commands) + [Command.Stop]
      ensures enable ==>
        motors.left == old(motors.left) && motors.right == old(motors.right) &&
        motors.commands == old(motors.commands)
      ensures motors.configured == old(motors.configured)
    {
      autoMode := enable;
      if !autoMode {
        motors.Stop();
      }
    }

    /** `update` with the front distance read this turn: nothing happens
        outside auto mode; in auto mode exactly one motor command is issued,
        the one Avoidance chooses. */
    method Update(distance: real)
      modifies motors
      ensures !autoMode ==>
        motors.left == old(motors.left) && motors.right == old(motors.right) &&
        motors.commands == old(motors.commands)
      ensures autoMode ==> motors.commands == old(motors.commands) + [Avoidance(distance)]
      ensures autoMode ==>
        motors.left == Drive(Avoidance(distance).speed + Avoidance(distance).turn) &&
        motors.right == Drive(Avoidance(distance).speed - Avoidance(distance).turn)
      ensures motors.configured == old(motors.configured)
    {
      if !autoMode {
        return;
      }
      if distance < OBSTACLE_CM && distance > 0.0 {
        motors.Move(0, CRUISE);
      } else {
        motors.Move(CRUISE, 0);
      }
    }
  }

  /** What the wheels do in auto mode: near an obstacle the left side runs
      forward and the right side backward at 150 (a spin to the right);
      otherwise both run forward at 150. */
  lemma AvoidanceWheels(distance: real)
    ensures var c := Avoidance(distance);
      0.0 < distance < OBSTACLE_CM ==>
        Drive(c.speed + c.turn) == Bridge(High, Low, 150) && Drive(c.speed - c.turn) == Bridge(Low, High, 150)
    ensures var c := Avoidance(distance);
      !(0.0 < distance < OBSTACLE_CM) ==>
        Drive(c.speed + c.turn) == Bridge(High, Low, 150) && Drive(c.speed - c.turn) == Bridge(High, Low, 150)
  {
  }
}
