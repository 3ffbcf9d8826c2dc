/** The inspection arm (firmware/Main_Rover/Arm.h): four hobby servos, a
    home pose and a sweep of the base joint. */
module Arm {

  datatype Joint = Base | Shoulder | Elbow | Gripper

  /** One `Servo.write(angle)` on a joint. */
  datatype ServoWrite = ServoWrite(joint: Joint, angle: int)

  /** The writes of `home`, in order: base, shoulder and elbow to 90, gripper to 0. */
  const HOME_WRITES: seq<ServoWrite> :=
    [ServoWrite(Base, 90), ServoWrite(Shoulder, 90), ServoWrite(Elbow, 90), ServoWrite(Gripper, 0)]

  /** The sweep's bounds and step: `for (i = 45; i < 135; i += 5)`. */
  const SWEEP_START: int := 45
  const SWEEP_END: int := 135
  const SWEEP_STEP: int := 5

  /** The values a counting loop `for (i = from; i < to; i += 5)` takes. */
  function Sweep(from: int, to: int): (r: seq<int>)
    decreases to - from
  {
    if from >= to then [] else [from] + Sweep(from + SWEEP_STEP, to)
  }

  /** A base write for each angle, in order. */
  function BaseWrites(angles: seq<int>): (r: seq<ServoWrite>)
    ensures |r| == |angles| && forall k :: 0 <= k < |angles| ==> r[k] == ServoWrite(Base, angles[k])
  {
    seq(|angles|, k requires 0 <= k < |angles| => ServoWrite(Base, angles[k]))
  }

  class RoboticArm {
    var base: int
    var shoulder: int
    var elbow: int
    var gripper: int
    /** Whether `begin` has attached the four servos to their pins. */
    var attached: bool
    /** Every servo write so far, in order. */
    ghost var writes: seq<ServoWrite>

    /** The servo positions before `begin` are not set by the firmware, so
        the model starts from whatever they are. */
    constructor (b0: int, s0: int, e0: int, g0: int)
      ensures base == b0 && shoulder == s0 && elbow == e0 && gripper == g0
      ensures !attached && writes == []
    {
      base, shoulder, elbow, gripper := b0, s0, e0, g0;
      attached := false;
      writes := [];
    }

    predicate AtHome()
      reads this
    {
      base == 90 && shoulder == 90 && elbow == 90 && gripper == 0
    }

    /** `begin`: attach the servos, then go home. */
    method Begin()
      modifies this
      ensures attached && AtHome()
      ensures writes == old(writes) + HOME_WRITES
    {
      attached := true;
      Home();
    }

    /** `home`. */
    method Home()
      modifies this
      ensures AtHome() && attached == old(attached)
      ensures writes == old(writes) + HOME_WRITES
    {
      SetPose(90, 90, 90, 0);
    }

    /** `setPose(b, s, e, g)`: one write per joint, base to gripper. */
    method SetPose(b: int, s: int, e: int, g: int)
      modifies this
      ensures base == b && shoulder == s && elbow == e && gripper == g
      ensures attached == old(attached)
      ensures writes == old(writes) + [ServoWrite(Base, b), ServoWrite(Shoulder, s), ServoWrite(Elbow, e), ServoWrite(Gripper, g)]
    {
      base := b;
      writes := writes + [ServoWrite(Base, b)];
      shoulder := s;
      writes := writes + [ServoWrite(Shoulder, s)];
      elbow := e;
      writes := writes + [ServoWrite(Elbow, e)];
      gripper := g;
      writes := writes + [ServoWrite(Gripper, g)];
    }

    /** `scanRoutine`: sweep the base through the loop's angles, then go
        home. Only the base is written during the sweep. */
    method ScanRoutine()
      modifies this
      ensures AtHome() && attached == old(attached)
      ensures writes == old(writes) + BaseWrites(Sweep(SWEEP_START, SWEEP_END)) + HOME_WRITES
    {
      var i := SWEEP_START;
      while i < SWEEP_END
        invariant writes + BaseWrites(Sweep(i, SWEEP_END)) == old(writes) + BaseWrites(Sweep(SWEEP_START, SWEEP_END))
        invariant attached == old(attached)
        decreases SWEEP_END - i
      {
        assert BaseWrites(Sweep(i, SWEEP_END)) == [ServoWrite(Base, i)] + BaseWrites(Sweep(i + SWEEP_STEP, SWEEP_END));
        base := i;
        writes := writes + [ServoWrite(Base, i)];
        i := i + SWEEP_STEP;
      }
      assert Sweep(i, SWEEP_END) == [];
      Home();
    }
  }

  /** The sweep visits 45, 50, ..., 130: eighteen angles, increasing by 5,
      all within [45, 130], so the loop's bound 135 is never written. */
  lemma SweepAngles()
    ensures |Sweep(SWEEP_START, SWEEP_END)| == 18
    ensures forall k :: 0 <= k < 18 ==> Sweep(SWEEP_START, SWEEP_END)[k] == 45 + 5 * k
    ensures forall a | a in Sweep(SWEEP_START, SWEEP_END) :: 45 <= a <= 130
    ensures SWEEP_END !in Sweep(SWEEP_START, SWEEP_END)
    ensures forall k :: 0 < k < 18 ==> Sweep(SWEEP_START, SWEEP_END)[k - 1] < Sweep(SWEEP_START, SWEEP_END)[k]
  {
    SweepClosedForm(SWEEP_START, 18);
  }

  /** A sweep that ends exactly on its bound: `n` angles starting at
      `from`, each 5 more than the last. */
  lemma {:induction false} SweepClosedForm(from: int, n: nat)
    ensures |Sweep(from, from + SWEEP_STEP * n)| == n
    ensures forall k :: 0 <= k < n ==> Sweep(from, from + SWEEP_STEP * n)[k] == from + SWEEP_STEP * k
    decreases n
  {
    if n > 0 {
      var to := from + SWEEP_STEP * n;
      assert from + SWEEP_STEP + SWEEP_STEP * (n - 1) == to;
      SweepClosedForm(from + SWEEP_STEP, n - 1);
      var rest := Sweep(from + SWEEP_STEP, to);
      assert rest == Sweep(from + SWEEP_STEP, from + SWEEP_STEP + SWEEP_STEP * (n - 1));
      assert Sweep(from, to) == [from] + rest;
      forall k | 0 < k < n
        ensures Sweep(from, to)[k] == from + SWEEP_STEP * k
      {
        assert Sweep(from, to)[k] == rest[k - 1];
        assert rest[k - 1] == from + SWEEP_STEP + SWEEP_STEP * (k - 1);
      }
    }
  }

  /** The writes of a scan: 18 base writes followed by the home pose, and
      nothing but the base moves before the home pose. */
  lemma ScanWrites()
    ensures |BaseWrites(Sweep(SWEEP_START, SWEEP_END)) + HOME_WRITES| == 22
    ensures forall k :: 0 <= k < 18 ==> (BaseWrites(Sweep(SWEEP_START, SWEEP_END)) + HOME_WRITES)[k].joint == Base
  {
    SweepAngles();
  }
}
