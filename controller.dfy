/** The per-frame step of the character controller: the `useFrame` callback
    of src/components/models/character-controller.tsx, lines 79-140. It turns
    the keyboard and pointer state into a movement intent, chooses walk or run
    speed, accumulates the rig's yaw target, picks the animation, writes the
    body's velocity and eases the character's visual yaw. */
module Controller {
  import opened Angles

  datatype Option<T> = None | Some(value: T)

  /** The keyboard flags, whether the mouse button or a touch is held
      (`isClicking`), and the pointer position in normalised screen units. */
  datatype Input = Input(
    forward: bool, backward: bool, left: bool, right: bool, run: bool,
    clicking: bool, mouseX: real, mouseY: real)

  /** The three slider values WALK_SPEED, RUN_SPEED and ROTATION_SPEED. */
  datatype Tuning = Tuning(walkSpeed: real, runSpeed: real, rotationSpeed: real)

  /** `Math.sin`, `Math.cos` and `Math.atan2`, whose values the model does not fix. */
  datatype Trig = Trig(sin: real -> real, cos: real -> real, atan2: (real, real) -> real)

  /** A linear velocity of the rigid body. */
  datatype Vec3 = Vec3(x: real, y: real, z: real)

  /** The local `movement` object: sideways (x) and forward (z) intent. */
  datatype Movement = Movement(x: real, z: real)

  datatype Animation = Idle | Walk | Run

  /** The values the controller keeps from frame to frame: the rig's yaw
      target, the character's facing target, the character group's current
      yaw (`character.current.rotation.y`) and the animation label. */
  datatype MotionState = MotionState(
    rotationTarget: real, characterRotationTarget: real,
    characterYaw: real, animation: Animation)

  /** The sideways intent a drag gives: the mirrored pointer x, or nothing
      inside the dead zone of 0.1. */
  function DragX(input: Input): real
  {
    if Abs(input.mouseX) > 0.1 then -input.mouseX else 0.0
  }

  /** The forward intent a drag gives: the pointer y with a bias of 0.4. */
  function DragZ(input: Input): real
  {
    input.mouseY + 0.4
  }

  /** The movement intent by precedence: on x the right key beats the left
      key, which beats a drag; on z a drag beats the backward key, which beats
      the forward key. */
  function Intent(input: Input): Movement
  {
    Movement(
      if input.right then -1.0
      else if input.left then 1.0
      else if input.clicking then DragX(input)
      else 0.0,
      if input.clicking then DragZ(input)
      else if input.backward then -1.0
      else if input.forward then 1.0
      else 0.0)
  }

  /** A drag far enough from the centre forces run speed; the test uses the
      drag's own intent, before the left and right keys are applied. */
  predicate DragForcesRun(input: Input)
  {
    input.clicking && (Abs(DragX(input)) > 0.5 || Abs(DragZ(input)) > 0.5)
  }

  /** The selected speed: run speed when the run key is held or a drag forces
      it, walk speed otherwise. */
  function Speed(input: Input, tuning: Tuning): real
  {
    if input.run || DragForcesRun(input) then tuning.runSpeed else tuning.walkSpeed
  }

  predicate Moving(m: Movement)
  {
    m.x != 0.0 || m.z != 0.0
  }

  /** The rig's yaw target turns by ROTATION_SPEED times the sideways intent. */
  function Turned(rotationTarget: real, m: Movement, tuning: Tuning): real
  {
    if m.x != 0.0 then rotationTarget + tuning.rotationSpeed * m.x else rotationTarget
  }

  /** The character faces along the intent; without intent it keeps its target. */
  function Facing(characterRotationTarget: real, m: Movement, trig: Trig): real
  {
    if Moving(m) then trig.atan2(m.x, m.z) else characterRotationTarget
  }

  /** With intent, the horizontal velocity points along the heading at the
      selected speed; the vertical part is kept. Without intent the velocity
      read is handed back as it is. */
  function Driven(vel: Vec3, heading: real, m: Movement, speed: real, trig: Trig): Vec3
  {
    if Moving(m) then Vec3(trig.sin(heading) * speed, vel.y, trig.cos(heading) * speed)
    else vel
  }

  /** The animation label: idle without intent, otherwise run exactly when the
      selected speed equals RUN_SPEED. */
  function Label(m: Movement, speed: real, tuning: Tuning): Animation
  {
    if !Moving(m) then Idle else if speed == tuning.runSpeed then Run else Walk
  }

  /** The outcome of one frame on the kept state and the velocity read from
      the body: the new state and the velocity handed back to the body. */
  function Frame(st: MotionState, input: Input, tuning: Tuning, trig: Trig,
                 vel: Vec3, characterAttached: bool): (MotionState, Vec3)
  {
    var m := Intent(input);
    var speed := Speed(input, tuning);
    var rotationTarget := Turned(st.rotationTarget, m, tuning);
    var facing := Facing(st.characterRotationTarget, m, trig);
    var yaw :=
      if characterAttached then LerpedAngle(st.characterYaw, facing, 0.1) else st.characterYaw;
    (MotionState(rotationTarget, facing, yaw, Label(m, speed, tuning)),
     Driven(vel, rotationTarget + facing, m, speed, trig))
  }

  /** The precedence the overwrite order of lines 87-111 produces. */
  lemma MovementPrecedence(input: Input)
    ensures input.clicking ==> Intent(input).z == input.mouseY + 0.4
    ensures !input.clicking && input.backward ==> Intent(input).z == -1.0
    ensures !input.clicking && !input.backward && input.forward ==> Intent(input).z == 1.0
    ensures input.right ==> Intent(input).x == -1.0
    ensures !input.right && input.left ==> Intent(input).x == 1.0
    ensures !input.right && !input.left && input.clicking && Abs(input.mouseX) > 0.1 ==>
      Intent(input).x == -input.mouseX
    ensures !input.right && !input.left && (!input.clicking || Abs(input.mouseX) <= 0.1) ==>
      Intent(input).x == 0.0
  {
  }

  /** Speed selection: the run key or a far drag gives RUN_SPEED, anything
      else WALK_SPEED; the left and right keys play no part in forcing run. */
  lemma SpeedSelection(input: Input, tuning: Tuning)
    ensures input.run ==> Speed(input, tuning) == tuning.runSpeed
    ensures input.clicking && Abs(input.mouseX) > 0.5 ==> Speed(input, tuning) == tuning.runSpeed
    ensures input.clicking && Abs(input.mouseY + 0.4) > 0.5 ==> Speed(input, tuning) == tuning.runSpeed
    ensures (!input.run && !(input.clicking && Abs(input.mouseX) > 0.5) &&
             !(input.clicking && Abs(input.mouseY + 0.4) > 0.5)) ==>
      Speed(input, tuning) == tuning.walkSpeed
  {
  }

  /** A key that sets the sideways intent to 1 or -1 does not force run: only
      the drag's own intent is measured. */
  lemma SideKeyDoesNotForceRun(input: Input, tuning: Tuning)
    requires input.clicking && !input.run && input.right
    requires Abs(input.mouseX) <= 0.5 && Abs(input.mouseY + 0.4) <= 0.5
    ensures Abs(Intent(input).x) > 0.5
    ensures Speed(input, tuning) == tuning.walkSpeed
  {
  }

  /** A drag held at the centre sideways and at -0.4 vertically gives no
      intent, so the frame is idle even though the pointer is down. */
  lemma DragAtRestIsIdle(st: MotionState, input: Input, tuning: Tuning, trig: Trig,
                         vel: Vec3, characterAttached: bool)
    requires input.clicking && !input.left && !input.right
    requires Abs(input.mouseX) <= 0.1 && input.mouseY == -0.4
    ensures Frame(st, input, tuning, trig, vel, characterAttached).0.animation == Idle
    ensures Frame(st, input, tuning, trig, vel, characterAttached).1 == vel
  {
  }

  /** A frame without intent: idle, both targets kept, the velocity read
      handed back unchanged. */
  lemma IdleFrame(st: MotionState, input: Input, tuning: Tuning, trig: Trig,
                  vel: Vec3, characterAttached: bool)
    requires !Moving(Intent(input))
    ensures var (next, out) := Frame(st, input, tuning, trig, vel, characterAttached);
      next.animation == Idle && out == vel &&
      next.rotationTarget == st.rotationTarget &&
      next.characterRotationTarget == st.characterRotationTarget
  {
  }

  /** A frame with intent: the facing target is atan2 of the intent, the
      horizontal velocity follows the summed heading at the selected speed, and
      the animation is run exactly when that speed equals RUN_SPEED. */
  lemma MovingFrame(st: MotionState, input: Input, tuning: Tuning, trig: Trig,
                    vel: Vec3, characterAttached: bool)
    requires Moving(Intent(input))
    ensures var (next, out) := Frame(st, input, tuning, trig, vel, characterAttached);
      var m, speed := Intent(input), Speed(input, tuning);
      var heading := next.rotationTarget + next.characterRotationTarget;
      next.characterRotationTarget == trig.atan2(m.x, m.z) &&
      out.x == trig.sin(heading) * speed && out.z == trig.cos(heading) * speed &&
      next.animation != Idle &&
      (next.animation == Run <==> speed == tuning.runSpeed)
  {
  }

  /** The rig's yaw target moves by exactly ROTATION_SPEED times the sideways
      intent, and not at all without sideways intent. */
  lemma FrameTurn(st: MotionState, input: Input, tuning: Tuning, trig: Trig,
                  vel: Vec3, characterAttached: bool)
    ensures var next := Frame(st, input, tuning, trig, vel, characterAttached).0;
      next.rotationTarget - st.rotationTarget ==
        if Intent(input).x != 0.0 then tuning.rotationSpeed * Intent(input).x else 0.0
  {
  }

  /** The vertical velocity is never changed by a frame. */
  lemma FrameKeepsVerticalVelocity(st: MotionState, input: Input, tuning: Tuning,
                                   trig: Trig, vel: Vec3, characterAttached: bool)
    ensures Frame(st, input, tuning, trig, vel, characterAttached).1.y == vel.y
  {
  }

  /** With the character group attached its yaw lands in [-PI, PI]; without
      it the yaw is left alone. */
  lemma FrameCharacterYaw(st: MotionState, input: Input, tuning: Tuning,
                          trig: Trig, vel: Vec3, characterAttached: bool)
    ensures var next := Frame(st, input, tuning, trig, vel, characterAttached).0;
      if characterAttached then -PI <= next.characterYaw <= PI
      else next.characterYaw == st.characterYaw
  {
  }

  /** Nothing keeps the two speeds apart: with equal speeds every frame with
      intent shows the run animation. */
  lemma EqualSpeedsShowRun(st: MotionState, input: Input, tuning: Tuning, trig: Trig,
                           vel: Vec3, characterAttached: bool)
    requires tuning.walkSpeed == tuning.runSpeed
    requires Moving(Intent(input))
    ensures Frame(st, input, tuning, trig, vel, characterAttached).0.animation == Run
  {
  }

  /** If sine and cosine of the heading satisfy sin^2 + cos^2 = 1, a frame
      with intent sets a horizontal velocity whose length is the speed. */
  lemma MovingSpeedIsSelectedSpeed(st: MotionState, input: Input, tuning: Tuning,
                                   trig: Trig, vel: Vec3, characterAttached: bool)
    requires Moving(Intent(input))
    requires var next := Frame(st, input, tuning, trig, vel, characterAttached).0;
      var heading := next.rotationTarget + next.characterRotationTarget;
      trig.sin(heading) * trig.sin(heading) + trig.cos(heading) * trig.cos(heading) == 1.0
    ensures var out := Frame(st, input, tuning, trig, vel, characterAttached).1;
      var speed := Speed(input, tuning);
      out.x * out.x + out.z * out.z == speed * speed
  {
    var next := Frame(st, input, tuning, trig, vel, characterAttached).0;
    var heading := next.rotationTarget + next.characterRotationTarget;
    UnitScaled(trig.sin(heading), trig.cos(heading), Speed(input, tuning));
  }

  /** A unit vector scaled by k has squared length k * k. */
  lemma UnitScaled(s: real, c: real, k: real)
    requires s * s + c * c == 1.0
    ensures (s * k) * (s * k) + (c * k) * (c * k) == k * k
  {
  }

  /** Holding only the forward key from rest at walk speed, with atan2(0, 1),
      sin 0 and cos 0 at their values: straight ahead along z at walk speed. */
  lemma WalkForwardFromRest(st: MotionState, input: Input, tuning: Tuning, trig: Trig,
                            vel: Vec3, characterAttached: bool)
    requires input == Input(true, false, false, false, false, false, input.mouseX, input.mouseY)
    requires st.rotationTarget == 0.0 && tuning.walkSpeed != tuning.runSpeed
    requires trig.atan2(0.0, 1.0) == 0.0 && trig.sin(0.0) == 0.0 && trig.cos(0.0) == 1.0
    ensures var (next, out) := Frame(st, input, tuning, trig, vel, characterAttached);
      out == Vec3(0.0, vel.y, tuning.walkSpeed) && next.animation == Walk
  {
  }

  /** Lines 82-111: the movement intent, built by overwriting a zero vector in
      the source's order, and the speed, possibly forced to run by a drag. */
  method ReadMovement(input: Input, tuning: Tuning) returns (m: Movement, speed: real)
    ensures m == Intent(input)
    ensures speed == Speed(input, tuning)
  {
    var mx, mz := 0.0, 0.0;
    if input.forward {
      mz := 1.0;
    }
    if input.backward {
      mz := -1.0;
    }
    speed := if input.run then tuning.runSpeed else tuning.walkSpeed;
    if input.clicking {
      if Abs(input.mouseX) > 0.1 {
        mx := -input.mouseX;
      }
      mz := input.mouseY + 0.4;
      if Abs(mx) > 0.5 || Abs(mz) > 0.5 {
        speed := tuning.runSpeed;
      }
    }
    if input.left {
      mx := 1.0;
    }
    if input.right {
      mx := -1.0;
    }
    m := Movement(mx, mz);
  }

  class CharacterController {
    var rotationTarget: real
    var characterRotationTarget: real
    var characterYaw: real
    var animation: Animation

    function State(): MotionState
      reads this
    {
      MotionState(rotationTarget, characterRotationTarget, characterYaw, animation)
    }

    /** Both targets start at 0, the character group unrotated, the animation idle. */
    constructor ()
      ensures State() == MotionState(0.0, 0.0, 0.0, Idle)
    {
      rotationTarget := 0.0;
      characterRotationTarget := 0.0;
      characterYaw := 0.0;
      animation := Idle;
    }

    /** One frame. `body` is the velocity read from the rigid body, or None
        while the body is not attached, in which case nothing happens; the
        result is the velocity passed to `setLinvel`. */
    method Step(input: Input, tuning: Tuning, trig: Trig, body: Option<Vec3>,
                characterAttached: bool) returns (written: Option<Vec3>)
      modifies this
      ensures body.None? ==> written.None? && State() == old(State())
      ensures body.Some? ==>
        written.Some? &&
        (State(), written.value) ==
          Frame(old(State()), input, tuning, trig, body.value, characterAttached)
    {
      if body.None? {
        return None;
      }
      var vel := body.value;
      ghost var st := State();
      var m, speed := ReadMovement(input, tuning);
      if m.x != 0.0 {
        rotationTarget := rotationTarget + tuning.rotationSpeed * m.x;
      }
      assert rotationTarget == Turned(st.rotationTarget, m, tuning);
      if m.x != 0.0 || m.z != 0.0 {
        characterRotationTarget := trig.atan2(m.x, m.z);
        vel := vel.(
          x := trig.sin(rotationTarget + characterRotationTarget) * speed,
          z := trig.cos(rotationTarget + characterRotationTarget) * speed);
        if speed == tuning.runSpeed {
          animation := Run;
        } else {
          animation := Walk;
        }
      } else {
        animation := Idle;
      }
      assert characterRotationTarget == Facing(st.characterRotationTarget, m, trig);
      assert animation == Label(m, speed, tuning);
      assert vel == Driven(body.value, rotationTarget + characterRotationTarget, m, speed, trig);
      if characterAttached {
        characterYaw := LerpAngle(characterYaw, characterRotationTarget, 0.1);
      }
      written := Some(vel);
    }
  }
}
