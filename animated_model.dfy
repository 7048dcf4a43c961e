/** The animated car model: four movement flags kept by key-down and key-up
    reducers, the wheels picked out of the loaded scene by name, and the
    frame callback that turns the car, moves it along its heading and spins
    its wheels. The heading vector (a quaternion applied to the local x axis)
    is left out: the model keeps the signed distance driven along it. */
module AnimatedModel {

  datatype MovementKeys = MovementKeys(forward: bool, backward: bool, left: bool, right: bool)

  function NoKeys(): (m: MovementKeys)
    ensures !m.forward && !m.backward && !m.left && !m.right
  {
    MovementKeys(false, false, false, false)
  }

  /** The flag a key controls, if any. */
  predicate IsMovementKey(key: string) { key == "w" || key == "s" || key == "a" || key == "d" }

  /** `handleKeyDown`: an auto-repeated event is ignored; `w`, `s`, `a`, `d`
      set their own flag and leave the others as they were. */
  function KeyDown(prev: MovementKeys, key: string, repeat: bool): (m: MovementKeys)
    ensures repeat || !IsMovementKey(key) ==> m == prev
    ensures !repeat ==> m.forward == (key == "w" || prev.forward) && m.backward == (key == "s" || prev.backward)
                        && m.left == (key == "a" || prev.left) && m.right == (key == "d" || prev.right)
  {
    if repeat then prev
    else prev.(forward := if key == "w" then true else prev.forward,
               backward := if key == "s" then true else prev.backward,
               left := if key == "a" then true else prev.left,
               right := if key == "d" then true else prev.right)
  }

  /** `handleKeyUp`: `w`, `s`, `a`, `d` clear their own flag only. */
  function KeyUp(prev: MovementKeys, key: string): (m: MovementKeys)
    ensures !IsMovementKey(key) ==> m == prev
    ensures m.forward == (key != "w" && prev.forward) && m.backward == (key != "s" && prev.backward)
            && m.left == (key != "a" && prev.left) && m.right == (key != "d" && prev.right)
  {
    prev.(forward := if key == "w" then false else prev.forward,
          backward := if key == "s" then false else prev.backward,
          left := if key == "a" then false else prev.left,
          right := if key == "d" then false else prev.right)
  }

  /** Pressing and releasing a key is the same as releasing it: its flag ends
      false and every other flag is as before the press. */
  lemma PressRelease(prev: MovementKeys, key: string, repeat: bool)
    ensures KeyUp(KeyDown(prev, key, repeat), key) == KeyUp(prev, key)
    ensures key == "w" ==> !KeyUp(KeyDown(prev, key, repeat), key).forward
  {
  }

  /** The driving direction: forward wins when both are held. */
  function Direction(m: MovementKeys): (d: int)
    requires m.forward || m.backward
    ensures d == 1 || d == -1
    ensures d == -1 <==> !m.forward
  {
    if m.forward then 1 else -1
  }

  // ---------------------------------------------------------------------
  // The wheels
  // ---------------------------------------------------------------------

  /** A node of the loaded scene, as `traverse` visits it. */
  datatype Child = Child(isMesh: bool, name: string)

  const WheelNames: seq<string> := ["Cylinder001", "Cylinder007", "Cylinder014", "Cylinder021"]

  predicate IsWheel(c: Child) { c.isMesh && c.name in WheelNames }

  /** The wheel meshes, in traversal order. */
  function Wheels(children: seq<Child>): (ws: seq<Child>)
    ensures forall w :: w in ws ==> IsWheel(w) && w in children
    ensures forall c :: c in children && IsWheel(c) ==> c in ws
  {
    if |children| == 0 then []
    else
      var c := children[|children| - 1];
      Wheels(children[..|children| - 1]) + (if IsWheel(c) then [c] else [])
  }

  /** The effect that collects the wheels. */
  method CollectWheels(children: seq<Child>) returns (wheels: seq<Child>)
    ensures wheels == Wheels(children)
  {
    wheels := [];
    for k := 0 to |children|
      invariant wheels == Wheels(children[..k])
    {
      assert children[..k + 1][..k] == children[..k];
      var child := children[k];
      if child.isMesh && child.name in WheelNames {
        wheels := wheels + [child];
      }
    }
    assert children[..|children|] == children;
  }

  // ---------------------------------------------------------------------
  // The frame callback
  // ---------------------------------------------------------------------

  /** Where the frame leaves the car: yaw and distance driven, for elapsed
      time `delta`. */
  function Yaw(yaw: real, m: MovementKeys, delta: real): (y: real)
    ensures m.left == m.right ==> y == yaw
    ensures m.right && !m.left ==> y == yaw + delta * 6.0
    ensures m.left && !m.right ==> y == yaw - delta * 6.0
  {
    var y1 := if m.left then yaw - delta * 6.0 else yaw;
    if m.right then y1 + delta * 6.0 else y1
  }

  /** The signed distance driven along the heading in one frame. */
  function Travel(m: MovementKeys, delta: real): (t: real)
    ensures !m.forward && !m.backward ==> t == 0.0
    ensures m.forward ==> t == delta * 20.0
    ensures m.backward && !m.forward ==> t == -(delta * 20.0)
  {
    if m.forward || m.backward then delta * 20.0 * (Direction(m) as real) else 0.0
  }

  /** The loaded scene as the frame callback moves it: the group's
      `rotation.y`, the distance driven since it was loaded, and the wheels. */
  class Car {
    var yaw: real
    var travelled: real
    /** The `rotation.y` of each collected wheel mesh. */
    const wheelSpin: array<real>

    /** The scene as loaded: its own `rotation.y` and the `rotation.y` of
        each collected wheel both come from the model file. */
    constructor(loadedYaw: real, loadedSpins: seq<real>)
      ensures yaw == loadedYaw && travelled == 0.0
      ensures wheelSpin[..] == loadedSpins
    {
      yaw := loadedYaw;
      travelled := 0.0;
      wheelSpin := new real[|loadedSpins|](i requires 0 <= i < |loadedSpins| => loadedSpins[i]);
    }

    /** One frame: turn, drive, and spin every wheel by ten times the
        distance driven. */
    method Frame(m: MovementKeys, delta: real)
      modifies this, wheelSpin
      ensures yaw == Yaw(old(yaw), m, delta)
      ensures travelled == old(travelled) + Travel(m, delta)
      ensures forall i :: 0 <= i < wheelSpin.Length ==> wheelSpin[i] == old(wheelSpin[i]) + Travel(m, delta) * 10.0
    {
      var moveSpeed := delta * 20.0;
      var rotateSpeed := delta * 6.0;
      if m.left {
        yaw := yaw - rotateSpeed;
      }
      if m.right {
        yaw := yaw + rotateSpeed;
      }
      if m.forward || m.backward {
        var direction := if m.forward then 1.0 else -1.0;
        travelled := travelled + moveSpeed * direction;
        for i := 0 to wheelSpin.Length
          invariant yaw == Yaw(old(yaw), m, delta) && travelled == old(travelled) + Travel(m, delta)
          invariant forall i' :: 0 <= i' < i ==> wheelSpin[i'] == old(wheelSpin[i']) + moveSpeed * direction * 10.0
          invariant forall i' :: i <= i' < wheelSpin.Length ==> wheelSpin[i'] == old(wheelSpin[i'])
        {
          wheelSpin[i] := wheelSpin[i] + moveSpeed * direction * 10.0;
        }
      }
    }
  }
}
