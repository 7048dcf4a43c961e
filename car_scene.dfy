/** The spline car scene: a module-level table of six held-key flags, set and
    cleared by the window's key listeners, and the impulse the car's frame
    callback accumulates from them. */
module CarScene {

  const Force: real := 20000.0

  datatype Vec3 = Vec3(x: real, y: real, z: real)

  datatype KeyFlags = KeyFlags(forward: bool, backward: bool, left: bool, right: bool, top: bool, bottom: bool)

  /** 1 for a held key, 0 otherwise. */
  function Held(b: bool): real { if b then 1.0 else 0.0 }

  /** The impulse of one frame of length `delta`, in closed form: opposite
      keys cancel along z and x, and along y `top` lifts a thousandth of what
      `bottom` pushes down. */
  function Impulse(k: KeyFlags, delta: real): (v: Vec3)
    ensures !k.forward && !k.backward && !k.left && !k.right && !k.top && !k.bottom ==> v == Vec3(0.0, 0.0, 0.0)
    ensures k.forward && k.backward ==> v.z == 0.0
    ensures k.left && k.right ==> v.x == 0.0
  {
    Vec3(Force * delta * (Held(k.right) - Held(k.left)),
         Force * delta * 0.001 * Held(k.top) - Force * delta * Held(k.bottom),
         Force * delta * (Held(k.forward) - Held(k.backward)))
  }

  function NoFlags(): KeyFlags { KeyFlags(false, false, false, false, false, false) }

  /** The listeners' table. */
  class Keys {
    var forward: bool
    var backward: bool
    var left: bool
    var right: bool
    var top: bool
    var bottom: bool

    function Flags(): KeyFlags
      reads this
    {
      KeyFlags(forward, backward, left, right, top, bottom)
    }

    constructor()
      ensures Flags() == NoFlags()
    {
      forward, backward, left, right, top, bottom := false, false, false, false, false, false;
    }

    /** The `keydown` listener, on `e.code`. */
    method KeyDown(code: string)
      modifies this
      ensures Flags() == Press(old(Flags()), code, true)
    {
      if code == "KeyW" { forward := true; }
      if code == "KeyS" { backward := true; }
      if code == "KeyA" { left := true; }
      if code == "KeyD" { right := true; }
      if code == "KeyE" { top := true; }
      if code == "KeyF" { bottom := true; }
    }

    /** The `keyup` listener, on `e.code`. */
    method KeyUp(code: string)
      modifies this
      ensures Flags() == Press(old(Flags()), code, false)
    {
      if code == "KeyW" { forward := false; }
      if code == "KeyS" { backward := false; }
      if code == "KeyA" { left := false; }
      if code == "KeyD" { right := false; }
      if code == "KeyE" { top := false; }
      if code == "KeyF" { bottom := false; }
    }

    /** The frame callback's accumulation of the impulse, and the rotation it
        passes along, which is never anything but zero. */
    method FrameImpulse(delta: real) returns (impulse: Vec3, rotation: Vec3)
      ensures impulse == Impulse(Flags(), delta)
      ensures rotation == Vec3(0.0, 0.0, 0.0)
    {
      impulse := Vec3(0.0, 0.0, 0.0);
      rotation := Vec3(0.0, 0.0, 0.0);
      if forward { impulse := impulse.(z := impulse.z + Force * delta); }
      if backward { impulse := impulse.(z := impulse.z - Force * delta); }
      if left { impulse := impulse.(x := impulse.x - Force * delta); }
      if right { impulse := impulse.(x := impulse.x + Force * delta); }
      if top { impulse := impulse.(y := impulse.y + Force * delta * 0.001); }
      if bottom { impulse := impulse.(y := impulse.y - Force * delta); }
    }
  }

  /** The flag a key code controls. */
  predicate Controls(code: string) {
    code in {"KeyW", "KeyS", "KeyA", "KeyD", "KeyE", "KeyF"}
  }

  /** The table after a key with code `code` goes down (`down`) or up: the
      code's own flag takes the new value and every other flag is kept. */
  function Press(k: KeyFlags, code: string, down: bool): (r: KeyFlags)
    ensures !Controls(code) ==> r == k
    ensures code == "KeyW" ==> r == k.(forward := down)
    ensures code == "KeyS" ==> r == k.(backward := down)
    ensures code == "KeyA" ==> r == k.(left := down)
    ensures code == "KeyD" ==> r == k.(right := down)
    ensures code == "KeyE" ==> r == k.(top := down)
    ensures code == "KeyF" ==> r == k.(bottom := down)
  {
    if code == "KeyW" then k.(forward := down)
    else if code == "KeyS" then k.(backward := down)
    else if code == "KeyA" then k.(left := down)
    else if code == "KeyD" then k.(right := down)
    else if code == "KeyE" then k.(top := down)
    else if code == "KeyF" then k.(bottom := down)
    else k
  }

  /** A key released after it was pressed leaves the table as releasing it
      alone would; from the initial table, nothing is left held. */
  lemma PressThenRelease(k: KeyFlags, code: string)
    ensures Press(Press(k, code, true), code, false) == Press(k, code, false)
    ensures Press(Press(NoFlags(), code, true), code, false) == NoFlags()
  {
  }
}
