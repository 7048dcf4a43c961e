/** The terrain scene's quality rules: the mesh resolution chosen from the
    detected GPU tier, the pixel-ratio cap chosen from the performance
    setting, and the frame callback that advances the animation clock and
    writes it to the shader on every other sixtieth of a second. */
module Terrain {
  import opened Common

  /** `getTerrainResolution()`; `tier` is `gpu.tier`, absent while the GPU
      is not yet detected. A missing or zero tier is falsy. */
  function TerrainResolution(tier: Option<int>): (res: nat)
    ensures res == 64 || res == 96 || res == 128
    ensures tier == None || tier == Some(0) ==> res == 96
    ensures tier == Some(3) <==> res == 128
    ensures tier == Some(2) ==> res == 96
    ensures res == 64 <==> tier.Some? && tier.value != 0 && tier.value != 2 && tier.value != 3
  {
    if tier.None? || tier.value == 0 then 96
    else if tier.value == 3 then 128
    else if tier.value == 2 then 96
    else 64
  }

  function Min(a: real, b: real): real { if a <= b then a else b }

  /** The pixel ratio set for a performance setting and the device's ratio:
      never above the device's, capped at 1 for "low" and 1.5 for "medium". */
  function PixelRatio(performance: string, dpr: real): (r: real)
    ensures r <= dpr
    ensures performance == "low" ==> r <= 1.0 && (r == dpr || r == 1.0)
    ensures performance == "medium" ==> r <= 1.5 && (r == dpr || r == 1.5)
    ensures performance != "low" && performance != "medium" ==> r == dpr
    ensures performance == "low" || performance == "medium" ==> (dpr <= 1.0 ==> r == dpr)
  {
    if performance == "low" then Min(dpr, 1.0)
    else if performance == "medium" then Min(dpr, 1.5)
    else dpr
  }

  /** The animation clock and the `uTime` uniform. */
  datatype Clock = Clock(time: real, uTime: real)

  /** Whether a frame at clock `t` writes the uniform: `Math.floor(t * 60)` is
      even (for negative values too, as `-0 === 0`). */
  predicate EvenFrame(t: real) { (t * 60.0).Floor % 2 == 0 }

  /** The frame callback, for a mounted mesh and the `animationEnabled` and
      `animationSpeed` controls. */
  function Frame(c: Clock, mounted: bool, enabled: bool, speed: real, delta: real): (r: Clock)
    ensures !(mounted && enabled) ==> r == c
    ensures mounted && enabled ==> r.time == c.time + delta * speed
    ensures r.uTime != c.uTime ==> r.uTime == r.time && EvenFrame(r.time)
    ensures mounted && enabled && EvenFrame(r.time) ==> r.uTime == r.time
    ensures mounted && enabled && !EvenFrame(r.time) ==> r.uTime == c.uTime
  {
    if !mounted || !enabled then c
    else
      var t := c.time + delta * speed;
      if EvenFrame(t) then Clock(t, t) else Clock(t, c.uTime)
  }

  /** The uniform only ever holds a clock reading of an even frame, and never
      runs ahead of the clock while time moves forward. */
  ghost predicate ClockInv(c: Clock) { EvenFrame(c.uTime) && c.uTime <= c.time }

  function InitialClock(): (c: Clock)
    ensures c.time == 0.0 && c.uTime == 0.0
    ensures ClockInv(c)
  {
    Clock(0.0, 0.0)
  }

  /** Frames preserve the invariant when neither the speed nor the elapsed
      time is negative (the speed control ranges over [0, 2]). */
  lemma FramePreservesInv(c: Clock, mounted: bool, enabled: bool, speed: real, delta: real)
    requires ClockInv(c) && speed >= 0.0 && delta >= 0.0
    ensures ClockInv(Frame(c, mounted, enabled, speed, delta))
  {
    assert delta * speed >= 0.0;
  }
}
