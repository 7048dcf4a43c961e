/** The gallery's scene controller: a closed list of nine scenes, a registry
    from scene name to its lazily loaded component, and the state machine that
    unmounts the running scene, waits 200 ms and mounts the chosen one under a
    fresh instance key. The two `setTimeout` callbacks (the 100 ms entrance
    delay and the 200 ms mount delay) are explicit events; `Date.now()` is the
    `now` argument of the event that reads it. */
module SceneController {
  import opened Common

  // ---------------------------------------------------------------------
  // The scene names and the registry
  // ---------------------------------------------------------------------

  datatype SceneName =
    | TextIntro | BuyMeACoffee | Terrain | MorphingParticles | RagingSea
    | FloatingBubbles | BouncingBallShadow | PhysicsGame | RapierPhysics

  /** The button labels, in menu order. */
  const ModelNames: seq<string> := [
    "3D Text Intro", "Buy Me A Coffee", "Terrain", "Morphing Particles", "Raging Sea",
    "Floating Bubbles", "Bouncing Ball Shadow", "Physics Game", "Rapier Physics"
  ]

  /** The position of a scene in the menu. */
  function MenuIndex(n: SceneName): (i: nat)
    ensures i < |ModelNames|
  {
    match n
    case TextIntro => 0
    case BuyMeACoffee => 1
    case Terrain => 2
    case MorphingParticles => 3
    case RagingSea => 4
    case FloatingBubbles => 5
    case BouncingBallShadow => 6
    case PhysicsGame => 7
    case RapierPhysics => 8
  }

  /** The scene's label is the menu entry at its position. */
  function Label(n: SceneName): (s: string)
    ensures s in ModelNames
  {
    ModelNames[MenuIndex(n)]
  }

  /** The scene a label names, if any: the inverse of `Label`. */
  function ParseLabel(s: string): (r: Option<SceneName>)
    ensures r.Some? ==> Label(r.value) == s
    ensures r.None? ==> s !in ModelNames
  {
    if s == "3D Text Intro" then Some(TextIntro)
    else if s == "Buy Me A Coffee" then Some(BuyMeACoffee)
    else if s == "Terrain" then Some(Terrain)
    else if s == "Morphing Particles" then Some(MorphingParticles)
    else if s == "Raging Sea" then Some(RagingSea)
    else if s == "Floating Bubbles" then Some(FloatingBubbles)
    else if s == "Bouncing Ball Shadow" then Some(BouncingBallShadow)
    else if s == "Physics Game" then Some(PhysicsGame)
    else if s == "Rapier Physics" then Some(RapierPhysics)
    else None
  }

  /** Every scene's label reads back as that scene, and the menu lists every
      scene exactly once, each at its own position. */
  lemma LabelRoundTrip(n: SceneName)
    ensures ParseLabel(Label(n)) == Some(n)
    ensures forall i :: 0 <= i < |ModelNames| && ModelNames[i] == Label(n) ==> i == MenuIndex(n)
  {
    var r := ParseLabel(Label(n));
    assert r.Some?;
    assert ModelNames[MenuIndex(r.value)] == ModelNames[MenuIndex(n)];
  }

  /** The lazily imported components. */
  datatype Component =
    | ThreeCanvas | Cofee | TerrainCanvas | CanvasWrapper | WaterScene
    | Particles | Shadow | PhysicsGameCanvas | RapierPhysicsCanvas

  /** The module each component is imported from. */
  function ComponentModule(c: Component): string {
    match c
    case Shadow => "./kuch_to_banega/bouncing_ball_shadow/shadow"
    case Particles => "./kuch_to_banega/floating_bubbles/particles"
    case CanvasWrapper => "./kuch_to_banega/morphing/morphing"
    case ThreeCanvas => "./kuch_to_banega/intro/3dtext"
    case WaterScene => "./kuch_to_banega/raging_sea/raging_sea"
    case Cofee => "./kuch_to_banega/buy me a coffee/coffee"
    case TerrainCanvas => "./kuch_to_banega/terrain/terrain"
    case PhysicsGameCanvas => "./kuch_to_banega/game/canvas"
    case RapierPhysicsCanvas => "./kuch_to_banega/rapier/RapierPhysics"
  }

  /** The `models` record: total on the scene names. */
  function Registry(n: SceneName): (c: Component) {
    match n
    case TextIntro => ThreeCanvas
    case BuyMeACoffee => Cofee
    case Terrain => TerrainCanvas
    case MorphingParticles => CanvasWrapper
    case RagingSea => WaterScene
    case FloatingBubbles => Particles
    case BouncingBallShadow => Shadow
    case PhysicsGame => PhysicsGameCanvas
    case RapierPhysics => RapierPhysicsCanvas
  }

  /** Different components are imported from different modules. */
  lemma ModulesDistinct(c: Component, d: Component)
    requires c != d
    ensures ComponentModule(c) != ComponentModule(d)
  {
  }

  /** Different scenes load different components from different modules. */
  lemma RegistryInjective(a: SceneName, b: SceneName)
    requires a != b
    ensures Registry(a) != Registry(b)
    ensures ComponentModule(Registry(a)) != ComponentModule(Registry(b))
  {
    ModulesDistinct(Registry(a), Registry(b));
  }

  // ---------------------------------------------------------------------
  // The controller's state
  // ---------------------------------------------------------------------

  /** The `model` state: the mounted scene and its instance key. */
  datatype Selection = Selection(name: SceneName, key: string)

  /** The 200 ms callback scheduled by a selection: the scene it will mount,
      and the earliest time it can run. */
  datatype PendingMount = PendingMount(name: SceneName, due: nat)

  datatype AppState = AppState(
    model: Option<Selection>,
    transitioning: bool,
    pending: Option<PendingMount>,
    appReady: bool)

  /** The mount delay, in milliseconds. */
  const MountDelay: nat := 200

  /** The key a scene mounted at time `now` is given. */
  function InstanceKey(now: nat): (k: string)
    ensures |k| > 6 && k[..6] == "scene-"
  {
    "scene-" + Decimal(now)
  }

  /** A transition is in progress exactly while a mount is pending, and then
      no scene is mounted. */
  ghost predicate Inv(st: AppState) {
    (st.transitioning <==> st.pending.Some?) && (st.transitioning ==> st.model.None?)
  }

  function Initial(): (st: AppState)
    ensures st.model.None? && !st.transitioning && !st.appReady
    ensures Inv(st)
  {
    AppState(None, false, None, false)
  }

  /** `handleModelChange(request)` at time `now`. */
  function Change(st: AppState, request: Option<SceneName>, now: nat): (r: AppState)
    ensures st.transitioning ==> r == st
    ensures !st.transitioning && request.None? ==> r == st.(model := None)
    ensures !st.transitioning && request.Some? ==>
              r.transitioning && r.model.None? && r.appReady == st.appReady
              && r.pending == Some(PendingMount(request.value, now + MountDelay))
    ensures Inv(st) ==> Inv(r)
  {
    if st.transitioning then st
    else match request
      case None => st.(model := None)
      case Some(n) => st.(transitioning := true, model := None, pending := Some(PendingMount(n, now + MountDelay)))
  }

  /** The 200 ms callback runs at time `now`: it mounts the scene it was
      scheduled for under the key of the moment, and ends the transition. */
  function Mount(st: AppState, now: nat): (r: AppState)
    requires st.pending.Some? && st.pending.value.due <= now
    ensures r.model == Some(Selection(st.pending.value.name, InstanceKey(now)))
    ensures !r.transitioning && r.pending.None? && r.appReady == st.appReady
    ensures Inv(r)
  {
    AppState(Some(Selection(st.pending.value.name, InstanceKey(now))), false, None, st.appReady)
  }

  /** The 100 ms entrance callback. */
  function BecomeReady(st: AppState): (r: AppState)
    ensures r.appReady
    ensures r.model == st.model && r.transitioning == st.transitioning && r.pending == st.pending
  {
    st.(appReady := true)
  }

  // What the page shows.

  /** The menu card is shown exactly when no scene is mounted. */
  predicate MenuVisible(st: AppState) { st.model.None? }

  /** The Back button is shown exactly when a scene is mounted. */
  predicate BackVisible(st: AppState) { st.model.Some? }

  /** Menu buttons and the Back button are disabled during a transition. */
  predicate ButtonsDisabled(st: AppState) { st.transitioning }

  /** The component rendered inside the scene frame. */
  function ModelComponent(st: AppState): (c: Option<Component>)
    ensures c.Some? <==> BackVisible(st)
    ensures c.Some? ==> c.value == Registry(st.model.value.name)
  {
    match st.model
    case None => None
    case Some(sel) => Some(Registry(sel.name))
  }

  /** Exactly one of the menu and the scene frame is on the page, and during a
      transition it is the menu, with its buttons disabled. */
  lemma ViewsExclusive(st: AppState)
    requires Inv(st)
    ensures MenuVisible(st) != BackVisible(st)
    ensures ButtonsDisabled(st) ==> MenuVisible(st) && ModelComponent(st).None?
  {
  }

  /** A second request while the first one's mount is pending is dropped,
      whether it selects another scene or goes back. */
  lemma SecondRequestDropped(st: AppState, x: SceneName, y: Option<SceneName>, t1: nat, t2: nat)
    requires !st.transitioning
    ensures Change(Change(st, Some(x), t1), y, t2) == Change(st, Some(x), t1)
  {
  }

  /** Choosing a scene from the menu: the menu stays with its buttons
      disabled, then the mount at or after 200 ms shows the scene, and going
      back clears it at once without a transition. */
  lemma SelectThenBack(st: AppState, x: SceneName, t: nat, t': nat, t'': nat)
    requires Inv(st) && !st.transitioning && t + MountDelay <= t'
    ensures var s1 := Change(st, Some(x), t);
            MenuVisible(s1) && ButtonsDisabled(s1)
            && var s2 := Mount(s1, t');
               ModelComponent(s2) == Some(Registry(x)) && !ButtonsDisabled(s2)
               && var s3 := Change(s2, None, t'');
                  MenuVisible(s3) && !ButtonsDisabled(s3)
  {
  }

  // ---------------------------------------------------------------------
  // Event traces: distinct instance keys
  // ---------------------------------------------------------------------

  /** What can happen to the controller, each with the clock reading. A
      `MountTimer` that finds nothing due is not one the page schedules; it
      changes nothing. */
  datatype Event =
    | Request(name: Option<SceneName>, at: nat)
    | MountTimer(at: nat)
    | ReadyTimer(at: nat)

  predicate Mounts(st: AppState, e: Event) {
    e.MountTimer? && st.pending.Some? && st.pending.value.due <= e.at
  }

  function Step(st: AppState, e: Event): (r: AppState)
    ensures Inv(st) ==> Inv(r)
  {
    match e
    case Request(name, at) => Change(st, name, at)
    case MountTimer(at) => if Mounts(st, e) then Mount(st, at) else st
    case ReadyTimer(_) => BecomeReady(st)
  }

  /** The times at which scenes were mounted along a trace, in order. */
  function MountTimes(st: AppState, evs: seq<Event>): seq<nat>
    decreases |evs|
  {
    if |evs| == 0 then []
    else (if Mounts(st, evs[0]) then [evs[0].at] else []) + MountTimes(Step(st, evs[0]), evs[1..])
  }

  /** The clock never goes back, and it reads at least `b` throughout. */
  predicate ClockFrom(evs: seq<Event>, b: nat) {
    (forall i :: 0 <= i < |evs| ==> b <= evs[i].at)
    && (forall i, j :: 0 <= i <= j < |evs| ==> evs[i].at <= evs[j].at)
  }

  predicate StrictlyIncreasing(s: seq<nat>) {
    forall i, j :: 0 <= i < j < |s| ==> s[i] < s[j]
  }

  /** With a clock that never goes back, scenes are mounted at strictly
      increasing times, all later than `b` when any pending mount is due
      after `b`: each mount waits 200 ms after a request made no earlier than
      the previous mount. */
  lemma {:induction false} MountTimesIncrease(st: AppState, evs: seq<Event>, b: nat)
    requires ClockFrom(evs, b)
    requires st.pending.Some? ==> b < st.pending.value.due
    ensures StrictlyIncreasing(MountTimes(st, evs))
    ensures forall i :: 0 <= i < |MountTimes(st, evs)| ==> b < MountTimes(st, evs)[i]
    decreases |evs|
  {
    if |evs| > 0 {
      var e := evs[0];
      var st' := Step(st, e);
      var b' := if Mounts(st, e) then e.at else b;
      assert ClockFrom(evs[1..], b') by {
        forall i | 0 <= i < |evs[1..]|
          ensures b' <= evs[1..][i].at
        {
          assert evs[1..][i] == evs[i + 1];
        }
        forall i, j | 0 <= i <= j < |evs[1..]|
          ensures evs[1..][i].at <= evs[1..][j].at
        {
          assert evs[1..][i] == evs[i + 1] && evs[1..][j] == evs[j + 1];
        }
      }
      if e.Request? && !st.transitioning && e.name.Some? {
        assert b' <= e.at;
      }
      MountTimesIncrease(st', evs[1..], b');
      var rest := MountTimes(st', evs[1..]);
      if Mounts(st, e) {
        assert MountTimes(st, evs) == [e.at] + rest;
      } else {
        assert MountTimes(st, evs) == rest;
      }
    }
  }

  /** The keys of the scenes mounted along a trace. */
  function MountedKeys(st: AppState, evs: seq<Event>): (keys: seq<string>)
    ensures |keys| == |MountTimes(st, evs)|
  {
    var times := MountTimes(st, evs);
    seq(|times|, i requires 0 <= i < |times| => InstanceKey(times[i]))
  }

  /** From the page's first render, with a clock that never goes back, every
      scene instance is mounted under a key no earlier instance had, so each
      mount is a fresh component instance. */
  lemma KeysFresh(evs: seq<Event>)
    requires ClockFrom(evs, 0)
    ensures forall i, j :: 0 <= i < j < |MountedKeys(Initial(), evs)| ==>
              MountedKeys(Initial(), evs)[i] != MountedKeys(Initial(), evs)[j]
  {
    var times := MountTimes(Initial(), evs);
    var keys := MountedKeys(Initial(), evs);
    MountTimesIncrease(Initial(), evs, 0);
    forall i, j | 0 <= i < j < |keys|
      ensures keys[i] != keys[j]
    {
      if keys[i] == keys[j] {
        assert keys[i] == "scene-" + Decimal(times[i]);
        assert keys[j] == "scene-" + Decimal(times[j]);
        PrefixedDecimalInjective("scene-", times[i], times[j]);
      }
    }
  }

  // ---------------------------------------------------------------------
  // The component's state, updated in place
  // ---------------------------------------------------------------------

  class Controller {
    var model: Option<Selection>
    var isTransitioning: bool
    var pending: Option<PendingMount>
    var isAppReady: bool

    function State(): AppState
      reads this
    {
      AppState(model, isTransitioning, pending, isAppReady)
    }

    /** The first render: no scene, no transition, not yet faded in. */
    constructor()
      ensures State() == Initial()
    {
      model := None;
      isTransitioning := false;
      pending := None;
      isAppReady := false;
    }

    method HandleModelChange(modelName: Option<SceneName>, now: nat)
      modifies this
      ensures State() == Change(old(State()), modelName, now)
    {
      if isTransitioning {
        return;
      }
      if modelName.None? {
        model := None;
        return;
      }
      isTransitioning := true;
      model := None;
      pending := Some(PendingMount(modelName.value, now + MountDelay));
    }

    /** The 200 ms callback. */
    method FireMountTimer(now: nat)
      requires pending.Some? && pending.value.due <= now
      modifies this
      ensures State() == Mount(old(State()), now)
    {
      model := Some(Selection(pending.value.name, InstanceKey(now)));
      isTransitioning := false;
      pending := None;
    }

    /** The 100 ms entrance callback. */
    method FireReadyTimer()
      modifies this
      ensures State() == BecomeReady(old(State()))
    {
      isAppReady := true;
    }
  }
}
