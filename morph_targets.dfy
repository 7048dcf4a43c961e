/** The morphing-particles scene: every mesh's position buffer is stretched to
    the largest vertex count so that any two can be morphed into each other,
    and a guarded `morph` swaps the source and target buffers and commits the
    new current index when the animation completes. Values are `real`s;
    `Math.random()` draws are an oracle sequence consumed in order. */
module MorphTargets {
  import opened Common

  // ---------------------------------------------------------------------
  // Position attributes and their collection
  // ---------------------------------------------------------------------

  /** A position `BufferAttribute`: `count` vertices of three components. */
  datatype Attr = Attr(count: nat, data: seq<real>)

  /** What three.js keeps true of a position attribute with item size 3. */
  predicate WellFormed(a: Attr) { |a.data| == 3 * a.count }

  /** A scene-graph object as `traverse` visits it: whether it is a mesh, and
      the position attribute of its geometry, when it has one. */
  datatype SceneObject = SceneObject(isMesh: bool, position: Option<Attr>)

  /** Whether `traverse`'s callback pushes the object's attribute. */
  predicate HasMeshPosition(o: SceneObject) { o.isMesh && o.position.Some? }

  /** The position attributes of the meshes, in traversal order. */
  function MeshPositions(objs: seq<SceneObject>): (attrs: seq<Attr>)
    ensures |attrs| <= |objs|
    ensures forall a :: a in attrs ==> SceneObject(true, Some(a)) in objs
    ensures forall k :: 0 <= k < |objs| && HasMeshPosition(objs[k]) ==> objs[k].position.value in attrs
    ensures (forall k :: 0 <= k < |objs| ==> HasMeshPosition(objs[k])) ==> |attrs| == |objs|
    ensures (forall k :: 0 <= k < |objs| ==> !HasMeshPosition(objs[k])) ==> attrs == []
  {
    if |objs| == 0 then []
    else
      var init := objs[..|objs| - 1];
      var o := objs[|objs| - 1];
      assert forall k :: 0 <= k < |init| ==> init[k] == objs[k];
      MeshPositions(init) + (if HasMeshPosition(o) then [o.position.value] else [])
  }

  /** One more object visited: its attribute is pushed when it has one. */
  lemma MeshPositionsStep(objs: seq<SceneObject>, k: nat)
    requires k < |objs|
    ensures MeshPositions(objs[..k + 1]) ==
            MeshPositions(objs[..k]) + (if HasMeshPosition(objs[k]) then [objs[k].position.value] else [])
  {
    assert objs[..k + 1][..k] == objs[..k];
  }

  /** The `positionsArray` memo: the traversal callback pushes the position
      attribute of every mesh that has one. */
  method CollectPositions(objs: seq<SceneObject>) returns (attrs: seq<Attr>)
    ensures attrs == MeshPositions(objs)
  {
    attrs := [];
    for k := 0 to |objs|
      invariant attrs == MeshPositions(objs[..k])
    {
      MeshPositionsStep(objs, k);
      var obj := objs[k];
      if HasMeshPosition(obj) {
        attrs := attrs + [obj.position.value];
      }
    }
    assert objs[..|objs|] == objs;
  }

  // ---------------------------------------------------------------------
  // maxCount
  // ---------------------------------------------------------------------

  /** `Math.max()` of no arguments is `-Infinity`, and the typed arrays sized
      by it then throw a `RangeError`. */
  datatype MorphError = NoMeshes

  /** `Math.max(...positionsArray.map(a => a.count))`. */
  function MaxCount(attrs: seq<Attr>): (r: Result<nat, MorphError>)
    ensures r.Err? <==> |attrs| == 0
    ensures r.Ok? ==> forall k :: 0 <= k < |attrs| ==> attrs[k].count <= r.value
    ensures r.Ok? ==> exists k :: 0 <= k < |attrs| && attrs[k].count == r.value
  {
    if |attrs| == 0 then Err(NoMeshes)
    else match MaxCount(attrs[1..])
      case Err(_) => Ok(attrs[0].count)
      case Ok(m) =>
        assert forall k :: 1 <= k < |attrs| ==> attrs[k] == attrs[1..][k - 1];
        if attrs[0].count >= m then Ok(attrs[0].count)
        else
          var k :| 0 <= k < |attrs[1..]| && attrs[1..][k].count == m;
          assert attrs[k + 1].count == m;
          Ok(m)
  }

  // ---------------------------------------------------------------------
  // Padding
  // ---------------------------------------------------------------------

  /** Random draws in [0, 1). */
  predicate Draws(r: seq<real>) { forall k :: 0 <= k < |r| ==> 0.0 <= r[k] < 1.0 }

  /** The vertex copied into extra slot `i` (for `src.count <= i`): the
      draw consumed by that slot picks one of the source's own vertices. */
  function CopiedVertex(src: Attr, draws: seq<real>, i: nat): (v: int)
    requires Draws(draws) && src.count <= i < src.count + |draws|
    ensures src.count > 0 ==> 0 <= v < src.count
  {
    RandomIndex(draws[i - src.count], src.count)
  }

  /** Component `o` of vertex slot `i` of the padded buffer: the source's
      own vertex below its count, then the vertex the slot's draw picks, and
      0 when the source has no vertex to copy. */
  function PaddedEntry(src: Attr, draws: seq<real>, i: nat, o: nat): real
    requires WellFormed(src) && Draws(draws) && i < src.count + |draws| && o < 3
  {
    if i < src.count then src.data[3 * i + o]
    else if src.count > 0 then src.data[3 * CopiedVertex(src, draws, i) + o]
    else 0.0
  }

  /** What a padded buffer holds: the source's own entries first, then in
      every extra slot a copy of the source vertex its draw picks, or zeros
      throughout when the source has no vertex. */
  ghost predicate Padded(dst: array<real>, src: Attr, draws: seq<real>)
    reads dst
  {
    && WellFormed(src) && Draws(draws) && dst.Length <= (src.count + |draws|) * 3
    && (forall j :: 0 <= j < dst.Length && j < src.count * 3 ==> dst[j] == src.data[j])
    && (forall j :: 3 * src.count <= j < dst.Length && src.count > 0 ==>
          dst[j] == src.data[3 * CopiedVertex(src, draws, j / 3) + j % 3])
    && (src.count == 0 ==> forall j :: 0 <= j < dst.Length ==> dst[j] == 0.0)
  }

  /** The padded buffer for `src`, stretched to `maxCount` vertices: entry
      `j` is component `j % 3` of vertex slot `j / 3`. Extra slot `i`
      consumes draw `i - src.count`; `draws` holds one per extra slot. */
  method PadAttribute(src: Attr, maxCount: nat, draws: seq<real>) returns (dst: array<real>)
    requires WellFormed(src) && Draws(draws) && |draws| >= maxCount - src.count
    ensures fresh(dst) && dst.Length == maxCount * 3
    ensures Padded(dst, src, draws)
  {
    dst := new real[maxCount * 3](_ => 0.0);
    for i := 0 to maxCount
      invariant forall v, o :: 0 <= v < i && 0 <= o < 3 ==> dst[3 * v + o] == PaddedEntry(src, draws, v, o)
      invariant forall j :: 3 * i <= j < dst.Length ==> dst[j] == 0.0
    {
      WriteSlot(dst, src, draws, i);
    }
    SlotsGiveEntries(dst, src, maxCount, draws);
  }

  /** One iteration of the padding loop: vertex slot `i` is written, every
      other entry is kept. */
  method WriteSlot(dst: array<real>, src: Attr, draws: seq<real>, i: nat)
    requires WellFormed(src) && Draws(draws) && i < src.count + |draws| && 3 * i + 3 <= dst.Length
    requires dst[3 * i] == 0.0 && dst[3 * i + 1] == 0.0 && dst[3 * i + 2] == 0.0
    modifies dst
    ensures forall o :: 0 <= o < 3 ==> dst[3 * i + o] == PaddedEntry(src, draws, i, o)
    ensures forall j :: 0 <= j < dst.Length && !(3 * i <= j < 3 * i + 3) ==> dst[j] == old(dst[j])
  {
    var i3 := i * 3;
    if i3 < |src.data| {
      dst[i3], dst[i3 + 1], dst[i3 + 2] := src.data[i3], src.data[i3 + 1], src.data[i3 + 2];
    } else if src.count > 0 {
      var idx := CopiedVertex(src, draws, i) * 3;
      dst[i3], dst[i3 + 1], dst[i3 + 2] := src.data[idx], src.data[idx + 1], src.data[idx + 2];
      assert idx == 3 * CopiedVertex(src, draws, i);
    }
    forall o | 0 <= o < 3
      ensures dst[3 * i + o] == PaddedEntry(src, draws, i, o)
    {
      assert o == 0 || o == 1 || o == 2;
    }
  }

  /** A buffer whose every vertex slot holds its padded entries: the own
      entries come first, the copied vertices after, and an empty source
      leaves zeros. */
  lemma SlotsGiveEntries(dst: array<real>, src: Attr, maxCount: nat, draws: seq<real>)
    requires WellFormed(src) && Draws(draws) && |draws| >= maxCount - src.count
    requires dst.Length == maxCount * 3
    requires forall v, o :: 0 <= v < maxCount && 0 <= o < 3 ==> dst[3 * v + o] == PaddedEntry(src, draws, v, o)
    ensures forall j :: 0 <= j < dst.Length && j < src.count * 3 ==> dst[j] == src.data[j]
    ensures forall j :: 3 * src.count <= j < dst.Length && src.count > 0 ==>
              dst[j] == src.data[3 * CopiedVertex(src, draws, j / 3) + j % 3]
    ensures src.count == 0 ==> forall j :: 0 <= j < dst.Length ==> dst[j] == 0.0
  {
    forall j | 0 <= j < dst.Length
      ensures dst[j] == PaddedEntry(src, draws, j / 3, j % 3)
    {
      var v, o := j / 3, j % 3;
      assert j == 3 * v + o;
      assert dst[3 * v + o] == PaddedEntry(src, draws, v, o);
    }
  }

  /** The `padded` memo: one new stretched buffer per collected attribute,
      in the same order. `draws[k]` are the draws mesh `k` consumes. */
  method PadAll(attrs: seq<Attr>, maxCount: nat, draws: seq<seq<real>>) returns (padded: seq<array<real>>)
    requires |draws| == |attrs|
    requires forall k :: 0 <= k < |attrs| ==>
               WellFormed(attrs[k]) && Draws(draws[k]) && |draws[k]| >= maxCount - attrs[k].count
    ensures |padded| == |attrs|
    ensures forall k :: 0 <= k < |padded| ==> fresh(padded[k]) && padded[k].Length == maxCount * 3
    ensures forall k, k' :: 0 <= k < k' < |padded| ==> padded[k] != padded[k']
    ensures forall k :: 0 <= k < |padded| ==> Padded(padded[k], attrs[k], draws[k])
  {
    padded := [];
    for k := 0 to |attrs|
      invariant |padded| == k
      invariant forall k' :: 0 <= k' < k ==> fresh(padded[k']) && padded[k'].Length == maxCount * 3
      invariant forall k1, k2 :: 0 <= k1 < k2 < k ==> padded[k1] != padded[k2]
      invariant forall k' :: 0 <= k' < k ==> Padded(padded[k'], attrs[k'], draws[k'])
    {
      var dst := PadAttribute(attrs[k], maxCount, draws[k]);
      padded := padded + [dst];
    }
  }

  /** The `sizesArray` memo: one draw per particle. */
  method SizesArray(maxCount: nat, draws: seq<real>) returns (arr: array<real>)
    requires Draws(draws) && |draws| >= maxCount
    ensures arr.Length == maxCount
    ensures forall i :: 0 <= i < maxCount ==> arr[i] == draws[i] && 0.0 <= arr[i] < 1.0
  {
    arr := new real[maxCount];
    for i := 0 to maxCount
      invariant forall i' :: 0 <= i' < i ==> arr[i'] == draws[i']
    {
      arr[i] := draws[i];
    }
  }

  // ---------------------------------------------------------------------
  // The morph guard and its completion
  // ---------------------------------------------------------------------

  /** The morph state: the committed index, the buffers bound as `position`
      and `aPositionTarget` (indices into `padded`), `uProgress`, and the
      targets of the running tweens in start order (all last two seconds, so
      they complete in that order). */
  datatype MorphView = MorphView(current: nat, position: nat, target: nat, progress: real, running: seq<nat>)

  /** Every index in the state names one of the `n` padded buffers. */
  ghost predicate InRange(st: MorphView, n: nat) {
    st.current < n && st.position < n && st.target < n
    && forall k :: 0 <= k < |st.running| ==> st.running[k] < n
  }

  /** The first render binds `padded[0]` to both attributes. */
  function InitialView(): (st: MorphView)
    ensures st.current == 0 && st.position == 0 && st.target == 0 && st.running == []
  {
    MorphView(0, 0, 0, 0.0, [])
  }

  /** `morph(next)` with `n` padded buffers. */
  function Morph(st: MorphView, n: nat, next: int): (r: MorphView)
    ensures !(0 <= next < n) || next == st.current ==> r == st
    ensures 0 <= next < n && next != st.current ==>
              r.position == st.current && r.target == next && r.progress == 0.0
              && r.current == st.current && r.running == st.running + [next]
    ensures InRange(st, n) ==> InRange(r, n)
  {
    if !(0 <= next < n) || next == st.current then st
    else st.(position := st.current, target := next, progress := 0.0, running := st.running + [next])
  }

  /** The oldest running tween completes. */
  function Complete(st: MorphView): (r: MorphView)
    requires st.running != []
    ensures r.current == st.running[0] && r.running == st.running[1..] && r.progress == 1.0
    ensures r.position == st.position && r.target == st.target
  {
    st.(current := st.running[0], running := st.running[1..], progress := 1.0)
  }

  /** A morph started with no other tween running commits its target once it
      completes, and the buffers then show that target. */
  lemma MorphCommits(st: MorphView, n: nat, next: nat)
    requires InRange(st, n) && st.running == [] && next < n && next != st.current
    ensures Morph(st, n, next).running == [next]
    ensures Complete(Morph(st, n, next)).current == next
    ensures Complete(Morph(st, n, next)).target == next
    ensures Complete(Morph(st, n, next)).running == []
  {
  }

  /** The state the scene keeps across renders. */
  class Morpher {
    const padded: seq<array<real>>
    var current: nat
    var position: nat
    var target: nat
    var progress: real
    var running: seq<nat>

    function View(): MorphView
      reads this
    {
      MorphView(current, position, target, progress, running)
    }

    constructor(padded: seq<array<real>>)
      ensures this.padded == padded && View() == InitialView()
    {
      this.padded := padded;
      current, position, target, progress, running := 0, 0, 0, 0.0, [];
    }

    method DoMorph(nextIdx: int)
      modifies this
      ensures View() == Morph(old(View()), |padded|, nextIdx)
    {
      var from := current;
      if !(0 <= nextIdx < |padded|) || nextIdx == from {
        return;
      }
      position := from;
      target := nextIdx;
      progress := 0.0;
      running := running + [nextIdx];
    }

    /** The `onComplete` callback of the oldest running tween. */
    method OnComplete()
      requires running != []
      modifies this
      ensures View() == Complete(old(View()))
    {
      current := running[0];
      running := running[1..];
      progress := 1.0;
    }
  }

  // ---------------------------------------------------------------------
  // The morph buttons
  // ---------------------------------------------------------------------

  function ButtonLabel(i: nat): string {
    "morphTo_" + Decimal(i)
  }

  /** The `morphButtons` record: the index each button morphs to, under its
      label. */
  method MorphButtons(n: nat) returns (controls: map<string, nat>)
    ensures forall i :: 0 <= i < n ==> ButtonLabel(i) in controls && controls[ButtonLabel(i)] == i
    ensures forall s :: s in controls ==> controls[s] < n && s == ButtonLabel(controls[s])
  {
    controls := map[];
    for i := 0 to n
      invariant forall i' :: 0 <= i' < i ==> ButtonLabel(i') in controls && controls[ButtonLabel(i')] == i'
      invariant forall s :: s in controls ==> controls[s] < i && s == ButtonLabel(controls[s])
    {
      forall i' | 0 <= i' < i
        ensures ButtonLabel(i') != ButtonLabel(i)
      {
        if ButtonLabel(i') == ButtonLabel(i) {
          PrefixedDecimalInjective("morphTo_", i', i);
        }
      }
      controls := controls[ButtonLabel(i) := i];
    }
  }
}
