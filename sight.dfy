/** Visibility of an explosion from an entity: the grid traversal of
    `Explosion::raycast` with its helpers `sign` and `boundary`, and the
    sampling loop of `Explosion::getSeenPercent`. */
module Sight {
  import opened Voxels

  /** `sign`: 1, -1 or 0 by the sign of `d`. */
  function Sign(d: real): (r: real)
    ensures r == 1.0 || r == 0.0 || r == -1.0
    ensures r * d >= 0.0
    ensures r == 0.0 <==> d == 0.0
  {
    if d > 0.0 then 1.0 else if d < 0.0 then -1.0 else 0.0
  }

  /** A distance along the ray; `Unbounded` stands for PHP_FLOAT_MAX, which
      `boundary` returns for an axis the ray does not move along. */
  datatype Bound = Finite(t: real) | Unbounded

  /** `<` on bounds, with `Unbounded` above every finite value and not
      below itself. */
  predicate Less(a: Bound, b: Bound) {
    a.Finite? && (b.Unbounded? || a.t < b.t)
  }

  /** `$tMax > $radius`. */
  predicate Beyond(a: Bound, radius: real) {
    a.Unbounded? || a.t > radius
  }

  function Plus(a: Bound, d: real): Bound {
    if a.Unbounded? then Unbounded else Finite(a.t + d)
  }

  /** A non-integer coordinate's negation floors one below the negated floor. */
  lemma FloorNeg(s: real)
    requires s.Floor as real != s
    ensures (-s).Floor == -s.Floor - 1
  {
  }

  /** `boundary`: how far (in units of the ray parameter) the ray must go
      along one axis to reach the next integer plane in the direction of
      travel. Moving up from `start` that is the plane `floor(start) + 1`;
      moving down it is the plane `floor(start)`, reached at once when
      `start` is itself an integer. */
  function Boundary(start: real, d: real): (r: Bound)
    ensures r.Unbounded? <==> d == 0.0
    ensures d > 0.0 ==> r == Finite(((start.Floor + 1) as real - start) / d)
    ensures d < 0.0 ==> r == Finite((start - start.Floor as real) / -d)
    ensures r.Finite? ==> r.t >= 0.0
  {
    if d == 0.0 then Unbounded
    else if d < 0.0 then
      var s := -start;
      var dist := -d;
      if s.Floor as real == s then
        Finite(0.0)
      else
        FloorNeg(start);
        Finite((1.0 - (s - s.Floor as real)) / dist)
    else
      Finite((1.0 - (start - start.Floor as real)) / d)
  }

  /** `$tDelta = $direction == 0 ? 0 : $step / $direction`. */
  function Delta(d: real): (r: real)
    requires -1.0 <= d <= 1.0
    ensures d != 0.0 ==> r >= 1.0
  {
    if d == 0.0 then 0.0
    else
      var r := Sign(d) / d;
      assert d > 0.0 ==> r == 1.0 / d && 1.0 / d >= 1.0;
      assert d < 0.0 ==> r == 1.0 / -d && 1.0 / -d >= 1.0;
      r
  }

  /** `b` is `a` moved by one voxel along exactly one axis, in the direction
      `sign` gives for that axis of the ray. */
  predicate AxisStep(a: Vec3, b: Vec3, dir: Vec3) {
    || (dir.x != 0.0 && b == Vec3(a.x + Sign(dir.x), a.y, a.z))
    || (dir.y != 0.0 && b == Vec3(a.x, a.y + Sign(dir.y), a.z))
    || (dir.z != 0.0 && b == Vec3(a.x, a.y, a.z + Sign(dir.z)))
  }

  /** A direction as `normalize` returns it: every component in [-1, 1]. */
  predicate UnitBounded(dir: Vec3) {
    -1.0 <= dir.x <= 1.0 && -1.0 <= dir.y <= 1.0 && -1.0 <= dir.z <= 1.0
  }

  /** How many more steps an axis can take before it passes `radius`. */
  function Slack(t: Bound, radius: real): nat {
    if t.Finite? && t.t <= radius then ((radius - t.t).Floor + 1) as nat else 0
  }

  lemma SlackDecrease(t: real, d: real, radius: real)
    requires t <= radius && d >= 1.0
    ensures Slack(Finite(t + d), radius) < Slack(Finite(t), radius)
  {
    if t + d <= radius {
      assert (radius - (t + d)).Floor <= (radius - t).Floor - 1;
    }
  }

  function Sub(a: Vec3, b: Vec3): Vec3 {
    Vec3(a.x - b.x, a.y - b.y, a.z - b.z)
  }

  /** The foreign geometry the traversal relies on: `Vector3::normalize`,
      `Vector3::distance`, and `blocked(current, end)`, which stands for
      "the block at `current` is solid and `calculateIntercept(current, end)`
      finds an intersection". */
  datatype Geometry = Geometry(
    normalize: Vec3 -> Vec3,
    distance: (Vec3, Vec3) -> real,
    blocked: (Vec3, Vec3) -> bool)

  /** A normalised vector has every component in [-1, 1]. */
  ghost predicate ValidGeometry(g: Geometry) {
    forall v :: UnitBounded(g.normalize(v))
  }

  /** The state of the grid walk: the current point and the three `tMax`
      values. */
  datatype Walk = Walk(current: Vec3, tMaxX: Bound, tMaxY: Bound, tMaxZ: Bound)

  datatype Axis = AxisX | AxisY | AxisZ

  /** The walk as it starts from `start` in direction `dir`. */
  function StartWalk(start: Vec3, dir: Vec3): Walk {
    Walk(start, Boundary(start.x, dir.x), Boundary(start.y, dir.y), Boundary(start.z, dir.z))
  }

  /** The axis the walk advances next: x when its `tMax` is strictly below
      both others, else y when strictly below z's, else z. */
  function NextAxis(w: Walk): Axis {
    if Less(w.tMaxX, w.tMaxY) && Less(w.tMaxX, w.tMaxZ) then AxisX
    else if Less(w.tMaxY, w.tMaxZ) then AxisY
    else AxisZ
  }

  function AxisBound(w: Walk, a: Axis): Bound {
    match a
    case AxisX => w.tMaxX
    case AxisY => w.tMaxY
    case AxisZ => w.tMaxZ
  }

  /** The walk stops: the `tMax` of the axis it would advance is past the
      length of the line. */
  predicate Done(w: Walk, radius: real) {
    Beyond(AxisBound(w, NextAxis(w)), radius)
  }

  /** One step of the walk: move one voxel along the chosen axis by `sign`
      of that axis, and push that axis's `tMax` on by its `tDelta`. */
  function Advance(w: Walk, dir: Vec3): Walk
    requires UnitBounded(dir)
  {
    match NextAxis(w)
    case AxisX => Walk(Vec3(w.current.x + Sign(dir.x), w.current.y, w.current.z), Plus(w.tMaxX, Delta(dir.x)), w.tMaxY, w.tMaxZ)
    case AxisY => Walk(Vec3(w.current.x, w.current.y + Sign(dir.y), w.current.z), w.tMaxX, Plus(w.tMaxY, Delta(dir.y)), w.tMaxZ)
    case AxisZ => Walk(Vec3(w.current.x, w.current.y, w.current.z + Sign(dir.z)), w.tMaxX, w.tMaxY, Plus(w.tMaxZ, Delta(dir.z)))
  }

  /** A `tMax` is finite exactly for an axis the ray moves along. */
  predicate Tracks(w: Walk, dir: Vec3) {
    (w.tMaxX.Finite? <==> dir.x != 0.0) && (w.tMaxY.Finite? <==> dir.y != 0.0) && (w.tMaxZ.Finite? <==> dir.z != 0.0)
  }

  /** A step of a walk that is not done moves exactly one coordinate, by
      `sign` of a nonzero component of the direction. */
  lemma AdvanceIsAxisStep(w: Walk, dir: Vec3, radius: real)
    requires UnitBounded(dir) && Tracks(w, dir) && !Done(w, radius)
    ensures AxisStep(w.current, Advance(w, dir).current, dir)
    ensures Tracks(Advance(w, dir), dir)
  {
  }

  /** `walk` is a prefix of the walk from `start` in direction `dir` along a
      line of length `radius` towards `end`: it begins at `StartWalk`, each
      state is the `Advance` of the one before, taken only while that one was
      not done and did not see `end` blocked. */
  ghost predicate Walked(walk: seq<Walk>, start: Vec3, end: Vec3, dir: Vec3, radius: real, geo: Geometry)
    requires UnitBounded(dir)
  {
    && |walk| >= 1 && walk[0] == StartWalk(start, dir)
    && (forall i :: 0 <= i < |walk| - 1 ==> !Done(walk[i], radius) && walk[i + 1] == Advance(walk[i], dir))
    && (forall i :: 0 < i < |walk| ==> AxisStep(walk[i - 1].current, walk[i].current, dir))
    && (forall i :: 0 <= i < |walk| - 1 ==> !geo.blocked(walk[i].current, end))
    && Tracks(walk[|walk| - 1], dir)
  }

  /** A walk that is neither done nor blocked extends by one `Advance`. */
  lemma WalkExtend(walk: seq<Walk>, start: Vec3, end: Vec3, dir: Vec3, radius: real, geo: Geometry)
    requires UnitBounded(dir) && Walked(walk, start, end, dir, radius, geo)
    requires !Done(walk[|walk| - 1], radius) && !geo.blocked(walk[|walk| - 1].current, end)
    ensures Walked(walk + [Advance(walk[|walk| - 1], dir)], start, end, dir, radius, geo)
  {
    AdvanceIsAxisStep(walk[|walk| - 1], dir, radius);
  }

  /** `raycast`: the walk from `start` towards `end`. `walk` is the sequence
      of walk states: it begins at `StartWalk`, each state is the `Advance` of
      the one before, taken only while that one was not done, and no point
      before the last is blocked. The walk reports a hit exactly when its last
      point is blocked; a miss means the walk ran past the line's length. */
  method Raycast(start: Vec3, end: Vec3, geo: Geometry)
    returns (hit: bool, ghost walk: seq<Walk>)
    requires ValidGeometry(geo)
    ensures UnitBounded(geo.normalize(Sub(end, start)))
    ensures Walked(walk, start, end, geo.normalize(Sub(end, start)), geo.distance(start, end), geo)
    ensures hit == geo.blocked(walk[|walk| - 1].current, end)
    ensures !hit ==> Done(walk[|walk| - 1], geo.distance(start, end))
  {
    var current := start;
    var dir := geo.normalize(Sub(end, start));
    assert UnitBounded(dir);
    var stepX, stepY, stepZ := Sign(dir.x), Sign(dir.y), Sign(dir.z);
    var tMaxX, tMaxY, tMaxZ := Boundary(start.x, dir.x), Boundary(start.y, dir.y), Boundary(start.z, dir.z);
    var tDeltaX, tDeltaY, tDeltaZ := Delta(dir.x), Delta(dir.y), Delta(dir.z);
    var radius := geo.distance(start, end);
    walk := [StartWalk(start, dir)];
    while true
      invariant Walked(walk, start, end, dir, radius, geo)
      invariant walk[|walk| - 1] == Walk(current, tMaxX, tMaxY, tMaxZ)
      decreases Slack(tMaxX, radius) + Slack(tMaxY, radius) + Slack(tMaxZ, radius)
    {
      if geo.blocked(current, end) {
        return true, walk;
      }
      ghost var w := Walk(current, tMaxX, tMaxY, tMaxZ);
      if Less(tMaxX, tMaxY) && Less(tMaxX, tMaxZ) {
        if Beyond(tMaxX, radius) {
          break;
        }
        current := Vec3(current.x + stepX, current.y, current.z);
        SlackDecrease(tMaxX.t, tDeltaX, radius);
        tMaxX := Plus(tMaxX, tDeltaX);
      } else if Less(tMaxY, tMaxZ) {
        if Beyond(tMaxY, radius) {
          break;
        }
        current := Vec3(current.x, current.y + stepY, current.z);
        SlackDecrease(tMaxY.t, tDeltaY, radius);
        tMaxY := Plus(tMaxY, tDeltaY);
      } else {
        if Beyond(tMaxZ, radius) {
          break;
        }
        current := Vec3(current.x, current.y, current.z + stepZ);
        SlackDecrease(tMaxZ.t, tDeltaZ, radius);
        tMaxZ := Plus(tMaxZ, tDeltaZ);
      }
      assert Walk(current, tMaxX, tMaxY, tMaxZ) == Advance(w, dir);
      WalkExtend(walk, start, end, dir, radius, geo);
      walk := walk + [Walk(current, tMaxX, tMaxY, tMaxZ)];
    }
    return false, walk;
  }

  /** An axis-aligned bounding box (AxisAlignedBB). */
  datatype Box = Box(minX: real, minY: real, minZ: real, maxX: real, maxY: real, maxZ: real)

  /** AxisAlignedBB never has a minimum above its maximum. */
  predicate WellFormed(b: Box) {
    b.minX <= b.maxX && b.minY <= b.maxY && b.minZ <= b.maxZ
  }

  /** `AxisAlignedBB::isVectorInside`: strictly inside on every axis. */
  predicate Inside(b: Box, v: Vec3) {
    b.minX < v.x < b.maxX && b.minY < v.y < b.maxY && b.minZ < v.z < b.maxZ
  }

  /** Iterations left in `for ($i = 0; $i <= 1; $i += $x)` from `i` on. */
  function Left(i: real, x: real): nat
    requires x > 0.0
  {
    if i > 1.0 then 0 else ((1.0 - i) / x).Floor as nat + 1
  }

  lemma LeftDecreases(i: real, x: real)
    requires x > 0.0 && i <= 1.0
    ensures Left(i + x, x) < Left(i, x)
  {
    var a := (1.0 - i) / x;
    assert (a - 1.0) * x == 1.0 - (i + x);
    DivideBack(1.0 - (i + x), a - 1.0, x);
  }

  lemma DivideBack(p: real, q: real, x: real)
    requires x > 0.0 && q * x == p
    ensures p / x == q
  {
    var d := p / x;
    assert d * x == p;
    assert (d - q) * x == 0.0;
  }

  /** The sample spacing along an axis of extent `e`: 1 / (2e + 1). */
  function Spacing(e: real): (x: real)
    requires e >= 0.0
    ensures 0.0 < x <= 1.0
  {
    1.0 / (e * 2.0 + 1.0)
  }

  /** `getSeenPercent`: 1 when `source` is inside the box; otherwise the
      share of sample points on the box whose raycast from `source` found
      nothing in the way (the PHP method counts those as misses). The result is a
      fraction in [0, 1] over at least one sample. */
  method GetSeenPercent(source: Vec3, bb: Box, geo: Geometry)
    returns (f: real, ghost misses: nat, ghost total: nat)
    requires ValidGeometry(geo) && WellFormed(bb)
    ensures Inside(bb, source) ==> f == 1.0
    ensures !Inside(bb, source) ==> 1 <= total && misses <= total && f == misses as real / total as real
    ensures 0.0 <= f <= 1.0
  {
    if Inside(bb, source) {
      return 1.0, 0, 0;
    }
    var x := Spacing(bb.maxX - bb.minX);
    var y := Spacing(bb.maxY - bb.minY);
    var z := Spacing(bb.maxZ - bb.minZ);
    var xOffset := (1.0 - (1.0 / x).Floor as real * x) / 2.0;
    var yOffset := (1.0 - (1.0 / y).Floor as real * y) / 2.0;
    var zOffset := (1.0 - (1.0 / z).Floor as real * z) / 2.0;
    var m: nat, t: nat := 0, 0;
    var i := 0.0;
    while i <= 1.0
      invariant i >= 0.0 && m <= t
      invariant i > 0.0 ==> t >= 1
      decreases Left(i, x)
    {
      ghost var t0 := t;
      var j := 0.0;
      while j <= 1.0
        invariant j >= 0.0 && m <= t && t >= t0
        invariant j > 0.0 ==> t > t0
        decreases Left(j, y)
      {
        ghost var t1 := t;
        var k := 0.0;
        while k <= 1.0
          invariant k >= 0.0 && m <= t && t >= t1
          invariant k > 0.0 ==> t > t1
          decreases Left(k, z)
        {
          var target := Vec3(bb.minX + i * (bb.maxX - bb.minX) + xOffset,
                             bb.minY + j * (bb.maxY - bb.minY) + yOffset,
                             bb.minZ + k * (bb.maxZ - bb.minZ) + zOffset);
          var hit, _ := Raycast(source, target, geo);
          if !hit {
            m := m + 1;
          }
          t := t + 1;
          LeftDecreases(k, z);
          k := k + z;
        }
        LeftDecreases(j, y);
        j := j + y;
      }
      LeftDecreases(i, x);
      i := i + x;
    }
    f := if t != 0 then m as real / t as real else 0.0;
    assert m as real <= t as real;
    return f, m, t;
  }
}
