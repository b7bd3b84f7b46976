/** The ray-marching tracer of `Explosion::explodeA`, as pure functions: one
    voxel visit, one loop iteration, a whole ray, and the sweep over the
    surface of the R x R x R direction cube. The imperative loops in module
    Explosions are proved equal to these functions. */
module Tracer {
  import opened Voxels

  /** Rays per axis of the direction cube. */
  const Rays: int := 16
  /** Length of one march step, in blocks. */
  const StepLen: real := 0.3
  /** Energy every iteration costs through the for-update: stepLen * 0.75. */
  const StepCost: real := 0.225

  /** What stays fixed while rays march. `resistance` is the block registry's
      blast resistance (0 for a state it does not know), `expand` is
      `Block::getAffectedBlocks`, `fireRoll(n)` is the n-th value of
      `mt_rand() / mt_getrandmax()`. */
  datatype Config = Config(
    world: map<Pos, Block>,
    resistance: Block -> real,
    expand: Snapshot -> seq<Snapshot>,
    minHeight: real,
    incendiary: bool,
    fireChance: real,
    fireRoll: nat -> real)

  /** Blast resistances are never negative. */
  ghost predicate ValidConfig(c: Config) {
    forall b :: c.resistance(b) >= 0.0
  }

  /** The state one ray carries: its energy, its pointer, and the explosion's
      affected-block map, ignition set and number of fire rolls drawn. */
  datatype RayState = RayState(
    energy: real,
    pointer: Vec3,
    affected: map<Pos, Snapshot>,
    ignitions: set<Snapshot>,
    draws: nat)

  /** The voxel is loaded and not air: the tracer charges resistance for it. */
  predicate Hit(c: Config, v: Pos) {
    v in c.world && c.world[v] != Air
  }

  /** The energy a voxel costs on top of the per-step cost. */
  function Charge(c: Config, v: Pos): real {
    if Hit(c, v) then (c.resistance(c.world[v]) / 5.0 + 0.3) * StepLen else 0.0
  }

  /** The ignition roll for voxel `v` as the `draws`-th fire roll: it looks
      only at the voxel and the roll, never at the ray's energy or at whether
      the voxel was recorded as destroyed. */
  predicate Ignites(c: Config, draws: nat, v: Pos) {
    c.incendiary && Hit(c, v) && c.fireRoll(draws) <= c.fireChance
  }

  /** Writes every block of `xs` under its own position, later ones winning. */
  function Record(m: map<Pos, Snapshot>, xs: seq<Snapshot>): (r: map<Pos, Snapshot>)
    ensures r.Keys == m.Keys + set x | x in xs :: x.pos
    ensures KeysConsistent(m) ==> KeysConsistent(r)
    ensures forall k :: k in r ==> r[k] in xs || (k in m && r[k] == m[k])
    ensures forall k :: k in m && k !in (set x | x in xs :: x.pos) ==> r[k] == m[k]
    decreases |xs|
  {
    if xs == [] then m
    else
      var last := xs[|xs| - 1];
      var r0 := Record(m, xs[..|xs| - 1]);
      assert forall x :: x in xs <==> x in xs[..|xs| - 1] || x == last;
      r0[last.pos := last]
  }

  /** Later blocks win: under every position some block of `xs` sits at,
      the record holds the last such block. */
  lemma {:induction false} RecordLastWins(m: map<Pos, Snapshot>, xs: seq<Snapshot>, k: Pos)
    requires LastIndex(xs, k) >= 0
    ensures k in Record(m, xs) && Record(m, xs)[k] == xs[LastIndex(xs, k)]
    decreases |xs|
  {
    var n := |xs| - 1;
    if xs[n].pos != k {
      RecordLastWins(m, xs[..n], k);
    }
  }

  /** The body of the march loop for voxel `v` (Explosion.php lines 100-124), after the
      pointer has moved on: skip an unloaded or air voxel; otherwise charge its
      resistance, record its affected blocks if energy remains, the voxel is
      at or above the minimum height and not yet recorded, and roll for
      ignition independently of all that. */
  function Visit(c: Config, s: RayState, v: Pos): (r: RayState)
    requires ValidConfig(c)
    ensures r.pointer == s.pointer
    ensures r.energy == s.energy - Charge(c, v) && r.energy <= s.energy
    ensures s.affected.Keys <= r.affected.Keys
    ensures KeysConsistent(s.affected) ==> KeysConsistent(r.affected)
    ensures r.affected != s.affected ==>
              Hit(c, v) && r.energy > 0.0 && v.y as real >= c.minHeight && v !in s.affected
    ensures Hit(c, v) && r.energy > 0.0 && v.y as real >= c.minHeight && v !in s.affected ==>
              r.affected == Record(s.affected, c.expand(Snapshot(v, c.world[v])))
    ensures forall k :: k in r.affected ==>
              (k in s.affected && r.affected[k] == s.affected[k]) ||
              (Hit(c, v) && v.y as real >= c.minHeight && r.affected[k] in c.expand(Snapshot(v, c.world[v])))
    ensures r.ignitions == if Ignites(c, s.draws, v) then s.ignitions + {Snapshot(v, c.world[v])} else s.ignitions
    ensures r.draws == if c.incendiary && Hit(c, v) then s.draws + 1 else s.draws
  {
    if !Hit(c, v) then s
    else
      var b := c.world[v];
      assert c.resistance(b) >= 0.0;
      var e := s.energy - (c.resistance(b) / 5.0 + 0.3) * StepLen;
      var aff := if e > 0.0 && v.y as real >= c.minHeight && v !in s.affected
                 then Record(s.affected, c.expand(Snapshot(v, b)))
                 else s.affected;
      var ign := if c.incendiary && c.fireRoll(s.draws) <= c.fireChance
                 then s.ignitions + {Snapshot(v, b)}
                 else s.ignitions;
      var d := if c.incendiary then s.draws + 1 else s.draws;
      RayState(e, s.pointer, aff, ign, d)
  }

  /** One iteration of the march loop: floor the pointer to a voxel, move the
      pointer by `step`, visit the voxel, then pay the per-step cost (which the
      for-update also pays after a `continue`). */
  function Step(c: Config, step: Vec3, s: RayState): (r: RayState)
    requires ValidConfig(c)
    ensures r.pointer == Add(s.pointer, step)
    ensures r.energy == s.energy - Charge(c, FloorPos(s.pointer)) - StepCost
    ensures r.energy <= s.energy - StepCost
  {
    var t := Visit(c, s.(pointer := Add(s.pointer, step)), FloorPos(s.pointer));
    t.(energy := t.energy - StepCost)
  }

  /** A measure of the energy left, in whole step costs. */
  function Units(e: real): nat {
    if e <= 0.0 then 0 else ((e / StepCost).Floor + 1) as nat
  }

  /** Losing at least one step cost of positive energy lowers the measure. */
  lemma UnitsDecrease(e: real, e': real)
    requires e > 0.0 && e' <= e - StepCost
    ensures Units(e') < Units(e)
  {
    if e' > 0.0 {
      assert e' / StepCost <= e / StepCost - 1.0;
      assert (e' / StepCost).Floor <= (e / StepCost).Floor - 1;
    }
  }

  lemma StepDecreases(c: Config, step: Vec3, s: RayState)
    requires ValidConfig(c) && s.energy > 0.0
    ensures Step(c, step, s).energy <= s.energy - StepCost
    ensures Units(Step(c, step, s).energy) < Units(s.energy)
  {
    UnitsDecrease(s.energy, Step(c, step, s).energy);
  }

  /** A whole ray: iterate while energy is positive. Every ray terminates
      (the measure `Units` falls on each step) with energy at most zero. */
  function Trace(c: Config, step: Vec3, s: RayState): (r: RayState)
    requires ValidConfig(c)
    ensures r.energy <= 0.0
    ensures s.affected.Keys <= r.affected.Keys
    ensures KeysConsistent(s.affected) ==> KeysConsistent(r.affected)
    ensures s.ignitions <= r.ignitions
    ensures !c.incendiary ==> r.ignitions == s.ignitions && r.draws == s.draws
    decreases Units(s.energy)
  {
    if s.energy <= 0.0 then s
    else
      StepDecreases(c, step, s);
      Trace(c, step, Step(c, step, s))
  }

  /** The voxels a ray visits, in order. */
  function Cells(c: Config, step: Vec3, s: RayState): seq<Pos>
    requires ValidConfig(c)
    decreases Units(s.energy)
  {
    if s.energy <= 0.0 then []
    else
      StepDecreases(c, step, s);
      [FloorPos(s.pointer)] + Cells(c, step, Step(c, step, s))
  }

  /** The energy charged along a sequence of voxels. */
  function Charges(c: Config, vs: seq<Pos>): real {
    if vs == [] then 0.0 else Charge(c, vs[0]) + Charges(c, vs[1..])
  }

  /** A ray takes at most `Units(energy)` steps. */
  lemma {:induction false} TraceStepBound(c: Config, step: Vec3, s: RayState)
    requires ValidConfig(c)
    ensures |Cells(c, step, s)| <= Units(s.energy)
    decreases Units(s.energy)
  {
    if s.energy > 0.0 {
      StepDecreases(c, step, s);
      TraceStepBound(c, step, Step(c, step, s));
    }
  }

  /** Moving by `step` and then by `n` steps is moving by `n + 1` steps. */
  lemma AddScaleSucc(p: Vec3, step: Vec3, n: real)
    ensures Add(Add(p, step), Scale(step, n)) == Add(p, Scale(step, n + 1.0))
  {
    assert step.x * (n + 1.0) == step.x * n + step.x;
    assert step.y * (n + 1.0) == step.y * n + step.y;
    assert step.z * (n + 1.0) == step.z * n + step.z;
  }

  lemma AddScaleZero(p: Vec3, step: Vec3)
    ensures Add(p, Scale(step, 0.0)) == p
  {
  }

  /** After a ray, the pointer has moved by exactly one step per iteration. */
  lemma {:induction false} TracePointer(c: Config, step: Vec3, s: RayState)
    requires ValidConfig(c)
    ensures Trace(c, step, s).pointer == Add(s.pointer, Scale(step, |Cells(c, step, s)| as real))
    decreases Units(s.energy)
  {
    if s.energy > 0.0 {
      StepDecreases(c, step, s);
      var t := Step(c, step, s);
      TracePointer(c, step, t);
      var n := |Cells(c, step, t)|;
      AddScaleSucc(s.pointer, step, n as real);
    } else {
      AddScaleZero(s.pointer, step);
    }
  }

  /** The i-th voxel a ray visits is the floor of `pointer + i * step`: the
      pointer advances by the same step on every iteration, including skipped
      ones, and the visit reads the voxel before the pointer moves. */
  lemma {:induction false} TraceCells(c: Config, step: Vec3, s: RayState, i: nat)
    requires ValidConfig(c)
    requires i < |Cells(c, step, s)|
    ensures Cells(c, step, s)[i] == FloorPos(Add(s.pointer, Scale(step, i as real)))
    decreases i
  {
    StepDecreases(c, step, s);
    var t := Step(c, step, s);
    if i == 0 {
      AddScaleZero(s.pointer, step);
    } else {
      assert Cells(c, step, s)[i] == Cells(c, step, t)[i - 1];
      TraceCells(c, step, t, i - 1);
      AddScaleSucc(s.pointer, step, (i - 1) as real);
    }
  }

  /** Energy accounting for a whole ray: the final energy is the start energy
      less one step cost per iteration and the charge of every loaded
      non-air voxel visited. */
  lemma {:induction false} TraceEnergy(c: Config, step: Vec3, s: RayState)
    requires ValidConfig(c)
    ensures var cs := Cells(c, step, s);
            Trace(c, step, s).energy == s.energy - StepCost * |cs| as real - Charges(c, cs)
    decreases Units(s.energy)
  {
    if s.energy > 0.0 {
      StepDecreases(c, step, s);
      var t := Step(c, step, s);
      TraceEnergy(c, step, t);
      var cs := Cells(c, step, s);
      assert cs[1..] == Cells(c, step, t);
    }
  }

  /** Every ignition a ray adds is a snapshot of a loaded, non-air voxel it
      visited, as that voxel is in the world. */
  lemma {:induction false} TraceIgnitions(c: Config, step: Vec3, s: RayState)
    requires ValidConfig(c)
    ensures forall g :: g in Trace(c, step, s).ignitions - s.ignitions ==>
              g.pos in Cells(c, step, s) && Hit(c, g.pos) && g.block == c.world[g.pos]
    decreases Units(s.energy)
  {
    if s.energy > 0.0 {
      StepDecreases(c, step, s);
      TraceIgnitions(c, step, Step(c, step, s));
    }
  }

  /** `g` is one of the blocks a visited, loaded, non-air voxel at or above
      the minimum height declares as affected together with it. */
  ghost predicate FromVisited(c: Config, cells: seq<Pos>, g: Snapshot) {
    exists v :: v in cells && Hit(c, v) && v.y as real >= c.minHeight && g in c.expand(Snapshot(v, c.world[v]))
  }

  /** Every entry of the affected map after a ray is either an entry that was
      there before, untouched, or a block from the expansion of a voxel the
      ray visited at or above the minimum height. */
  lemma {:induction false} TraceRecords(c: Config, step: Vec3, s: RayState)
    requires ValidConfig(c)
    ensures var r := Trace(c, step, s);
            forall k :: k in r.affected ==>
              (k in s.affected && r.affected[k] == s.affected[k]) ||
              FromVisited(c, Cells(c, step, s), r.affected[k])
    decreases Units(s.energy)
  {
    if s.energy > 0.0 {
      StepDecreases(c, step, s);
      var v := FloorPos(s.pointer);
      var t := Step(c, step, s);
      TraceRecords(c, step, t);
      var r := Trace(c, step, s);
      var cs := Cells(c, step, s);
      assert cs == [v] + Cells(c, step, t);
      forall k | k in r.affected && !(k in s.affected && r.affected[k] == s.affected[k])
        ensures FromVisited(c, cs, r.affected[k])
      {
        if k in t.affected && r.affected[k] == t.affected[k] {
          assert v in cs;
        } else {
          var w :| w in Cells(c, step, t) && Hit(c, w) && w.y as real >= c.minHeight &&
                   r.affected[k] in c.expand(Snapshot(w, c.world[w]));
          assert w in cs;
        }
      }
    }
  }

  /** The index triple lies on the surface of the direction cube. */
  predicate Selected(i: int, j: int, k: int) {
    i == 0 || i == Rays - 1 || j == 0 || j == Rays - 1 || k == 0 || k == Rays - 1
  }

  /** `$i / $mRays * 2 - 1`: index 0 maps to -1 and index Rays - 1 to 1. */
  function ShiftComponent(i: int): real {
    i as real / (Rays - 1) as real * 2.0 - 1.0
  }

  function Shift(i: int, j: int, k: int): Vec3 {
    Vec3(ShiftComponent(i), ShiftComponent(j), ShiftComponent(k))
  }

  function SqLen(v: Vec3): real {
    v.x * v.x + v.y * v.y + v.z * v.z
  }

  /** A shift component of an index in range lies in [-1, 1]. */
  lemma ShiftComponentRange(i: int)
    requires 0 <= i < Rays
    ensures -1.0 <= ShiftComponent(i) <= 1.0
    ensures ShiftComponent(i) * ShiftComponent(i) >= 0.0
    ensures (i == 0 || i == Rays - 1) ==> ShiftComponent(i) * ShiftComponent(i) == 1.0
  {
    var x := ShiftComponent(i);
    if x < 0.0 {
      assert x * x == (-x) * (-x);
    }
  }

  /** A selected triple has a component equal to -1 or 1, so its squared
      length is at least 1 and normalising it never divides by zero. */
  lemma ShiftNonZero(i: int, j: int, k: int)
    requires 0 <= i < Rays && 0 <= j < Rays && 0 <= k < Rays
    requires Selected(i, j, k)
    ensures SqLen(Shift(i, j, k)) >= 1.0
  {
    ShiftComponentRange(i);
    ShiftComponentRange(j);
    ShiftComponentRange(k);
  }

  lemma MulNonNegative(a: real, b: real)
    requires a >= 0.0 && b >= 0.0
    ensures a * b >= 0.0
  {
  }

  lemma MulPositive(a: real, b: real)
    requires a > 0.0 && b > 0.0
    ensures a * b > 0.0
  {
  }

  /** The fraction `f` in [0.7, 1.301] of a radius lies between 0.7 and
      1.301 times a non-negative radius. */
  lemma ScaleBetween(radius: real, f: real, e: real)
    requires 0.7 <= f <= 1.301 && e == radius * f
    ensures radius >= 0.0 ==> 0.7 * radius <= e <= 1.301 * radius
    ensures radius > 0.0 ==> e > 0.0
  {
    if radius >= 0.0 {
      MulNonNegative(radius, f - 0.7);
      MulNonNegative(radius, 1.301 - f);
      assert e - 0.7 * radius == radius * (f - 0.7);
      assert 1.301 * radius - e == radius * (1.301 - f);
    }
    if radius > 0.0 {
      MulPositive(radius, f);
    }
  }

  /** The initial energy of a ray: `radius * (mt_rand(700, 1301) / 1000)`. */
  function InitialEnergy(radius: real, roll: int): (e: real)
    requires 700 <= roll <= 1301
    ensures radius >= 0.0 ==> 0.7 * radius <= e <= 1.301 * radius
    ensures radius > 0.0 ==> e > 0.0
  {
    var f := roll as real / 1000.0;
    var e := radius * f;
    ScaleBetween(radius, f, e);
    e
  }

  /** Everything the sweep over all rays needs: the tracer configuration, the
      source, the radius, the normalisation of a vector, and `forceRoll(n)`,
      the n-th value of `mt_rand(700, 1301)`. */
  datatype Blast = Blast(
    tracer: Config,
    source: Vec3,
    radius: real,
    unit: Vec3 -> Vec3,
    forceRoll: nat -> int)

  ghost predicate ValidBlast(b: Blast) {
    ValidConfig(b.tracer) && forall n: nat :: 700 <= b.forceRoll(n) <= 1301
  }

  /** What the sweep carries from ray to ray. */
  datatype SweepState = SweepState(
    affected: map<Pos, Snapshot>,
    ignitions: set<Snapshot>,
    draws: nat,
    rays: nat)

  /** The step vector of ray (i, j, k): the normalised shift times stepLen. */
  function RayStep(b: Blast, i: int, j: int, k: int): Vec3 {
    Scale(b.unit(Shift(i, j, k)), StepLen)
  }

  /** The body of the innermost loop: march ray (i, j, k) if it is selected. */
  function Ray(b: Blast, i: int, j: int, k: int, st: SweepState): (r: SweepState)
    requires ValidBlast(b)
    ensures r.rays == if Selected(i, j, k) then st.rays + 1 else st.rays
    ensures !Selected(i, j, k) ==> r == st
  {
    if !Selected(i, j, k) then st
    else
      var e := InitialEnergy(b.radius, b.forceRoll(st.rays));
      var t := Trace(b.tracer, RayStep(b, i, j, k), RayState(e, b.source, st.affected, st.ignitions, st.draws));
      SweepState(t.affected, t.ignitions, t.draws, st.rays + 1)
  }

  /** A ray only adds: affected positions stay affected, the affected map
      stays keyed by position, and recorded ignitions stay recorded. */
  lemma RayGrows(b: Blast, i: int, j: int, k: int, st: SweepState)
    requires ValidBlast(b)
    ensures var r := Ray(b, i, j, k, st);
            st.affected.Keys <= r.affected.Keys &&
            (KeysConsistent(st.affected) ==> KeysConsistent(r.affected)) &&
            st.ignitions <= r.ignitions
  {
  }

  /** Rays a row (i, j) selects from index k on. */
  function KCount(i: int, j: int, k: int): int {
    if i == 0 || i == Rays - 1 || j == 0 || j == Rays - 1 then Rays - k
    else (if k == 0 then 1 else 0) + (if k < Rays then 1 else 0)
  }

  /** Rays a layer i selects from row j on: 16 per row in a face layer;
      otherwise 2 per row plus 14 more in each of the face rows 0 and 15. */
  function JCount(i: int, j: int): int {
    if i == 0 || i == Rays - 1 then 16 * (Rays - j)
    else 2 * (Rays - j) + 14 * ((if j == 0 then 1 else 0) + (if j < Rays then 1 else 0))
  }

  /** Rays the cube selects from layer i on: 60 per inner layer, and 196
      more in each of the face layers 0 and 15 (256 = 60 + 196). */
  function ICount(i: int): int {
    60 * (Rays - i) + 196 * ((if i == 0 then 1 else 0) + (if i < Rays then 1 else 0))
  }

  /** A layer's rays are its first row's plus the rest. */
  lemma JCountStep(i: int, j: int)
    requires 0 <= j < Rays
    ensures JCount(i, j) == KCount(i, j, 0) + JCount(i, j + 1)
  {
  }

  /** The cube's rays are its first layer's plus the rest. */
  lemma ICountStep(i: int)
    requires 0 <= i < Rays
    ensures ICount(i) == JCount(i, 0) + ICount(i + 1)
  {
  }

  /** The innermost loop, from index k on. Like every ray, each of the three
      loops only adds affected positions and ignitions and keeps the affected
      map keyed by position. The state is part of the measure of the three
      sweep functions only so that the verifier never unfolds them on literal
      indices alone. */
  function SweepK(b: Blast, i: int, j: int, k: int, st: SweepState): (r: SweepState)
    requires ValidBlast(b) && 0 <= k <= Rays
    ensures st.affected.Keys <= r.affected.Keys && st.ignitions <= r.ignitions
    ensures KeysConsistent(st.affected) ==> KeysConsistent(r.affected)
    decreases Rays - k, st
  {
    if k == Rays then st
    else
      RayGrows(b, i, j, k, st);
      SweepK(b, i, j, k + 1, Ray(b, i, j, k, st))
  }

  /** The middle loop, from row j on. */
  function SweepJ(b: Blast, i: int, j: int, st: SweepState): (r: SweepState)
    requires ValidBlast(b) && 0 <= j <= Rays
    ensures st.affected.Keys <= r.affected.Keys && st.ignitions <= r.ignitions
    ensures KeysConsistent(st.affected) ==> KeysConsistent(r.affected)
    decreases Rays - j, st
  {
    if j == Rays then st else SweepJ(b, i, j + 1, SweepK(b, i, j, 0, st))
  }

  /** The outer loop, from layer i on. */
  function SweepI(b: Blast, i: int, st: SweepState): (r: SweepState)
    requires ValidBlast(b) && 0 <= i <= Rays
    ensures st.affected.Keys <= r.affected.Keys && st.ignitions <= r.ignitions
    ensures KeysConsistent(st.affected) ==> KeysConsistent(r.affected)
    decreases Rays - i, st
  {
    if i == Rays then st else SweepI(b, i + 1, SweepJ(b, i, 0, st))
  }

  /** Row (i, j) from index k on marches KCount(i, j, k) rays. */
  lemma {:induction false} SweepKCount(b: Blast, i: int, j: int, k: int, st: SweepState)
    requires ValidBlast(b) && 0 <= k <= Rays
    ensures SweepK(b, i, j, k, st).rays == st.rays + KCount(i, j, k)
    decreases Rays - k
  {
    if k < Rays {
      SweepKCount(b, i, j, k + 1, Ray(b, i, j, k, st));
    }
  }

  /** Layer i from row j on marches JCount(i, j) rays. */
  lemma {:induction false} SweepJCount(b: Blast, i: int, j: int, st: SweepState)
    requires ValidBlast(b) && 0 <= j <= Rays
    ensures SweepJ(b, i, j, st).rays == st.rays + JCount(i, j)
    decreases Rays - j
  {
    if j < Rays {
      SweepKCount(b, i, j, 0, st);
      SweepJCount(b, i, j + 1, SweepK(b, i, j, 0, st));
      JCountStep(i, j);
    }
  }

  /** The cube from layer i on marches ICount(i) rays. */
  lemma {:induction false} SweepICount(b: Blast, i: int, st: SweepState)
    requires ValidBlast(b) && 0 <= i <= Rays
    ensures SweepI(b, i, st).rays == st.rays + ICount(i)
    decreases Rays - i
  {
    if i < Rays {
      SweepJCount(b, i, 0, st);
      SweepICount(b, i + 1, SweepJ(b, i, 0, st));
      ICountStep(i);
    }
  }

  /** The number of index triples on the surface of an r x r x r cube. */
  function Shell(r: int): int {
    r * r * r - (r - 2) * (r - 2) * (r - 2)
  }

  /** The closed form of the count agrees with the surface of the cube. */
  lemma ShellCount()
    ensures ICount(0) == Shell(Rays) == 1352
  {
  }

  /** The whole sweep marches R^3 - (R - 2)^3 rays, 1352 for R = 16. */
  lemma SweepRayCount(b: Blast, st: SweepState)
    requires ValidBlast(b)
    ensures SweepI(b, 0, st).rays == st.rays + Shell(Rays) == st.rays + 1352
  {
    SweepICount(b, 0, st);
    ShellCount();
  }
}
