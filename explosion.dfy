/** The Explosion object: construction, the fire-chance accessors, the
    tracing phase `explodeA` and the negotiation, damage and commit phase
    `explodeB`, each proved against the pure specifications of modules
    Tracer, Sight, Damage, Commit and ExplodeEvents. */
module Explosions {
  import opened Voxels
  import opened Tracer
  import opened Sight
  import opened Damage
  import opened Commit
  import opened ExplodeEvents
  import opened Negotiation

  /** `PHP_INT_MIN` as a float: the default minimum height. */
  const PhpIntMin: real := -9223372036854775808.0

  /** No two elements of the array share a position. */
  predicate DistinctPos(xs: seq<Snapshot>) {
    forall i, j :: 0 <= i < j < |xs| ==> xs[i].pos != xs[j].pos
  }

  /** The affected-block array seen as the map from blockHash (here: the
      position) to block that PHP keeps. */
  function Keyed(xs: seq<Snapshot>): map<Pos, Snapshot>
    decreases |xs|
  {
    if xs == [] then map[] else Keyed(xs[..|xs| - 1])[xs[|xs| - 1].pos := xs[|xs| - 1]]
  }

  /** Overwriting the last block at a position is updating the keyed map. */
  lemma {:induction false} KeyedReplace(xs: seq<Snapshot>, j: nat, b: Snapshot)
    requires j < |xs| && xs[j].pos == b.pos
    requires forall i :: j < i < |xs| ==> xs[i].pos != b.pos
    ensures Keyed(xs[j := b]) == Keyed(xs)[b.pos := b]
    decreases |xs|
  {
    var n := |xs| - 1;
    var ys := xs[j := b];
    var last := xs[n];
    assert Keyed(xs) == Keyed(xs[..n])[last.pos := last];
    if j == n {
      assert ys[..n] == xs[..n];
      assert Keyed(ys) == Keyed(xs[..n])[b.pos := b];
    } else {
      assert ys[..n] == xs[..n][j := b];
      assert ys[n] == last && last.pos != b.pos;
      KeyedReplace(xs[..n], j, b);
      assert Keyed(ys) == Keyed(xs[..n][j := b])[last.pos := last];
    }
  }

  /** A key is in the keyed map exactly when some block of the array sits
      there. */
  lemma {:induction false} KeyedHas(xs: seq<Snapshot>, k: Pos)
    ensures k in Keyed(xs) <==> LastIndex(xs, k) >= 0
    decreases |xs|
  {
    if xs != [] {
      KeyedHas(xs[..|xs| - 1], k);
    }
  }

  /** `$affectedBlocks[hash] = $b`: an existing key keeps its place in the
      array and gets the new block, a new key is appended. So a keyed write
      updates the keyed map at the block's position, keeps the order of the
      array, appends exactly when the key is new, and keeps the positions
      distinct. */
  function Put(xs: seq<Snapshot>, b: Snapshot): (r: seq<Snapshot>)
    ensures Keyed(r) == Keyed(xs)[b.pos := b]
    ensures b.pos !in Keyed(xs) ==> r == xs + [b]
    ensures b.pos in Keyed(xs) ==> |r| == |xs|
    ensures forall i :: 0 <= i < |xs| ==> r[i] == xs[i] || (xs[i].pos == b.pos && r[i] == b)
    ensures DistinctPos(xs) ==> DistinctPos(r)
  {
    var j := LastIndex(xs, b.pos);
    KeyedHas(xs, b.pos);
    if j < 0 then
      assert (xs + [b])[..|xs|] == xs;
      assert DistinctPos(xs) ==> forall i :: 0 <= i < |xs| ==> xs[i].pos != b.pos;
      xs + [b]
    else
      KeyedReplace(xs, j, b);
      xs[j := b]
  }

  /** The tracer configuration explodeA builds from the world's blocks, the
      minimum height and the fire chance. */
  function TracerConfig(blocks: map<Pos, Block>, minHeight: real, fireChance: real, resistance: Block -> real,
                        expand: Snapshot -> seq<Snapshot>, fireRoll: nat -> real): Config
  {
    Config(blocks, resistance, expand, minHeight, fireChance > 0.0, fireChance, fireRoll)
  }

  /** What getSeenPercent promises of the fraction `f` it returns for box
      `bb`: a value in [0, 1], and 1 when `source` lies inside the box. */
  predicate SeenFraction(bb: Box, source: Vec3, f: real) {
    0.0 <= f <= 1.0 && (Inside(bb, source) ==> f == 1.0)
  }

  class Explosion {
    const source: Vec3
    /** A public property: callers may overwrite it after construction. */
    var radius: real
    const what: Causer
    const world: World
    /** PHP's `$affectedBlocks` in iteration order. */
    var affectedBlocks: seq<Snapshot>
    var doesDamage: bool
    /** Typed properties without a default: `None` until first assigned. */
    var fireChance: Option<real>
    var fireIgnitions: Option<set<Snapshot>>
    var minHeight: real

    constructor Init(source: Vec3, radius: real, world: World, what: Causer)
      requires radius > 0.0
      ensures this.source == source && this.radius == radius && this.world == world && this.what == what
      ensures affectedBlocks == [] && doesDamage && fireChance == None && fireIgnitions == None
      ensures minHeight == PhpIntMin
    {
      this.source := source;
      this.radius := radius;
      this.world := world;
      this.what := what;
      affectedBlocks := [];
      doesDamage := true;
      fireChance := None;
      fireIgnitions := None;
      minHeight := PhpIntMin;
    }

    /** `new Explosion(...)`: rejects a radius of 0 or below. */
    static method Create(source: Vec3, radius: real, world: World, what: Causer := Unattributed)
      returns (r: Result<Explosion>)
      ensures r.Ok? <==> radius > 0.0
      ensures r.Err? ==> r.failure == InvalidArgument
      ensures r.Ok? ==> fresh(r.value)
      ensures r.Ok? ==> r.value.source == source && r.value.radius == radius &&
                        r.value.world == world && r.value.what == what
      ensures r.Ok? ==> r.value.affectedBlocks == [] && r.value.doesDamage &&
                        r.value.fireChance == None && r.value.fireIgnitions == None &&
                        r.value.minHeight == PhpIntMin
    {
      if radius <= 0.0 {
        return Err(InvalidArgument);
      }
      var e := new Explosion.Init(source, radius, world, what);
      return Ok(e);
    }

    /** Reading the fire chance before it was ever set throws. */
    function GetFireChance(): (r: Result<real>)
      reads this
      ensures r.Err? <==> fireChance == None
      ensures r.Err? ==> r.failure == Uninitialized
      ensures r.Ok? ==> r.value == fireChance.value
    {
      if fireChance.Some? then Ok(fireChance.value) else Err(Uninitialized)
    }

    /** Incendiary exactly when the fire chance is positive; throws when it
      was never set. */
    function IsIncendiary(): (r: Result<bool>)
      reads this
      ensures r.Err? <==> fireChance == None
      ensures r.Ok? ==> (r.value <==> fireChance.value > 0.0)
    {
      if fireChance.Some? then Ok(fireChance.value > 0.0) else Err(Uninitialized)
    }

    method SetFireChance(f: real)
      modifies this`fireChance
      ensures GetFireChance() == Ok(f)
      ensures IsIncendiary() == Ok(f > 0.0)
    {
      fireChance := Some(f);
    }

    method SetMinHeight(h: real)
      modifies this`minHeight
      ensures minHeight == h
    {
      minHeight := h;
    }

    /** The inner `foreach` over `getAffectedBlocks()`: writes each block under
      its own key, in order. */
    method RecordAll(xs: seq<Snapshot>)
      modifies this`affectedBlocks
      ensures Keyed(affectedBlocks) == Record(Keyed(old(affectedBlocks)), xs)
    {
      ghost var m0 := Keyed(affectedBlocks);
      for n := 0 to |xs|
        invariant Keyed(affectedBlocks) == Record(m0, xs[..n])
      {
        assert xs[..n + 1][..n] == xs[..n];
        affectedBlocks := Put(affectedBlocks, xs[n]);
      }
      assert xs[..|xs|] == xs;
    }

    /** The march loop of one ray (Explosion.php lines 89-125), from the source with energy
      `e0`: the same as the pure `Trace`. */
    method MarchRay(c: Config, step: Vec3, e0: real, ign0: set<Snapshot>, draws0: nat)
      returns (ign: set<Snapshot>, draws: nat)
      requires ValidConfig(c)
      modifies this`affectedBlocks
      ensures var t := Trace(c, step, RayState(e0, source, Keyed(old(affectedBlocks)), ign0, draws0));
              Keyed(affectedBlocks) == t.affected && ign == t.ignitions && draws == t.draws
    {
      var energy := e0;
      var pointer := source;
      ign, draws := ign0, draws0;
      ghost var target := Trace(c, step, RayState(e0, source, Keyed(affectedBlocks), ign0, draws0));
      while energy > 0.0
        invariant Trace(c, step, RayState(energy, pointer, Keyed(affectedBlocks), ign, draws)) == target
        decreases Units(energy)
      {
        ghost var s := RayState(energy, pointer, Keyed(affectedBlocks), ign, draws);
        StepDecreases(c, step, s);
        var v := Pos(VoxelCoord(pointer.x), VoxelCoord(pointer.y), VoxelCoord(pointer.z));
        pointer := Add(pointer, step);
        if v in c.world {
          var block := c.world[v];
          if block != Air {
            energy := energy - (c.resistance(block) / 5.0 + 0.3) * StepLen;
            if energy > 0.0 && v.y as real >= c.minHeight && v !in Keyed(affectedBlocks) {
              RecordAll(c.expand(Snapshot(v, block)));
            }
            if c.incendiary {
              if c.fireRoll(draws) <= c.fireChance {
                ign := ign + {Snapshot(v, block)};
              }
              draws := draws + 1;
            }
          }
        }
        energy := energy - StepCost;
        assert RayState(energy, pointer, Keyed(affectedBlocks), ign, draws) == Step(c, step, s);
      }
    }

    /** An Explosive entity in water: explodeA only switches damage off. */
    predicate Underwater()
    {
      what.ByEntity? && what.explosive && what.underwater
    }

    /** The body of the innermost loop (Explosion.php lines 80-127): a selected index
      triple casts one ray, with the normalised shift times stepLen as its
      step and the next force roll for its energy. */
    method CastRay(b: Blast, i: int, j: int, k: int, st: SweepState) returns (st': SweepState)
      requires ValidBlast(b) && b.source == source
      requires 0 <= i < Rays && 0 <= j < Rays && 0 <= k < Rays
      requires st.affected == Keyed(affectedBlocks)
      modifies this`affectedBlocks
      ensures st' == Ray(b, i, j, k, st) && st'.affected == Keyed(affectedBlocks)
    {
      if i == 0 || i == Rays - 1 || j == 0 || j == Rays - 1 || k == 0 || k == Rays - 1 {
        ShiftNonZero(i, j, k);
        var step := Scale(b.unit(Shift(i, j, k)), StepLen);
        var energy := InitialEnergy(b.radius, b.forceRoll(st.rays));
        var ign, draws := MarchRay(b.tracer, step, energy, st.ignitions, st.draws);
        st' := SweepState(Keyed(affectedBlocks), ign, draws, st.rays + 1);
      } else {
        st' := st;
      }
    }

    /** The innermost `for ($k ...)` loop of row (i, j). */
    method SweepRow(b: Blast, i: int, j: int, st0: SweepState) returns (st: SweepState)
      requires ValidBlast(b) && b.source == source
      requires 0 <= i < Rays && 0 <= j < Rays
      requires st0.affected == Keyed(affectedBlocks)
      modifies this`affectedBlocks
      ensures st == SweepK(b, i, j, 0, st0) && st.affected == Keyed(affectedBlocks)
    {
      st := st0;
      for k := 0 to Rays
        invariant SweepK(b, i, j, k, st) == SweepK(b, i, j, 0, st0)
        invariant st.affected == Keyed(affectedBlocks)
      {
        st := CastRay(b, i, j, k, st);
      }
    }

    /** The middle `for ($j ...)` loop of layer i. */
    method SweepLayer(b: Blast, i: int, st0: SweepState) returns (st: SweepState)
      requires ValidBlast(b) && b.source == source
      requires 0 <= i < Rays
      requires st0.affected == Keyed(affectedBlocks)
      modifies this`affectedBlocks
      ensures st == SweepJ(b, i, 0, st0) && st.affected == Keyed(affectedBlocks)
    {
      st := st0;
      for j := 0 to Rays
        invariant SweepJ(b, i, j, st) == SweepJ(b, i, 0, st0)
        invariant st.affected == Keyed(affectedBlocks)
      {
        st := SweepRow(b, i, j, st);
      }
    }

    /** The outer `for ($i ...)` loop: every ray of the index cube. */
    method Sweep(b: Blast, st0: SweepState) returns (st: SweepState)
      requires ValidBlast(b) && b.source == source
      requires st0.affected == Keyed(affectedBlocks)
      modifies this`affectedBlocks
      ensures st == SweepI(b, 0, st0) && st.affected == Keyed(affectedBlocks)
    {
      st := st0;
      for i := 0 to Rays
        invariant SweepI(b, i, st) == SweepI(b, 0, st0)
        invariant st.affected == Keyed(affectedBlocks)
      {
        st := SweepLayer(b, i, st);
      }
    }

    /** explodeA past its guards: fill a missing ignition set when
      incendiary, then sweep all rays. */
    method CastAll(resistance: Block -> real, expand: Snapshot -> seq<Snapshot>, unit: Vec3 -> Vec3,
                   fireRoll: nat -> real, forceRoll: nat -> int)
      requires forall b :: resistance(b) >= 0.0
      requires forall n: nat :: 700 <= forceRoll(n) <= 1301
      requires fireChance.Some?
      modifies this`affectedBlocks, this`fireIgnitions
      ensures Keyed(affectedBlocks) == old(SweepI(Blast(TracerConfig(world.blocks, minHeight, fireChance.value, resistance, expand, fireRoll), source, radius, unit, forceRoll), 0, SweepState(Keyed(affectedBlocks), Ignitions(fireIgnitions), 0, 0))).affected
      ensures fireIgnitions == if old(fireChance.value) > 0.0
                               then Some(old(SweepI(Blast(TracerConfig(world.blocks, minHeight, fireChance.value, resistance, expand, fireRoll), source, radius, unit, forceRoll), 0, SweepState(Keyed(affectedBlocks), Ignitions(fireIgnitions), 0, 0))).ignitions)
                               else old(fireIgnitions)
    {
      // An incendiary explosion without an ignition set starts from a new,
      // empty one; the rays then fill that same set.
      var ign0 := Ignitions(fireIgnitions);
      var c := TracerConfig(world.blocks, minHeight, fireChance.value, resistance, expand, fireRoll);
      var st := Sweep(Blast(c, source, radius, unit, forceRoll), SweepState(Keyed(affectedBlocks), ign0, 0, 0));
      if c.incendiary {
        fireIgnitions := Some(st.ignitions);
      }
    }

    /** The ray-casting phase (Explosion.php lines 65-132). `resistance` is the registry's
      blast resistance, `expand` is `Block::getAffectedBlocks`, `unit`
      normalises a vector, `fireRoll(n)` is the n-th `mt_rand() /
      mt_getrandmax()` and `forceRoll(n)` the n-th `mt_rand(700, 1301)`.
      Underwater explosives only disable damage; a radius below 0.1 does
      nothing and reports false; an unset fire chance throws; otherwise the
      affected map and ignition set become those of the pure sweep. */
    method ExplodeA(resistance: Block -> real, expand: Snapshot -> seq<Snapshot>, unit: Vec3 -> Vec3,
                    fireRoll: nat -> real, forceRoll: nat -> int)
      returns (r: Result<bool>)
      requires forall b :: resistance(b) >= 0.0
      requires forall n: nat :: 700 <= forceRoll(n) <= 1301
      modifies this`doesDamage, this`affectedBlocks, this`fireIgnitions
      ensures if Underwater() then
                r == Ok(true) && !doesDamage && unchanged(this`affectedBlocks, this`fireIgnitions)
              else if radius < 0.1 then
                r == Ok(false) && doesDamage == old(doesDamage) && unchanged(this`affectedBlocks, this`fireIgnitions)
              else if fireChance.None? then
                r == Err(Uninitialized) && doesDamage == old(doesDamage) && unchanged(this`affectedBlocks, this`fireIgnitions)
              else
                var sw := old(SweepI(Blast(TracerConfig(world.blocks, minHeight, fireChance.value, resistance, expand, fireRoll),
                                           source, radius, unit, forceRoll),
                                     0, SweepState(Keyed(affectedBlocks), Ignitions(fireIgnitions), 0, 0)));
                r == Ok(true) && doesDamage == old(doesDamage) && Keyed(affectedBlocks) == sw.affected &&
                fireIgnitions == if fireChance.value > 0.0 then Some(sw.ignitions) else old(fireIgnitions)
    {
      if what.ByEntity? && what.explosive && what.underwater {
        doesDamage := false;
        return Ok(true);
      }
      if radius < 0.1 {
        return Ok(false);
      }
      if fireChance.None? {
        return Err(Uninitialized);
      }
      CastAll(resistance, expand, unit, fireRoll, forceRoll);
      return Ok(true);
    }

    /** The event gate (Explosion.php lines 136-172): the state it leaves is the pure
      Gate's deal, and a cancellation or an exception leaves it as it was. */
    method Negotiate(outcome: EntityOutcome, edits: seq<BlockEdit>, blockCancelled: bool,
                     listing: set<Snapshot> -> seq<Snapshot>) returns (r: Result<Deal>)
      modifies this`affectedBlocks, this`fireIgnitions
      ensures r == Gate(what, radius, old(affectedBlocks), fireChance, old(fireIgnitions), outcome, edits, blockCancelled, listing)
      ensures r.Ok? && r.value.Proceed? ==> affectedBlocks == r.value.affected && fireIgnitions == r.value.ignitions
      ensures !(r.Ok? && r.value.Proceed?) ==> unchanged(this`affectedBlocks, this`fireIgnitions)
    {
      if radius == 0.0 {
        return Err(DivisionByZero);
      }
      var y := Yield(radius);
      match what {
        case ByEntity(_, _, _) =>
          if fireIgnitions.None? {
            return Err(Uninitialized);
          }
          if outcome.EntityCancelled? {
            return Ok(Cancelled);
          }
          affectedBlocks := outcome.blockList;
          return Ok(Proceed(outcome.yieldPercent, affectedBlocks, fireIgnitions));
        case ByBlock(b) =>
          if fireIgnitions.None? || fireChance.None? {
            return Err(Uninitialized);
          }
          var created := BlockExplodeEvent.Create(b, source, affectedBlocks, y, Members(affectedBlocks),
                                                  fireIgnitions.value, fireChance.value);
          if created.None? {
            return Err(InvalidArgument);
          }
          var ev := created.value;
          var ok := ApplyEdits(ev, edits);
          if !ok {
            return Err(InvalidArgument);
          }
          if blockCancelled {
            return Ok(Cancelled);
          }
          affectedBlocks := listing(ev.GetAffectedBlocks());
          fireIgnitions := Some(ev.GetIgnitions());
          return Ok(Proceed(ev.GetYield(), affectedBlocks, fireIgnitions));
        case Unattributed =>
          return Ok(Proceed(y, affectedBlocks, fireIgnitions));
      }
    }

    /** One pass of the entity loop (Explosion.php lines 185-229): the fraction of `t`
        visible from `source`, and the actions that target receives. */
    method DamageOne(t: Target, geo: Geometry) returns (ghost f: real)
      requires radius != 0.0 && ValidGeometry(geo) && WellFormed(t.box)
      modifies world`log
      ensures SeenFraction(t.box, source, f)
      ensures world.log == old(world.log) + TargetActions(t, doesDamage, radius * 2.0, f)
    {
      var seenPercent, misses, total := GetSeenPercent(source, t.box, geo);
      f := seenPercent;
      world.log := world.log + TargetActions(t, doesDamage, radius * 2.0, seenPercent);
    }

    /** The entity loop (Explosion.php lines 174-231) over the entities `getNearbyEntities`
      returns: each one's visible fraction comes from getSeenPercent, and the
      world's log grows by exactly the pure DamageLog of those fractions. */
    method DamageEntities(targets: seq<Target>, geo: Geometry) returns (ghost seen: seq<real>)
      requires radius != 0.0 && ValidGeometry(geo)
      requires forall n :: 0 <= n < |targets| ==> WellFormed(targets[n].box)
      modifies world`log
      ensures |seen| == |targets|
      ensures forall n :: 0 <= n < |seen| ==> SeenFraction(targets[n].box, source, seen[n])
      ensures world.log == old(world.log) + DamageLog(targets, doesDamage, radius * 2.0, seen)
    {
      var size := radius * 2.0;
      seen := [];
      for n := 0 to |targets|
        invariant |seen| == n
        invariant forall m :: 0 <= m < n ==> SeenFraction(targets[m].box, source, seen[m])
        invariant world.log == old(world.log) + DamageLog(targets[..n], doesDamage, size, seen)
      {
        var f := DamageOne(targets[n], geo);
        DamageLogStep(old(world.log), targets, doesDamage, size, seen, n, f);
        seen := seen + [f];
      }
      assert targets[..|targets|] == targets;
    }

    /** The fire loop at the head of each commit iteration (Explosion.php lines 236-244):
      one pass over the ignition set, the same as the pure IgnitePass. */
    method IgniteAll(ign: set<Snapshot>)
      modifies world`blocks
      ensures world.blocks == IgnitePass(old(world.blocks), ign)
    {
      ghost var w0 := world.blocks;
      ghost var done: set<Snapshot> := {};
      var rest := ign;
      SameMap(IgnitePass(w0, {}), w0);
      while rest != {}
        invariant done + rest == ign && done !! rest
        invariant world.blocks == IgnitePass(w0, done)
        decreases |rest|
      {
        var g :| g in rest;
        IgniteOne(w0, done, g);
        if Read(world.blocks, g.pos) == Air && IsSolid(Read(world.blocks, Up(g.pos))) {
          world.blocks := world.blocks[g.pos := Fire];
        }
        done := done + {g};
        rest := rest - {g};
      }
    }

    /** One iteration of the commit loop (Explosion.php lines 234-260) for the
      `n`-th affected block `b`: the world and the log become the pure
      Settle's. */
    method CommitOne(ctx: CommitInputs, b: Snapshot, n: nat)
      requires ctx.tiles == world.tiles
      modifies world`blocks, world`log
      ensures Scene(world.blocks, world.log) == Settle(ctx, old(Scene(world.blocks, world.log)), b, n)
    {
      IgniteAll(ctx.ignitions);
      if b.block == Tnt {
        world.log := world.log + [IgniteTnt(b.pos, ctx.fuseRoll(n))];
      } else {
        if (ctx.dropRoll(n) as real) < ctx.yieldPercent {
          world.log := world.log + [DropItems(b.pos)];
        }
        if b.pos in world.tiles {
          world.log := world.log + [TileDestroyed(b.pos)];
        }
        world.blocks := world.blocks[b.pos := Air];
      }
    }

    /** The commit loop (Explosion.php lines 233-261). Walking the ignitions reads the
      ignition set, which throws when it was never set and some block is
      affected; otherwise blocks and log become those of the pure
      CommitAll. */
    method CommitBlocks(yieldPercent: real, fuseRoll: nat -> int, dropRoll: nat -> int) returns (r: Result<bool>)
      modifies world`blocks, world`log
      ensures affectedBlocks != [] && fireIgnitions.None? ==>
                r == Err(Uninitialized) && unchanged(world`blocks, world`log)
      ensures !(affectedBlocks != [] && fireIgnitions.None?) ==>
                r == Ok(true) &&
                Scene(world.blocks, world.log) ==
                  CommitAll(CommitInputs(Ignitions(fireIgnitions), yieldPercent, world.tiles, fuseRoll, dropRoll),
                            old(Scene(world.blocks, world.log)), affectedBlocks)
    {
      if affectedBlocks != [] && fireIgnitions.None? {
        return Err(Uninitialized);
      }
      var ctx := CommitInputs(Ignitions(fireIgnitions), yieldPercent, world.tiles, fuseRoll, dropRoll);
      ghost var s0 := Scene(world.blocks, world.log);
      for n := 0 to |affectedBlocks|
        invariant Scene(world.blocks, world.log) == CommitAll(ctx, s0, affectedBlocks[..n])
      {
        assert affectedBlocks[..n + 1][..n] == affectedBlocks[..n];
        CommitOne(ctx, affectedBlocks[n], n);
      }
      assert affectedBlocks[..|affectedBlocks|] == affectedBlocks;
      return Ok(true);
    }

    /** explodeB (Explosion.php lines 134-267): the gate, then the entity loop, then the
      commit. An exception from the gate or a cancellation changes nothing
      and a cancellation reports false; otherwise the explosion takes the
      deal's affected list and ignitions, the log grows by the damage
      actions, and the commit runs with the deal's yield. */
    method ExplodeB(outcome: EntityOutcome, edits: seq<BlockEdit>, blockCancelled: bool,
                    listing: set<Snapshot> -> seq<Snapshot>, targets: seq<Target>, geo: Geometry,
                    fuseRoll: nat -> int, dropRoll: nat -> int)
      returns (r: Result<bool>, ghost seen: seq<real>)
      requires ValidGeometry(geo)
      requires forall n :: 0 <= n < |targets| ==> WellFormed(targets[n].box)
      modifies this`affectedBlocks, this`fireIgnitions, world`blocks, world`log
      ensures var d := Gate(what, radius, old(affectedBlocks), fireChance, old(fireIgnitions),
                            outcome, edits, blockCancelled, listing);
              !(d.Ok? && d.value.Proceed?) ==>
                r == (if d.Err? then Err(d.failure) else Ok(false)) &&
                unchanged(this`affectedBlocks, this`fireIgnitions, world`blocks, world`log)
      ensures var d := Gate(what, radius, old(affectedBlocks), fireChance, old(fireIgnitions),
                            outcome, edits, blockCancelled, listing);
              d.Ok? && d.value.Proceed? ==>
                affectedBlocks == d.value.affected && fireIgnitions == d.value.ignitions &&
                |seen| == |targets| &&
                (forall n :: 0 <= n < |seen| ==> SeenFraction(targets[n].box, source, seen[n])) &&
                var logged := old(world.log) + DamageLog(targets, doesDamage, radius * 2.0, seen);
                if affectedBlocks != [] && fireIgnitions.None? then
                  r == Err(Uninitialized) && world.blocks == old(world.blocks) && world.log == logged
                else
                  r == Ok(true) &&
                  Scene(world.blocks, world.log) ==
                    CommitAll(CommitInputs(Ignitions(fireIgnitions), d.value.yieldPercent, world.tiles, fuseRoll, dropRoll),
                              Scene(old(world.blocks), logged), affectedBlocks)
    {
      var d := Negotiate(outcome, edits, blockCancelled, listing);
      if d.Err? {
        return Err(d.failure), [];
      }
      if d.value.Cancelled? {
        return Ok(false), [];
      }
      seen := DamageEntities(targets, geo);
      r := CommitBlocks(d.value.yieldPercent, fuseRoll, dropRoll);
    }
  }
}
