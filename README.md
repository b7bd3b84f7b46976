# Explosions in a voxel world

A Dafny model of the explosion core of a PocketMine-MP fork.

- **`Explosion`** traces rays from a source through the block grid (`explodeA`).
- **Event gate.** It then lets the causer's post-explosion event veto or rewrite the result.
- **Damage.** It damages the entities in range according to how much of each one the source can see (`getSeenPercent`, `raycast`).
- **Commit.** It commits fire, TNT ignitions, drops, tile notifications and air to the world (`explodeB`).
- **The two block events** are `BlockExplodeEvent` and `BlockPreExplodeEvent`. They are small validated records with setters.

## Layout

- `voxels.dfy` (module `Voxels`): the shared vocabulary.
  - Points and voxel positions.
  - Block kinds and block snapshots.
  - The PHP `(int)` cast, and the floor the tracer computes.
  - The `Result`/`Failure` types for the exceptions PHP code raises.
  - A `World` class holding the loaded voxels, the tile positions and a log of the calls made into blocks, tiles and entities.
- `tracer.dfy` (module `Tracer`): `explodeA` as pure functions.
  - One voxel visit, one loop iteration, a whole ray, and the sweep over the surface of the 16 x 16 x 16 direction cube.
  - Lemmas on energy accounting, termination, the voxels visited, what gets recorded and ignited, and the number of rays.
- `sight.dfy` (module `Sight`): `sign`, `boundary`, and `raycast` as a `while` loop. It also has `getSeenPercent`, three nested loops of counters.
- `damage.dfy` (module `Damage`):
  - the yield, the impact, the netherite and shield rules, and the damage formula;
  - `DamageLog`, the actions the entity loop issues.
- `commit.dfy` (module `Commit`): the commit loop as pure functions over the block map and the log. Lemmas on fire, TNT, drops, clearing and the frame.
- `events.dfy` (module `ExplodeEvents`): the two event classes.
  - Yield validation, with `Valid()` as the object invariant.
  - The observers' setter calls, as a list of edits that `ApplyEdits` runs against a `BlockExplodeEvent`.
- `negotiation.dfy` (module `Negotiation`): the event gate of `explodeB` as the pure function `Gate`.
- `explosion.dfy` (module `Explosions`): the `Explosion` class.
  - Its fields are the PHP properties.
  - Its methods do what the PHP methods do, step by step: nested `for` loops, the march `while` loop and loops over the target and block lists.
  - Each method is proved equal to the pure functions above.

## Inputs the model makes explicit

- **Randomness.** Each use of `mt_rand` is an indexed input:
  - `forceRoll(n)` is the n-th initial-force roll;
  - `fireRoll(n)` is the n-th ignition roll;
  - `fuseRoll(i)` and `dropRoll(i)` are the rolls of the i-th affected block.
- **Registry and block callbacks.** The blast-resistance registry is `resistance`. `Block::getAffectedBlocks` is `expand`.
- **Geometry.** `Vector3::normalize` and `distance` are inputs. So is the "solid and `calculateIntercept` hits" test, `Geometry.blocked`. The sweep's normalisation is the separate input `Blast.unit`.
- **Assumptions on inputs.**
  - `ValidConfig` assumes the blast resistance is never negative. Each ray's termination depends on it, since every visit then costs at least the step cost.
  - `ValidBlast` assumes every force roll is in [700, 1301], as `mt_rand(700, 1301)` promises.
  - `ValidGeometry` assumes `normalize` returns components in [-1, 1]. Nothing is assumed of `distance`, `blocked` or `Blast.unit`.
- **Entities.** The entities `getNearbyEntities` returns are a list of `Target` values. Each carries:
  - its distance;
  - its bounding box;
  - its player state: netherite pieces, sneaking, shield, the facing dot product;
  - whether its damage event is cancelled.
- **Entity-caused event.** What comes back from an entity-caused `EntityExplodeEvent` is an `EntityOutcome`.
- **Block-caused event.**
  - Its observers are a list of `BlockEdit` setter calls, plus a cancellation flag.
  - `listing` is the order in which `Ds\Set::toArray` returns the final affected set. `Lists(listing)` states what it promises: the same blocks, each once.

## Behaviour as written

- **Unset properties throw.** `$fireChance` and `$fireIgnitions` are typed properties without a default. Reading one before it is assigned throws. The model returns `Err(Uninitialized)` in those cases:
  - `explodeA` reads the fire chance;
  - both post-explosion events read the ignition set;
  - the block event also reads the fire chance;
  - the commit loop walks the ignition set once some block is affected.

  So an explosion that never had an ignition set throws in `explodeB` under an entity or a block causer, if it is not incendiary or never reached the tracing loops. For an unattributed explosion, throwing needs a non-empty affected list. In that case the entity damage has already been dealt. `ExplodeB` states exactly this.
- **Zero radius.** A radius of 0 makes `1 / $radius` throw (`Err(DivisionByZero)`). The radius is a public property, so a caller can set it after the constructor's check.

## Behaviour worth noting

- **Seen fraction.** `getSeenPercent` counts the samples whose `raycast` found nothing in the way. It is 1.0 when the source is inside the box.
- **Impact.** The impact multiplies by the seen fraction itself.
- **Shielded player.** A player sneaking with a shield towards the blast has impact 0, and impact 0 still gives damage 1 while damage is on.
- **Ray count.** The sweep marches 16³ − 14³ = 1352 rays.
- **Initial energy.** `mt_rand(700, 1301) / 1000` gives a factor in [0.7, 1.301].
- **Fire placement.** The ignition pass runs inside every iteration of the affected-block loop, so an empty affected list places no fire.
- **Pre-explosion event.** `Explosion` never fires `BlockPreExplodeEvent`; it is a record its callers use.
- **Yield of the entity event.** `explodeB` takes the entity event's yield from its outcome as is. That event class is not part of this model.

## Model

| member | source | states |
|---|---|---|
| Voxels.VoxelCoord | src/world/Explosion.php:90-94 | The tracer's voxel coordinate `p >= (int)p ? (int)p : (int)p - 1` is the floor of `p`, for negative pointers and exact integers too |
| Tracer.Record | src/world/Explosion.php:113-117 | Writing a list of blocks by position: the keys gained are the list's positions, each key holds a listed block or its old one, untouched keys keep their block, every key keeps a block at that key |
| Tracer.RecordLastWins | src/world/Explosion.php:113-117 | Later entries win: under each listed position the record holds the last listed block at that position |
| Tracer.Visit | src/world/Explosion.php:100-124 | An unloaded or air voxel costs nothing and changes nothing. A non-air voxel costs `(resistance / 5 + 0.3) * stepLen` and records only when the energy left is positive, `y >= minHeight` (inclusive) and its own key is new. The ignition roll depends only on the voxel and the roll, not on the energy or the recording. |
| Tracer.Step | src/world/Explosion.php:89-125 | One iteration visits the floor of the pointer before the move, moves the pointer by one step, and costs the step cost plus that voxel's charge |
| Tracer.StepDecreases | src/world/Explosion.php:89 | Every iteration, including a skipped one, costs at least `stepLen * 0.75` (the for-update), so the energy measure falls |
| Tracer.Trace | src/world/Explosion.php:89-125 | Every ray terminates with energy at most 0. The affected keys and the ignitions only grow, every key maps to a block at that key, and a non-incendiary ray draws no roll. |
| Tracer.TraceStepBound | src/world/Explosion.php:89 | A ray takes at most `floor(e / 0.225) + 1` steps for start energy `e` |
| Tracer.TracePointer | src/world/Explosion.php:96-98 | After a ray the pointer has moved by exactly one step per iteration |
| Tracer.TraceCells | src/world/Explosion.php:90-98 | The i-th voxel a ray visits is the floor of `source + i * step` |
| Tracer.TraceEnergy | src/world/Explosion.php:89-110 | The final energy is the start energy, less `0.225` per iteration, less the resistance charge of every loaded non-air voxel visited |
| Tracer.TraceIgnitions | src/world/Explosion.php:121-123 | Every ignition a ray adds is a visited, loaded, non-air voxel with the block it holds |
| Tracer.TraceRecords | src/world/Explosion.php:109-118 | Every affected entry after a ray was there before, or comes from the expansion of a visited non-air voxel at or above the minimum height |
| Tracer.ShiftComponentRange | src/world/Explosion.php:84 | A shift component lies in [-1, 1], and is -1 or 1 at the cube's faces |
| Tracer.ShiftNonZero | src/world/Explosion.php:83-86 | A selected index triple has squared length at least 1, so normalising never divides by zero |
| Tracer.InitialEnergy | src/world/Explosion.php:89 | The start energy `radius * n / 1000`, n in [700, 1301], lies between 0.7 and 1.301 times the radius, and is positive for a positive radius |
| Tracer.Ray | src/world/Explosion.php:83-126 | A ray is marched (and a force roll drawn) exactly for a triple on the cube's surface; any other triple leaves the state as it was |
| Tracer.RayGrows | src/world/Explosion.php:83-126 | A ray never loses affected keys or ignitions, and keeps every key mapped to a block at that key |
| Tracer.SweepK | src/world/Explosion.php:82-127 | The innermost loop never loses affected keys or ignitions, and keeps every key mapped to a block at that key |
| Tracer.SweepJ | src/world/Explosion.php:81-128 | The middle loop never loses affected keys or ignitions, and keeps every key mapped to a block at that key |
| Tracer.SweepI | src/world/Explosion.php:80-129 | The whole sweep never loses affected keys or ignitions, and keeps every key mapped to a block at that key |
| Tracer.SweepKCount | src/world/Explosion.php:82-83 | The innermost loop marches the number of rays its row selects |
| Tracer.SweepJCount | src/world/Explosion.php:81-83 | The middle loop marches the number of rays its layer selects |
| Tracer.SweepICount | src/world/Explosion.php:80-83 | The outer loop marches the number of rays the remaining layers select |
| Tracer.ShellCount | src/world/Explosion.php:80-83 | The selection count equals R³ − (R − 2)³ = 1352 for R = 16 |
| Tracer.SweepRayCount | src/world/Explosion.php:80-83 | The whole sweep marches exactly 1352 rays |
| Sight.Sign | src/world/Explosion.php:360-370 | The result is 1, 0 or -1, has the sign of `d`, and is 0 exactly for `d == 0` |
| Sight.Boundary | src/world/Explosion.php:372-387 | Unbounded (PHP_FLOAT_MAX) exactly when `d == 0`. Otherwise the non-negative distance to the next integer plane: `floor(start) + 1` going up, `floor(start)` going down (0 from an integer start). |
| Sight.Delta | src/world/Explosion.php:320-322 | For a unit-bounded nonzero component, the per-step distance is at least 1 |
| Sight.Raycast | src/world/Explosion.php:308-358 | The walk starts at `start` with the `boundary` distances. Each step advances the axis whose `tMax` is strictly smallest (x, then y, ties to z), moves one voxel along it by `sign`, and adds that axis's `tDelta`; a step is taken only while that `tMax` is not past the line's length. Every point before the last is clear. The result is true exactly when the last point is blocked, and a false result means the chosen `tMax` passed the length. |
| Sight.Spacing | src/world/Explosion.php:276-278 | The sample spacing `1 / (2e + 1)` lies in (0, 1] |
| Sight.GetSeenPercent | src/world/Explosion.php:269-306 | 1.0 when the source is inside the box. Otherwise misses / total with at least one sample and misses ≤ total, so the result is in [0, 1]. |
| Damage.Yield | src/world/Explosion.php:136 | `min(100, 100 / radius)`: 100 up to radius 1, `100 / radius` beyond, always in (0, 100] for a positive radius |
| Damage.NetheriteReduction | src/world/Explosion.php:190-198 | `max(0.5, 1 - 0.125 * pieces)`: in [0.5, 1], exact up to 4 pieces, 0.5 from 4 on |
| Damage.Impact | src/world/Explosion.php:185-188 | The impact is non-negative, at most 1 for a fraction in [0, 1], and 0 at or beyond the explosion size and for a fraction of 0 |
| Damage.PlayerImpact | src/world/Explosion.php:189-211 | A player's impact is scaled by the netherite reduction, and forced to 0 when sneaking with a shield facing the blast (dot > 0.5). Other entities keep it. |
| Damage.DamageOf | src/world/Explosion.php:213 | 0 when damage is off. At least 1 for a non-negative impact when on, and exactly 1 for impact 0. |
| Damage.DamageMonotone | src/world/Explosion.php:213 | More impact never gives less damage |
| Damage.DamageBound | src/world/Explosion.php:213 | Damage is at most `floor(5 * size) + 1`, reached at impact 1 |
| Damage.TargetImpact | src/world/Explosion.php:185-211 | The impact of one target lies in [0, 1] when its distance and fraction are in range |
| Damage.TargetActions | src/world/Explosion.php:215-227 | A target gets one or two actions: an attack on it first, and a knockback on it second exactly when it is a player with a shield whose attack went through |
| Damage.TargetActionsShape | src/world/Explosion.php:215-227 | Each target gets one attack with the formula's damage, then a knockback by the impact exactly when it is a player with a shield whose damage event went through |
| Damage.DamageLogStep | src/world/Explosion.php:185-229 | One more target in the entity loop appends exactly its own actions to the log |
| Damage.DamageLogFacts | src/world/Explosion.php:185-229 | Every logged action is an attack or a knockback on a target in range. An attack's damage is 0 when damage is off and at least 1 when on. A knockback goes only to a player with a shield whose attack went through. |
| Damage.DamageLog | src/world/Explosion.php:185-229 | The entity loop logs between one and two actions per target |
| Commit.IgnitePass | src/world/Explosion.php:236-244 | A pass over the ignition set turns to fire exactly the ignition positions that are air with a solid block above, and leaves every other position as it was |
| Commit.IgnitableAfterPass | src/world/Explosion.php:240-241 | After a pass a position is ignitable exactly when it was before and the pass did not set it alight, so the order of the walk does not matter |
| Commit.IgniteOne | src/world/Explosion.php:236-244 | Walking one more ignition is a pass over the larger set |
| Commit.IgnitePassIdempotent | src/world/Explosion.php:236-244 | A second pass over the same ignition set changes nothing |
| Commit.Settle | src/world/Explosion.php:236-260 | One iteration of the commit loop only appends to the log |
| Commit.SettleEffect | src/world/Explosion.php:236-260 | One iteration: a TNT block changes the world only by the ignition pass and logs its own ignition with its fuse; any other block ends as air and logs its drops and tile note; every other position is as the ignition pass left it |
| Commit.CommitAll | src/world/Explosion.php:233-261 | The commit only appends to the log: the old log is a prefix of the new one |
| Commit.CommitFrame | src/world/Explosion.php:233-261 | A position in neither the affected list nor the ignition set keeps its block |
| Commit.CommitEmpty | src/world/Explosion.php:233-244 | With no affected block the commit changes nothing, whatever the ignition set holds |
| Commit.CommitFire | src/world/Explosion.php:236-244 | New fire appears only at an ignition position, and only when some block is affected |
| Commit.CommitCleared | src/world/Explosion.php:246-260 | Every affected block that is not TNT ends as air, or as fire set by a later ignition pass |
| Commit.CommitIgnitesTnt | src/world/Explosion.php:246-247 | Every affected TNT is ignited with its own fuse roll |
| Commit.CommitDrops | src/world/Explosion.php:249-253 | Every drop belongs to an affected block that is not TNT and whose roll `mt_rand(0, 100)` fell below the yield |
| Commit.CommitNoDropsAtZeroYield | src/world/Explosion.php:249 | A yield of 0 never drops anything |
| ExplodeEvents.BlockExplodeEvent.Create | src/event/block/BlockExplodeEvent.php:33-47 | Construction succeeds exactly for a yield in [0, 100] (both bounds accepted), keeps every argument (so `getPosition` is the constructor's position), and establishes the invariant |
| ExplodeEvents.BlockExplodeEvent.SetBlockList | src/event/block/BlockExplodeEvent.php:63-75 | `getBlockList` returns the list set. No other field changes. |
| ExplodeEvents.BlockExplodeEvent.SetYield | src/event/block/BlockExplodeEvent.php:82-97 | Succeeds exactly for a yield in [0, 100] and then `getYield` returns it. Otherwise the stored yield is unchanged. The invariant holds either way. |
| ExplodeEvents.BlockExplodeEvent.SetAffectedBlocks | src/event/block/BlockExplodeEvent.php:104-115 | `getAffectedBlocks` returns the set last stored. No other field changes. |
| ExplodeEvents.BlockExplodeEvent.SetIgnitions | src/event/block/BlockExplodeEvent.php:122-133 | `getIgnitions` returns the set last stored. No other field changes. |
| ExplodeEvents.BlockExplodeEvent.SetFireChance | src/event/block/BlockExplodeEvent.php:140-151 | Any fire chance is stored unvalidated and returned by `getFireChance` |
| ExplodeEvents.Observe | src/event/block/BlockExplodeEvent.php:92-97 | A run of setter calls fails exactly when one of its yields is out of range, and never takes the yield out of [0, 100] |
| ExplodeEvents.ObserveLastWrite | src/event/block/BlockExplodeEvent.php:63-151 | After a run of setters, each of the five fields holds what the last call setting that field stored, or its initial value when no call set it, whatever calls to other fields came after |
| ExplodeEvents.ApplyEdits | src/event/block/BlockExplodeEvent.php:63-151 | Running the observers' setter calls on the event object succeeds exactly when `Observe` does, then leaves exactly the state `Observe` computes, and keeps the invariant either way |
| ExplodeEvents.IncendiaryUpdate | src/event/block/BlockPreExplodeEvent.php:83-92 | `setIncendiary(false)` gives 0. `setIncendiary(true)` keeps a positive chance and otherwise gives 1/3. The result is positive exactly when `b`. |
| ExplodeEvents.IncendiaryUpdateIdempotent | src/event/block/BlockPreExplodeEvent.php:83-92 | `setIncendiary(b)` twice leaves what once leaves |
| ExplodeEvents.BlockPreExplodeEvent.constructor | src/event/block/BlockPreExplodeEvent.php:24-32 | Defaults: no player, force 4.0, fire chance 1.0, block breaking on. The player is fixed for the event's lifetime (`getPlayer`). |
| ExplodeEvents.BlockPreExplodeEvent.IsIncendiary | src/event/block/BlockPreExplodeEvent.php:74-77 | Incendiary exactly when the fire chance is positive |
| ExplodeEvents.BlockPreExplodeEvent.SetForce | src/event/block/BlockPreExplodeEvent.php:47-50 | `getForce` returns the force set. No other field changes. |
| ExplodeEvents.BlockPreExplodeEvent.SetBlockBreaking | src/event/block/BlockPreExplodeEvent.php:65-68 | `isBlockBreaking` returns the flag set. No other field changes. |
| ExplodeEvents.BlockPreExplodeEvent.SetFireChance | src/event/block/BlockPreExplodeEvent.php:107-110 | `getFireChance` returns the chance set, unvalidated. No other field changes. |
| ExplodeEvents.BlockPreExplodeEvent.SetIncendiary | src/event/block/BlockPreExplodeEvent.php:83-92 | The fire chance becomes `IncendiaryUpdate` of the old one, and afterwards `isIncendiary() == b` |
| ExplodeEvents.SetIncendiaryTwice | src/event/block/BlockPreExplodeEvent.php:74-92 | Two calls with the same argument leave what one call leaves, touching only the fire chance |
| Negotiation.Gate | src/world/Explosion.php:136-172 | A zero radius throws. Only a cancelling entity or block event cancels. A block explosion proceeds only with a valid yield and a defined ignition set. An entity explosion needs the ignition set and keeps it. An unattributed one proceeds with the radius's yield and its own lists. |
| Negotiation.BlockUntouched | src/world/Explosion.php:150-172 | A block explosion whose observers change nothing proceeds with the radius's yield, the same affected blocks and its ignitions |
| Negotiation.BlockLastWrite | src/world/Explosion.php:150-172 | A block explosion proceeds with the affected set, the yield and the ignition set that the last observer call setting each stored, or the initial ones when none set it |
| Negotiation.BlockYieldOnlyRejectedByObservers | src/world/Explosion.php:136-162 | For a positive radius the yield passed to the block event is in range, so a rejected yield always comes from an observer's `setYield` |
| Negotiation.CancelledOnlyByEvents | src/world/Explosion.php:138-172 | With every read defined, a cancelling observer stops an entity or block explosion, and an unattributed one proceeds regardless |
| Explosions.Put | src/world/Explosion.php:113-117 | A keyed write updates the keyed map at the block's position. It keeps the array's order, appends exactly for a new key, and keeps positions distinct. |
| Explosions.Explosion.Create | src/world/Explosion.php:42-51 | For a source in a valid world, construction fails exactly for a radius of 0 or below. Otherwise it stores the arguments, with damage on, no affected blocks, the fire chance and ignitions unset, and the minimum height `PHP_INT_MIN`. |
| Explosions.Explosion.GetFireChance | src/world/Explosion.php:53-55 | Returns the fire chance, and throws when it was never set |
| Explosions.Explosion.SetFireChance | src/world/Explosion.php:57-59 | The getter returns the value set, and `isIncendiary` becomes `f > 0` |
| Explosions.Explosion.IsIncendiary | src/world/Explosion.php:61-63 | Incendiary exactly when the fire chance is positive. Throws when it was never set. |
| Explosions.Explosion.SetMinHeight | src/world/Explosion.php:394-396 | The minimum height becomes the argument |
| Explosions.Explosion.RecordAll | src/world/Explosion.php:114-117 | The keyed writes of a block's affected list give the keyed map `Record` describes |
| Explosions.Explosion.MarchRay | src/world/Explosion.php:89-125 | The march loop leaves the affected map, ignitions and roll count of the pure `Trace` |
| Explosions.Explosion.CastRay | src/world/Explosion.php:83-126 | The innermost loop body does what the pure `Ray` does |
| Explosions.Explosion.SweepRow | src/world/Explosion.php:82-127 | The `k` loop equals the pure `SweepK` |
| Explosions.Explosion.SweepLayer | src/world/Explosion.php:81-128 | The `j` loop equals the pure `SweepJ` |
| Explosions.Explosion.Sweep | src/world/Explosion.php:80-129 | The `i` loop equals the pure `SweepI` |
| Explosions.Explosion.CastAll | src/world/Explosion.php:75-129 | The affected map becomes the sweep's. The ignition set becomes the sweep's when incendiary (starting from an empty set when it was unset), and is untouched otherwise. |
| Explosions.Explosion.ExplodeA | src/world/Explosion.php:65-132 | An underwater explosive only switches damage off (true). A radius below 0.1 changes nothing (false). An unset fire chance throws. Otherwise the state becomes the pure sweep's (true). |
| Explosions.Explosion.Negotiate | src/world/Explosion.php:136-172 | The result is the pure `Gate`. A proceeding deal's list and ignitions become the explosion's. A cancellation or an exception changes nothing. |
| Explosions.Explosion.DamageOne | src/world/Explosion.php:185-229 | One target's seen fraction is in [0, 1] (1 inside the box), and the log grows by that target's actions |
| Explosions.Explosion.DamageEntities | src/world/Explosion.php:185-230 | Each target's seen fraction is in [0, 1], and the log grows by exactly the pure `DamageLog` |
| Explosions.Explosion.IgniteAll | src/world/Explosion.php:236-244 | Walking the ignition set in any order gives the pure `IgnitePass` |
| Explosions.Explosion.CommitOne | src/world/Explosion.php:234-260 | One iteration of the commit loop leaves the blocks and the log of the pure `Settle` |
| Explosions.Explosion.CommitBlocks | src/world/Explosion.php:233-261 | Throws, changing nothing, when blocks are affected but the ignition set is unset. Otherwise blocks and log become the pure `CommitAll`. |
| Explosions.Explosion.ExplodeB | src/world/Explosion.php:134-267 | A throw or a cancellation at the gate changes nothing (false on cancel). Otherwise the deal's lists are taken, the damage is logged, and the commit runs with the deal's yield, or throws after the damage when the ignition set is unset. |

## Left out

- Chunk paging and block storage (`SubChunkExplorer`, sub-chunk indexing, the state registry) are replaced by a map from positions to blocks and a `resistance` function. The `AssumptionFailedError` guard cannot fire on a map.
- Floating-point rounding, `sqrt`, `normalize` and `distance` are not modelled. Arithmetic is on `real`. Normalisation and distance are inputs. Only `Geometry.normalize` is constrained, to components in [-1, 1].
- NaN is not modelled. A NaN yield passes both range checks of `BlockExplodeEvent` (BlockExplodeEvent.php:44, 93), since every comparison with NaN is false. On `real` the model's checks reject exactly the out-of-range yields.
- `PHP_FLOAT_MAX` from `boundary` is modelled as `Unbounded`, above every finite value.
- Event dispatch (`call()`) and `CancellableTrait` are replaced by the observers' behaviour, which is an input: the entity outcome, or the block event's setter calls and cancellation flag.
- `EntityExplodeEvent` is not part of this model: its constructor checks and its setters.
- Observers that mutate the shared `Ds\Set` objects in place, rather than through the setters, are not modelled. Nor is the aliasing between the explosion's ignition set and the event's.
- The order in which `Ds\Set` iterates is not modelled. The final affected order is the `listing` input, and the ignition pass is proved independent of walk order.
- The `mt_rand` generator is not modelled. Its values are indexed inputs, one sequence per use; the shared stream that interleaves them is not.
- The bounding box around the source and `getNearbyEntities` are left out: the entities in range are an input list.
- The armour, inventory and eye-position lookups are left out: their results are fields of `Target`.
- The damage event class chosen per causer is left out. `Entity::attack` is one `Attack` action. Whether observers cancel the attack is an input.
- Knockback motion arithmetic is left out: a `Knockback` action records the impact only.
- `Block::getDrops` and `dropItem` are left out: dropping is one `DropItems` action per block.
- `TNT::ignite`'s effect on the world is left out: it is an `IgniteTnt` action with its fuse, and the TNT block stays in the map.
- The tile's own removal by `setBlockAt` is left out: the tile positions do not change.
- Particles and sound at the floored source (lines 135, 263-264) have no logic and are left out.
- `BlockPreExplodeEvent`'s position inside the game's flow is left out. `Explosion` does not fire it, so it is modelled only as a record.
- Sight.GetSeenPercent: states the range of the result and the inside case. It does not state which sample points are counted, or that each miss is a raycast without a hit. The `$i += $x` loops are over exact reals.
- Explosions.Explosion.DamageEntities: the seen fractions are ghost outputs, constrained only as `GetSeenPercent` constrains them.
- Explosions.Explosion.RecordAll: distinct positions in the affected array are proved per write by `Put`. They are not carried through the tracing methods, which are stated on the keyed map.
- Explosions.Explosion.Create: the source position is always in a valid world. The `isValid` check's `InvalidArgumentException` (Explosion.php:43-45) is not modelled, and the world is a constructor argument.
- Explosions.Explosion.DamageOne: the target's seen fraction is a ghost output, constrained only as `GetSeenPercent` constrains it.
- ExplodeEvents.BlockExplodeEvent.SetYield: accepts exactly the reals in [0, 100]. The NaN that PHP also accepts is not modelled.
