/** Shared vocabulary of the explosion model: points, voxel positions, block
    snapshots, the world's block map and the actions the world records. */
module Voxels {

  datatype Option<T> = None | Some(value: T)

  datatype Result<T> = Ok(value: T) | Err(failure: Failure)

  /** The exceptions the modelled PHP code can raise. */
  datatype Failure =
    | InvalidArgument      // \InvalidArgumentException from a validating constructor or setter
    | Uninitialized        // Error: a typed property read before it was ever assigned
    | DivisionByZero       // DivisionByZeroError from `1 / $radius`

  /** A real-valued point (Vector3 without floating-point rounding). */
  datatype Vec3 = Vec3(x: real, y: real, z: real)

  function Add(a: Vec3, b: Vec3): Vec3 {
    Vec3(a.x + b.x, a.y + b.y, a.z + b.z)
  }

  function Scale(a: Vec3, f: real): Vec3 {
    Vec3(a.x * f, a.y * f, a.z * f)
  }

  /** An integer voxel coordinate; World::blockHash is injective, so the
      triple itself serves as the hash key. */
  datatype Pos = Pos(x: int, y: int, z: int)

  function Up(p: Pos): Pos {
    Pos(p.x, p.y + 1, p.z)
  }

  /** Block types the core distinguishes. Everything else is `Other`, with
      its type id and whether it is solid. */
  datatype Block = Air | Fire | Tnt | Other(typeId: int, solid: bool)

  predicate IsSolid(b: Block) {
    match b
    case Air => false
    case Fire => false
    case Tnt => true
    case Other(_, solid) => solid
  }

  /** A block object as the core holds it: what it was and where it was. */
  datatype Snapshot = Snapshot(pos: Pos, block: Block)

  /** The affected-block map keeps, under every key, a block at that key. */
  ghost predicate KeysConsistent(m: map<Pos, Snapshot>) {
    forall k :: k in m ==> m[k].pos == k
  }

  /** The last index in `xs` whose block sits at `k`, or -1. */
  function LastIndex(xs: seq<Snapshot>, k: Pos): (r: int)
    ensures -1 <= r < |xs|
    ensures r >= 0 ==> xs[r].pos == k
    ensures forall i :: r < i < |xs| ==> xs[i].pos != k
    decreases |xs|
  {
    if xs == [] then -1
    else if xs[|xs| - 1].pos == k then |xs| - 1
    else LastIndex(xs[..|xs| - 1], k)
  }

  /** PHP's `(int)` cast of a float: truncation toward zero. */
  function Trunc(r: real): int {
    if r >= 0.0 then r.Floor else -((-r).Floor)
  }

  /** The voxel coordinate the tracer computes from a pointer component:
      `$p >= ($x = (int)$p) ? $x : $x - 1`. It is the floor of `p`, also for
      negative and for exact-integer pointers. */
  function VoxelCoord(p: real): (c: int)
    ensures c as real <= p < c as real + 1.0
    ensures c == p.Floor
  {
    var t := Trunc(p);
    if p >= t as real then t else t - 1
  }

  function FloorPos(v: Vec3): Pos {
    Pos(VoxelCoord(v.x), VoxelCoord(v.y), VoxelCoord(v.z))
  }

  /** What the world and its entities are told to do, in order. */
  datatype Action =
    | Attack(entity: int, damage: int)
    | Knockback(entity: int, impact: real)
    | IgniteTnt(pos: Pos, fuse: int)
    | DropItems(pos: Pos)
    | TileDestroyed(pos: Pos)

  /** The part of the world the explosion touches: the loaded voxels, the
      positions that carry a tile, and a log of the calls made into blocks,
      tiles and entities. */
  class World {
    var blocks: map<Pos, Block>
    var tiles: set<Pos>
    var log: seq<Action>

    constructor (blocks: map<Pos, Block>, tiles: set<Pos>)
      ensures this.blocks == blocks && this.tiles == tiles && log == []
    {
      this.blocks := blocks;
      this.tiles := tiles;
      log := [];
    }
  }
}
