/** The world mutation at the end of `Explosion::explodeB`, as pure functions
    over the block map and the action log, with the properties the commit
    keeps. Module Explosions runs the same steps imperatively on a World. */
module Commit {
  import opened Voxels

  /** The block the world reports at `p`; `getBlockAt` yields air where no
      chunk is loaded. */
  function Read(w: map<Pos, Block>, p: Pos): Block {
    if p in w then w[p] else Air
  }

  /** An ignition position catches fire when it is air now and the block
      above it is solid now. */
  predicate CanIgnite(w: map<Pos, Block>, p: Pos) {
    Read(w, p) == Air && IsSolid(Read(w, Up(p)))
  }

  /** The positions one pass over the ignition set sets on fire. */
  function FireSpots(w: map<Pos, Block>, ign: set<Snapshot>): set<Pos> {
    set g | g in ign && CanIgnite(w, g.pos) :: g.pos
  }

  /** One pass of the inner loop over the ignition set. Setting fire at one
      position never makes another position ignitable or stops it from being
      so (fire is neither air nor solid), so the pass does not depend on the
      order in which the set is walked. */
  function IgnitePass(w: map<Pos, Block>, ign: set<Snapshot>): (r: map<Pos, Block>)
    ensures r.Keys == w.Keys + FireSpots(w, ign)
    ensures forall p :: p in FireSpots(w, ign) ==> Read(r, p) == Fire
    ensures forall p :: p !in FireSpots(w, ign) ==> Read(r, p) == Read(w, p)
  {
    var spots := FireSpots(w, ign);
    map p | p in w.Keys + spots :: if p in spots then Fire else w[p]
  }

  /** Two block maps with the same keys that read the same everywhere are
      equal. */
  lemma SameMap(a: map<Pos, Block>, b: map<Pos, Block>)
    requires a.Keys == b.Keys
    requires forall p :: Read(a, p) == Read(b, p)
    ensures a == b
  {
    forall p | p in a
      ensures a[p] == b[p]
    {
      assert Read(a, p) == Read(b, p);
    }
  }

  /** After a pass, a position is ignitable exactly when it was ignitable
      before and the pass did not already set it on fire. */
  lemma IgnitableAfterPass(w: map<Pos, Block>, ign: set<Snapshot>, p: Pos)
    ensures CanIgnite(IgnitePass(w, ign), p) <==> CanIgnite(w, p) && p !in FireSpots(w, ign)
  {
    var spots := FireSpots(w, ign);
    if Up(p) in spots {
      assert Read(w, Up(p)) == Air by {
        var g :| g in ign && CanIgnite(w, g.pos) && g.pos == Up(p);
      }
    }
  }

  /** Adding one element to the walked part of the ignition set: the step the
      imperative inner loop takes equals a pass over the larger set. */
  lemma {:induction false} IgniteOne(w: map<Pos, Block>, done: set<Snapshot>, g: Snapshot)
    ensures var w' := IgnitePass(w, done);
            (if CanIgnite(w', g.pos) then w'[g.pos := Fire] else w') == IgnitePass(w, done + {g})
  {
    var w' := IgnitePass(w, done);
    IgnitableAfterPass(w, done, g.pos);
    var lhs := if CanIgnite(w', g.pos) then w'[g.pos := Fire] else w';
    var rhs := IgnitePass(w, done + {g});
    assert FireSpots(w, done + {g}) == FireSpots(w, done) + (if CanIgnite(w, g.pos) then {g.pos} else {});
    SameMap(lhs, rhs);
  }

  /** A second pass over the same set changes nothing. */
  lemma {:induction false} IgnitePassIdempotent(w: map<Pos, Block>, ign: set<Snapshot>)
    ensures IgnitePass(IgnitePass(w, ign), ign) == IgnitePass(w, ign)
  {
    var w' := IgnitePass(w, ign);
    forall g | g in ign
      ensures !CanIgnite(w', g.pos)
    {
      IgnitableAfterPass(w, ign, g.pos);
    }
    assert FireSpots(w', ign) == {};
    SameMap(IgnitePass(w', ign), w');
  }

  /** The world state the commit works on. */
  datatype Scene = Scene(blocks: map<Pos, Block>, log: seq<Action>)

  /** What the commit reads besides the world: the final ignition set and
      yield, the positions holding a tile, and the i-th affected block's rolls
      `mt_rand(10, 30)` (fuse, for TNT) and `mt_rand(0, 100)` (drop, for the
      rest); each affected block draws exactly one of them. */
  datatype CommitInputs = CommitInputs(
    ignitions: set<Snapshot>,
    yieldPercent: real,
    tiles: set<Pos>,
    fuseRoll: nat -> int,
    dropRoll: nat -> int)

  /** The drop actions the i-th affected block `b` causes. */
  function Drops(ctx: CommitInputs, b: Snapshot, i: nat): seq<Action> {
    if (ctx.dropRoll(i) as real) < ctx.yieldPercent then [DropItems(b.pos)] else []
  }

  /** The tile notification of `b`'s position, if it holds a tile. */
  function TileNote(ctx: CommitInputs, b: Snapshot): seq<Action> {
    if b.pos in ctx.tiles then [TileDestroyed(b.pos)] else []
  }

  /** One iteration of the commit loop for the i-th affected block `b`: a
      pass over the ignitions, then either a TNT ignition with its fuse, or
      drops gated on the yield roll, the tile notification and air. The log
      only grows. */
  function Settle(ctx: CommitInputs, s: Scene, b: Snapshot, i: nat): (r: Scene)
    ensures |s.log| <= |r.log| && r.log[..|s.log|] == s.log
  {
    var w := IgnitePass(s.blocks, ctx.ignitions);
    if b.block == Tnt then Scene(w, s.log + [IgniteTnt(b.pos, ctx.fuseRoll(i))])
    else Scene(w[b.pos := Air], s.log + Drops(ctx, b, i) + TileNote(ctx, b))
  }

  /** A TNT block changes the world only by the ignition pass and logs its
      own ignition; any other block ends as air while every other position
      is as the ignition pass left it. */
  lemma SettleEffect(ctx: CommitInputs, s: Scene, b: Snapshot, i: nat)
    ensures var r := Settle(ctx, s, b, i);
            b.block == Tnt ==> r.blocks == IgnitePass(s.blocks, ctx.ignitions) &&
                               r.log[|s.log|..] == [IgniteTnt(b.pos, ctx.fuseRoll(i))]
    ensures var r := Settle(ctx, s, b, i);
            b.block != Tnt ==> Read(r.blocks, b.pos) == Air &&
                               r.log[|s.log|..] == Drops(ctx, b, i) + TileNote(ctx, b)
    ensures forall p :: p != b.pos ==>
              Read(Settle(ctx, s, b, i).blocks, p) == Read(IgnitePass(s.blocks, ctx.ignitions), p)
  {
  }

  /** The commit loop over the affected blocks `xs`, in order. */
  function CommitAll(ctx: CommitInputs, s: Scene, xs: seq<Snapshot>): (r: Scene)
    ensures |s.log| <= |r.log| && r.log[..|s.log|] == s.log
    decreases |xs|
  {
    if xs == [] then s
    else Settle(ctx, CommitAll(ctx, s, xs[..|xs| - 1]), xs[|xs| - 1], |xs| - 1)
  }

  function Positions(xs: seq<Snapshot>): set<Pos> {
    set b | b in xs :: b.pos
  }

  function IgnitionPositions(ign: set<Snapshot>): set<Pos> {
    set g | g in ign :: g.pos
  }

  /** A position in neither the affected list nor the ignition set keeps its
      block. */
  lemma {:induction false} CommitFrame(ctx: CommitInputs, s: Scene, xs: seq<Snapshot>, p: Pos)
    requires p !in Positions(xs) && p !in IgnitionPositions(ctx.ignitions)
    ensures Read(CommitAll(ctx, s, xs).blocks, p) == Read(s.blocks, p)
    decreases |xs|
  {
    if xs != [] {
      var ys := xs[..|xs| - 1];
      assert Positions(ys) <= Positions(xs);
      CommitFrame(ctx, s, ys, p);
      assert p != xs[|xs| - 1].pos;
    }
  }

  /** With no affected block the commit does nothing, whatever the ignition
      set holds: fire is only ever placed from inside the loop. */
  lemma CommitEmpty(ctx: CommitInputs, s: Scene)
    ensures CommitAll(ctx, s, []) == s
  {
  }

  /** Fire appears only at an ignition position, and only when at least one
      block is affected. */
  lemma {:induction false} CommitFire(ctx: CommitInputs, s: Scene, xs: seq<Snapshot>, p: Pos)
    requires Read(CommitAll(ctx, s, xs).blocks, p) == Fire && Read(s.blocks, p) != Fire
    ensures p in IgnitionPositions(ctx.ignitions) && |xs| > 0
    decreases |xs|
  {
    if p !in IgnitionPositions(ctx.ignitions) {
      if xs != [] {
        var ys := xs[..|xs| - 1];
        var t := CommitAll(ctx, s, ys);
        assert p !in FireSpots(t.blocks, ctx.ignitions);
        CommitFire(ctx, s, ys, p);
      }
    }
  }

  /** Every affected block that is not TNT ends as air, or as fire when an
      ignition pass after its removal set it alight. */
  lemma {:induction false} CommitCleared(ctx: CommitInputs, s: Scene, xs: seq<Snapshot>, i: nat)
    requires i < |xs| && xs[i].block != Tnt
    ensures Read(CommitAll(ctx, s, xs).blocks, xs[i].pos) in {Air, Fire}
    decreases |xs|
  {
    var ys := xs[..|xs| - 1];
    var t := CommitAll(ctx, s, ys);
    var p := xs[i].pos;
    assert CommitAll(ctx, s, xs) == Settle(ctx, t, xs[|xs| - 1], |xs| - 1);
    if i < |ys| {
      CommitCleared(ctx, s, ys, i);
      assert ys[i] == xs[i];
      assert Read(t.blocks, p) in {Air, Fire};
      if p in FireSpots(t.blocks, ctx.ignitions) {
        assert Read(IgnitePass(t.blocks, ctx.ignitions), p) == Fire;
      } else {
        assert Read(IgnitePass(t.blocks, ctx.ignitions), p) == Read(t.blocks, p);
      }
    }
  }

  /** Every TNT in the affected list is ignited with its own fuse roll. */
  lemma {:induction false} CommitIgnitesTnt(ctx: CommitInputs, s: Scene, xs: seq<Snapshot>, i: nat)
    requires i < |xs| && xs[i].block == Tnt
    ensures IgniteTnt(xs[i].pos, ctx.fuseRoll(i)) in CommitAll(ctx, s, xs).log
    decreases |xs|
  {
    var ys := xs[..|xs| - 1];
    var t := CommitAll(ctx, s, ys);
    var r := CommitAll(ctx, s, xs);
    assert r == Settle(ctx, t, xs[|xs| - 1], |xs| - 1);
    if i < |ys| {
      CommitIgnitesTnt(ctx, s, ys, i);
      assert ys[i] == xs[i];
      assert r.log[..|t.log|] == t.log;
      var n :| 0 <= n < |t.log| && t.log[n] == IgniteTnt(xs[i].pos, ctx.fuseRoll(i));
      assert r.log[n] == t.log[n];
    } else {
      assert r.log == t.log + [IgniteTnt(xs[i].pos, ctx.fuseRoll(i))];
    }
  }

  /** Every drop the commit makes belongs to an affected block that is not
      TNT and whose drop roll fell below the yield. */
  lemma {:induction false} CommitDrops(ctx: CommitInputs, s: Scene, xs: seq<Snapshot>, n: nat)
    requires |s.log| <= n < |CommitAll(ctx, s, xs).log|
    ensures CommitAll(ctx, s, xs).log[n].DropItems? ==>
              exists i :: 0 <= i < |xs| && xs[i].block != Tnt &&
                xs[i].pos == CommitAll(ctx, s, xs).log[n].pos && (ctx.dropRoll(i) as real) < ctx.yieldPercent
    decreases |xs|
  {
    if xs != [] && CommitAll(ctx, s, xs).log[n].DropItems? {
      var ys := xs[..|xs| - 1];
      var t := CommitAll(ctx, s, ys);
      var r := CommitAll(ctx, s, xs);
      var last := |xs| - 1;
      assert r == Settle(ctx, t, xs[last], last);
      if n < |t.log| {
        assert r.log[..|t.log|] == t.log;
        assert r.log[n] == t.log[n];
        CommitDrops(ctx, s, ys, n);
        var i :| 0 <= i < |ys| && ys[i].block != Tnt && ys[i].pos == t.log[n].pos &&
                 (ctx.dropRoll(i) as real) < ctx.yieldPercent;
        assert xs[i] == ys[i];
      } else {
        assert xs[last].block != Tnt;
        assert r.log == t.log + Drops(ctx, xs[last], last) + TileNote(ctx, xs[last]);
        assert (ctx.dropRoll(last) as real) < ctx.yieldPercent;
      }
    }
  }

  /** A yield of 0 (or below) never drops anything, since the drop roll is
      at least 0. */
  lemma CommitNoDropsAtZeroYield(ctx: CommitInputs, s: Scene, xs: seq<Snapshot>)
    requires ctx.yieldPercent <= 0.0
    requires forall n: nat :: 0 <= ctx.dropRoll(n) <= 100
    ensures forall n :: |s.log| <= n < |CommitAll(ctx, s, xs).log| ==> !CommitAll(ctx, s, xs).log[n].DropItems?
  {
    forall n | |s.log| <= n < |CommitAll(ctx, s, xs).log|
      ensures !CommitAll(ctx, s, xs).log[n].DropItems?
    {
      CommitDrops(ctx, s, xs, n);
    }
  }
}
