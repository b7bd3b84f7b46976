/** The arithmetic of `Explosion::explodeB`: the yield, and the damage each
    entity in range takes. */
module Damage {
  import opened Voxels
  import opened Sight

  /** `min(100, (1 / radius) * 100)`. For a positive radius the yield lies
      in (0, 100]: 100 up to radius 1, then 100 / radius. */
  function Yield(radius: real): (y: real)
    requires radius != 0.0
    ensures radius > 0.0 ==> 0.0 < y <= 100.0
    ensures 0.0 < radius <= 1.0 ==> y == 100.0
    ensures radius > 1.0 ==> y == 100.0 / radius && y < 100.0
    ensures radius < 0.0 ==> y < 0.0
  {
    var v := (1.0 / radius) * 100.0;
    if v < 100.0 then v else 100.0
  }

  /** `max(0.5, 1 - 0.125 * pieces)`: each netherite piece takes off 12.5%,
      never more than half in all. */
  function NetheriteReduction(pieces: nat): (r: real)
    ensures 0.5 <= r <= 1.0
    ensures pieces <= 4 ==> r == 1.0 - 0.125 * pieces as real
    ensures pieces >= 4 ==> r == 0.5
  {
    var v := 1.0 - 0.125 * pieces as real;
    if v < 0.5 then 0.5 else v
  }

  /** What the explosion knows of an entity in range: its distance from the
      source, its bounding box, and for a player the netherite armour count,
      whether it sneaks holding a shield, how squarely it faces the blast
      (`direction.dot(toExplosion.normalize())`), and whether its damage
      event gets cancelled. */
  datatype Target = Target(
    id: int,
    distance: real,
    box: Box,
    isPlayer: bool,
    netheritePieces: nat,
    sneaking: bool,
    shieldInHand: bool,
    facingDot: real,
    attackCancelled: bool)

  /** A product of two fractions in [0, 1] is at most 1. */
  lemma ProductAtMostOne(a: real, b: real)
    ensures 0.0 <= a <= 1.0 && 0.0 <= b <= 1.0 ==> a * b <= 1.0
  {
    if 0.0 <= a <= 1.0 && 0.0 <= b <= 1.0 {
      assert a * (1.0 - b) >= 0.0;
      assert a * b <= a;
    }
  }

  /** `max(0, (1 - min(distance / size, 1)) * seen)`: zero at or beyond the
      explosion size, at most 1 for a fraction `seen` in [0, 1]. */
  function Impact(distance: real, size: real, seen: real): (r: real)
    requires size != 0.0
    ensures r >= 0.0
    ensures distance >= 0.0 && size > 0.0 && 0.0 <= seen <= 1.0 ==> r <= 1.0
    ensures size > 0.0 && distance >= size ==> r == 0.0
    ensures seen == 0.0 ==> r == 0.0
  {
    var d := distance / size;
    var d1 := if d < 1.0 then d else 1.0;
    var v := (1.0 - d1) * seen;
    assert distance >= 0.0 && size > 0.0 ==> 0.0 <= d;
    ProductAtMostOne(1.0 - d1, seen);
    if v > 0.0 then v else 0.0
  }

  /** A player's impact: scaled by the netherite reduction, and zero when the
      player sneaks with a shield in hand facing the blast (dot > 0.5). */
  function PlayerImpact(t: Target, impact: real): (r: real)
    requires impact >= 0.0
    ensures 0.0 <= r <= impact
    ensures !t.isPlayer ==> r == impact
    ensures t.isPlayer && t.sneaking && t.shieldInHand && t.facingDot > 0.5 ==> r == 0.0
    ensures t.isPlayer && !(t.sneaking && t.shieldInHand && t.facingDot > 0.5) ==>
              r == impact * NetheriteReduction(t.netheritePieces)
  {
    if !t.isPlayer then impact
    else
      var n := NetheriteReduction(t.netheritePieces);
      assert impact * n <= impact;
      if t.sneaking && t.shieldInHand && t.facingDot > 0.5 then 0.0 else impact * n
  }

  /** `doesDamage ? max((int)(((i^2 + i) / 2) * 5 * size + 1), 0) : 0`.
      Nothing when damage is off; otherwise at least 1 for a non-negative
      impact, exactly 1 for impact 0. */
  function DamageOf(doesDamage: bool, impact: real, size: real): (r: int)
    ensures r >= 0
    ensures !doesDamage ==> r == 0
    ensures doesDamage && impact >= 0.0 && size > 0.0 ==> r >= 1
    ensures doesDamage && impact == 0.0 ==> r == 1
  {
    if !doesDamage then 0
    else
      var v := Trunc(((impact * impact + impact) / 2.0) * 5.0 * size + 1.0);
      assert impact >= 0.0 && size > 0.0 ==> ((impact * impact + impact) / 2.0) * 5.0 * size >= 0.0;
      if v > 0 then v else 0
  }

  /** More impact never means less damage. */
  lemma DamageMonotone(doesDamage: bool, i1: real, i2: real, size: real)
    requires 0.0 <= i1 <= i2 && size > 0.0
    ensures DamageOf(doesDamage, i1, size) <= DamageOf(doesDamage, i2, size)
  {
    if doesDamage {
      assert i1 * i1 <= i2 * i2 by {
        assert i1 * i1 <= i1 * i2 <= i2 * i2;
      }
      var a := ((i1 * i1 + i1) / 2.0) * 5.0;
      var b := ((i2 * i2 + i2) / 2.0) * 5.0;
      assert a <= b;
      assert a * size <= b * size;
    }
  }

  /** Full impact (1) is the most an entity can take: floor(5 * size) + 1. */
  lemma DamageBound(doesDamage: bool, impact: real, size: real)
    requires 0.0 <= impact <= 1.0 && size > 0.0
    ensures DamageOf(doesDamage, impact, size) <= DamageOf(doesDamage, 1.0, size)
    ensures DamageOf(doesDamage, 1.0, size) == if doesDamage then (5.0 * size).Floor + 1 else 0
  {
    DamageMonotone(doesDamage, impact, 1.0, size);
  }

  /** The impact the loop body computes for target `t` whose visible fraction
      is `seen`, after the player adjustments. */
  function TargetImpact(t: Target, size: real, seen: real): (r: real)
    requires size != 0.0
    ensures r >= 0.0
    ensures t.distance >= 0.0 && size > 0.0 && 0.0 <= seen <= 1.0 ==> r <= 1.0
  {
    PlayerImpact(t, Impact(t.distance, size, seen))
  }

  /** What the loop body asks of target `t`: one attack with the computed
      damage, then knockback only for a player holding a shield whose damage
      event was not cancelled. */
  function TargetActions(t: Target, doesDamage: bool, size: real, seen: real): (r: seq<Action>)
    requires size != 0.0
    ensures 1 <= |r| <= 2 && r[0].Attack? && r[0].entity == t.id
    ensures |r| == 2 <==> t.isPlayer && t.shieldInHand && !t.attackCancelled
    ensures |r| == 2 ==> r[1].Knockback? && r[1].entity == t.id
  {
    var impact := TargetImpact(t, size, seen);
    [Attack(t.id, DamageOf(doesDamage, impact, size))] +
    (if t.isPlayer && t.shieldInHand && !t.attackCancelled then [Knockback(t.id, impact)] else [])
  }

  /** A target gets its attack first, and a second action, the knockback,
      exactly when it is a player with a shield whose attack went through. */
  lemma TargetActionsShape(t: Target, doesDamage: bool, size: real, seen: real)
    requires size != 0.0
    ensures var r := TargetActions(t, doesDamage, size, seen);
            1 <= |r| <= 2 && r[0] == Attack(t.id, DamageOf(doesDamage, TargetImpact(t, size, seen), size)) &&
            (|r| == 2 <==> t.isPlayer && t.shieldInHand && !t.attackCancelled) &&
            (|r| == 2 ==> r[1] == Knockback(t.id, TargetImpact(t, size, seen)))
  {
  }

  /** The actions of the whole entity loop over `ts`, in order, where
      `seen[i]` is the visible fraction of `ts[i]`. The loop issues one
      attack per target, so the log has between one and two actions per
      target. */
  function DamageLog(ts: seq<Target>, doesDamage: bool, size: real, seen: seq<real>): (r: seq<Action>)
    requires size != 0.0 && |seen| == |ts|
    ensures |ts| <= |r| <= 2 * |ts|
    decreases |ts|
  {
    if ts == [] then []
    else
      var n := |ts| - 1;
      DamageLog(ts[..n], doesDamage, size, seen[..n]) + TargetActions(ts[n], doesDamage, size, seen[n])
  }

  /** Taking one more target into the loop appends its actions to the log
      `before` the loop started. */
  lemma DamageLogStep(before: seq<Action>, ts: seq<Target>, doesDamage: bool, size: real, seen: seq<real>, n: nat, f: real)
    requires size != 0.0 && n < |ts| && |seen| == n
    ensures before + DamageLog(ts[..n + 1], doesDamage, size, seen + [f]) ==
              (before + DamageLog(ts[..n], doesDamage, size, seen)) + TargetActions(ts[n], doesDamage, size, f)
  {
    assert ts[..n + 1][..n] == ts[..n];
    assert (seen + [f])[..n] == seen;
  }

  /** Every attack in the entity loop's log hits a target with damage 0 when
      damage is off and at least 1 when it is on (positive size); every
      knockback goes to a player with a shield whose damage event went
      through. */
  lemma {:induction false} DamageLogFacts(ts: seq<Target>, doesDamage: bool, size: real, seen: seq<real>, n: nat)
    requires size > 0.0 && |seen| == |ts|
    requires n < |DamageLog(ts, doesDamage, size, seen)|
    ensures var a := DamageLog(ts, doesDamage, size, seen)[n];
            (a.Attack? || a.Knockback?) &&
            (a.Attack? ==> (exists i :: 0 <= i < |ts| && ts[i].id == a.entity) &&
                           (if doesDamage then a.damage >= 1 else a.damage == 0)) &&
            (a.Knockback? ==> exists i :: 0 <= i < |ts| && ts[i].id == a.entity &&
                                ts[i].isPlayer && ts[i].shieldInHand && !ts[i].attackCancelled)
    decreases |ts|
  {
    var last := |ts| - 1;
    var prev := DamageLog(ts[..last], doesDamage, size, seen[..last]);
    var tail := TargetActions(ts[last], doesDamage, size, seen[last]);
    var a := DamageLog(ts, doesDamage, size, seen)[n];
    if n < |prev| {
      DamageLogFacts(ts[..last], doesDamage, size, seen[..last], n);
      assert a == prev[n];
      if a.Attack? {
        var i :| 0 <= i < last && ts[..last][i].id == a.entity;
        assert ts[i].id == a.entity;
      }
      if a.Knockback? {
        var i :| 0 <= i < last && ts[..last][i].id == a.entity && ts[..last][i].isPlayer &&
                 ts[..last][i].shieldInHand && !ts[..last][i].attackCancelled;
        assert ts[i] == ts[..last][i];
      }
    } else {
      TargetActionsShape(ts[last], doesDamage, size, seen[last]);
      assert a == tail[n - |prev|];
      assert ts[last].id == a.entity;
    }
  }
}
