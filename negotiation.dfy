/** The event gate at the start of `Explosion::explodeB`: the yield the
    radius gives, and what the post-explosion event of the causer does to
    the yield, the affected list and the ignition set, as a pure function of
    the explosion's state and the observers' behaviour. */
module Negotiation {
  import opened Voxels
  import opened Damage
  import opened ExplodeEvents

  /** What caused the explosion (`Entity|Block|null`). For an entity: whether
      it is an Explosive standing in water. */
  datatype Causer =
    | ByEntity(id: int, explosive: bool, underwater: bool)
    | ByBlock(block: Snapshot)
    | Unattributed

  /** How an EntityExplodeEvent comes back from its observers: cancelled, or
      with the yield and block list they left in it. */
  datatype EntityOutcome =
    | EntityCancelled
    | EntityProceed(yieldPercent: real, blockList: seq<Snapshot>)

  /** The gate's verdict: cancelled, or go on with this yield, affected list
      and ignition set. */
  datatype Deal =
    | Cancelled
    | Proceed(yieldPercent: real, affected: seq<Snapshot>, ignitions: Option<set<Snapshot>>)

  /** `new \Ds\Set($list)`: the blocks of a list. */
  function Members(xs: seq<Snapshot>): set<Snapshot> {
    set x | x in xs
  }

  /** The ignition set the loops walk; an unset one is never walked. */
  function Ignitions(o: Option<set<Snapshot>>): set<Snapshot> {
    if o.Some? then o.value else {}
  }

  /** What a `listing` (`Ds\Set::toArray`) promises: the list holds exactly
      the set's elements, each once. */
  ghost predicate Lists(listing: set<Snapshot> -> seq<Snapshot>) {
    forall s :: Members(listing(s)) == s && |listing(s)| == |s|
  }

  /** The view a BlockExplodeEvent is created with. */
  function BlockEventView(affected: seq<Snapshot>, y: real, ignitions: set<Snapshot>, fireChance: real): EventView {
    EventView(affected, y, Members(affected), ignitions, fireChance)
  }

  /** Lines 136-172 of explodeB. `1 / radius` throws for a zero radius. An
      entity's event is created with the ignition set, a block's with the
      ignition set and the fire chance, so reading an unset one throws; the
      block event's constructor rejects a yield outside [0, 100] and an
      observer's `setYield` may throw too. `listing` is the order in which
      `toArray` returns the final affected set. An unattributed explosion
      has no event and keeps its state. */
  function Gate(what: Causer, radius: real, affected: seq<Snapshot>, fireChance: Option<real>,
                ignitions: Option<set<Snapshot>>, outcome: EntityOutcome, edits: seq<BlockEdit>,
                blockCancelled: bool, listing: set<Snapshot> -> seq<Snapshot>): (r: Result<Deal>)
    ensures r == Err(DivisionByZero) <==> radius == 0.0
    ensures r.Ok? && r.value.Cancelled? ==>
              (what.ByEntity? && outcome.EntityCancelled?) || (what.ByBlock? && blockCancelled)
    ensures r.Ok? && r.value.Proceed? && what.ByBlock? ==>
              YieldInRange(r.value.yieldPercent) && r.value.ignitions.Some?
    ensures r.Ok? && r.value.Proceed? && radius > 0.0 && what.Unattributed? ==> 0.0 < r.value.yieldPercent <= 100.0
    ensures r.Ok? && r.value.Proceed? && !what.ByBlock? ==> r.value.ignitions == ignitions
    ensures r.Ok? && what.ByEntity? ==> ignitions.Some?
    ensures what.Unattributed? && radius != 0.0 ==> r == Ok(Proceed(Yield(radius), affected, ignitions))
  {
    if radius == 0.0 then Err(DivisionByZero)
    else
      var y := Yield(radius);
      match what
      case ByEntity(_, _, _) =>
        if ignitions.None? then Err(Uninitialized)
        else if outcome.EntityCancelled? then Ok(Cancelled)
        else Ok(Proceed(outcome.yieldPercent, outcome.blockList, ignitions))
      case ByBlock(_) =>
        if ignitions.None? || fireChance.None? then Err(Uninitialized)
        else if !YieldInRange(y) then Err(InvalidArgument)
        else
          var v := Observe(BlockEventView(affected, y, ignitions.value, fireChance.value), edits);
          if v.None? then Err(InvalidArgument)
          else if blockCancelled then Ok(Cancelled)
          else Ok(Proceed(v.value.yieldPercent, listing(v.value.affected), Some(v.value.ignitions)))
      case Unattributed => Ok(Proceed(y, affected, ignitions))
  }

  /** A block explosion whose observers leave the event alone goes on with
      the radius's yield, the affected blocks it traced and its ignitions. */
  lemma BlockUntouched(b: Snapshot, radius: real, affected: seq<Snapshot>, fc: real, ign: set<Snapshot>,
                       outcome: EntityOutcome, listing: set<Snapshot> -> seq<Snapshot>)
    requires radius > 0.0 && Lists(listing)
    ensures var r := Gate(ByBlock(b), radius, affected, Some(fc), Some(ign), outcome, [], false, listing);
            r.Ok? && r.value.Proceed? && r.value.yieldPercent == Yield(radius) &&
            Members(r.value.affected) == Members(affected) && r.value.ignitions == Some(ign)
  {
    var s := Members(affected);
    assert Members(listing(s)) == s;
  }

  /** Under a block's event, the deal carries the affected set, the yield
      and the ignitions the last observer call setting each of them stored,
      or the initial ones when no call set it. */
  lemma {:induction false} BlockLastWrite(b: Snapshot, radius: real, affected: seq<Snapshot>, fc: real,
                                          ign: set<Snapshot>, outcome: EntityOutcome, edits: seq<BlockEdit>,
                                          listing: set<Snapshot> -> seq<Snapshot>)
    requires Lists(listing)
    requires Gate(ByBlock(b), radius, affected, Some(fc), Some(ign), outcome, edits, false, listing).Ok?
    ensures var d := Gate(ByBlock(b), radius, affected, Some(fc), Some(ign), outcome, edits, false, listing).value;
            d.Proceed? &&
            (Untouched(edits, AffectedField) ==> Members(d.affected) == Members(affected)) &&
            (forall n :: LastWriter(edits, n, AffectedField) ==> Members(d.affected) == edits[n].s) &&
            (Untouched(edits, YieldField) ==> d.yieldPercent == Yield(radius)) &&
            (forall n :: LastWriter(edits, n, YieldField) ==> d.yieldPercent == edits[n].y) &&
            (Untouched(edits, IgnitionsField) ==> d.ignitions == Some(ign)) &&
            (forall n :: LastWriter(edits, n, IgnitionsField) ==> d.ignitions == Some(edits[n].s))
  {
    var v0 := BlockEventView(affected, Yield(radius), ign, fc);
    ObserveLastWrite(v0, edits);
    var v := Observe(v0, edits).value;
    assert Members(listing(v.affected)) == v.affected;
  }

  /** For a positive radius the yield the block event is created with is a
      valid percentage, so its constructor never throws from here: a block
      explosion's InvalidArgument always comes from an observer's
      out-of-range `setYield`. */
  lemma BlockYieldOnlyRejectedByObservers(b: Snapshot, radius: real, affected: seq<Snapshot>, fireChance: Option<real>,
                                          ignitions: Option<set<Snapshot>>, outcome: EntityOutcome, edits: seq<BlockEdit>,
                                          blockCancelled: bool, listing: set<Snapshot> -> seq<Snapshot>)
    requires radius > 0.0
    ensures YieldInRange(Yield(radius))
    ensures Gate(ByBlock(b), radius, affected, fireChance, ignitions, outcome, edits, blockCancelled, listing) == Err(InvalidArgument) ==>
              exists n :: 0 <= n < |edits| && edits[n].EditYield? && !YieldInRange(edits[n].y)
  {
  }

  /** With every read defined and every yield valid, a cancelling observer
      stops an entity's or a block's explosion, and an unattributed explosion
      goes on regardless. */
  lemma CancelledOnlyByEvents(what: Causer, radius: real, affected: seq<Snapshot>, fireChance: Option<real>,
                              ignitions: Option<set<Snapshot>>, edits: seq<BlockEdit>,
                              listing: set<Snapshot> -> seq<Snapshot>)
    requires radius != 0.0 && ignitions.Some? && fireChance.Some?
    requires what.ByBlock? ==>
               YieldInRange(Yield(radius)) &&
               forall n :: 0 <= n < |edits| && edits[n].EditYield? ==> YieldInRange(edits[n].y)
    ensures Gate(what, radius, affected, fireChance, ignitions, EntityCancelled, edits, true, listing) ==
              if what.Unattributed? then Ok(Proceed(Yield(radius), affected, ignitions)) else Ok(Cancelled)
  {
  }
}
