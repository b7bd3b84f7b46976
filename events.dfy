/** The two cancellable records the explosion negotiates through: the event
    fired before a block explodes, and the event fired once the affected
    blocks are known. Cancellation itself (CancellableTrait) is not part of
    these records; the dispatcher's verdict is an input of the explosion. */
module ExplodeEvents {
  import opened Voxels

  /** The yield range both the constructor and `setYield` accept. */
  predicate YieldInRange(y: real) {
    0.0 <= y <= 100.0
  }

  class BlockExplodeEvent {
    const block: Snapshot
    const position: Vec3
    var blocks: seq<Snapshot>
    var yieldPercent: real
    var affectedBlocks: set<Snapshot>
    var ignitions: set<Snapshot>
    var fireChance: real

    /** The object invariant: the yield is a percentage. */
    ghost predicate Valid()
      reads this
    {
      YieldInRange(yieldPercent)
    }

    /** Stores its arguments; only `Create` calls it, after the range check. */
    constructor Init(block: Snapshot, position: Vec3, blocks: seq<Snapshot>, yieldPercent: real,
                     affectedBlocks: set<Snapshot>, ignitions: set<Snapshot>, fireChance: real)
      requires YieldInRange(yieldPercent)
      ensures Valid()
      ensures this.block == block && this.position == position && this.blocks == blocks
      ensures this.yieldPercent == yieldPercent && this.affectedBlocks == affectedBlocks
      ensures this.ignitions == ignitions && this.fireChance == fireChance
    {
      this.block := block;
      this.position := position;
      this.blocks := blocks;
      this.yieldPercent := yieldPercent;
      this.affectedBlocks := affectedBlocks;
      this.ignitions := ignitions;
      this.fireChance := fireChance;
    }

    /** `new BlockExplodeEvent(...)`: throws (here: `None`) exactly when the
        yield is below 0 or above 100. */
    static method Create(block: Snapshot, position: Vec3, blocks: seq<Snapshot>, yieldPercent: real,
                         affectedBlocks: set<Snapshot>, ignitions: set<Snapshot>, fireChance: real)
      returns (r: Option<BlockExplodeEvent>)
      ensures r.Some? <==> YieldInRange(yieldPercent)
      ensures r.Some? ==> fresh(r.value) && r.value.Valid()
      ensures r.Some? ==> r.value.block == block && r.value.position == position
      ensures r.Some? ==> r.value.blocks == blocks && r.value.yieldPercent == yieldPercent
      ensures r.Some? ==> r.value.affectedBlocks == affectedBlocks && r.value.ignitions == ignitions
      ensures r.Some? ==> r.value.fireChance == fireChance
    {
      if yieldPercent < 0.0 || yieldPercent > 100.0 {
        return None;
      }
      var e := new BlockExplodeEvent.Init(block, position, blocks, yieldPercent, affectedBlocks, ignitions, fireChance);
      return Some(e);
    }

    /** The event's editable fields, as a value. */
    function View(): (v: EventView)
      reads this
      ensures v.blocks == blocks && v.yieldPercent == yieldPercent && v.affected == affectedBlocks
      ensures v.ignitions == ignitions && v.fireChance == fireChance
    {
      EventView(blocks, yieldPercent, affectedBlocks, ignitions, fireChance)
    }

    function GetPosition(): Vec3 reads this { position }
    function GetBlockList(): seq<Snapshot> reads this { blocks }
    function GetYield(): real reads this { yieldPercent }
    function GetAffectedBlocks(): set<Snapshot> reads this { affectedBlocks }
    function GetIgnitions(): set<Snapshot> reads this { ignitions }
    function GetFireChance(): real reads this { fireChance }

    /** Replaces the block list; every element is a block by typing, so the
        value check of the PHP setter always passes. */
    method SetBlockList(bs: seq<Snapshot>)
      requires Valid()
      modifies this`blocks
      ensures Valid() && GetBlockList() == bs
    {
      blocks := bs;
    }

    /** Returns false (where the PHP setter throws) on an out-of-range yield, leaving the
        stored yield as it was; otherwise stores it. */
    method SetYield(y: real) returns (ok: bool)
      requires Valid()
      modifies this`yieldPercent
      ensures Valid()
      ensures ok <==> YieldInRange(y)
      ensures GetYield() == if ok then y else old(yieldPercent)
    {
      if y < 0.0 || y > 100.0 {
        return false;
      }
      yieldPercent := y;
      return true;
    }

    method SetAffectedBlocks(s: set<Snapshot>)
      requires Valid()
      modifies this`affectedBlocks
      ensures Valid() && GetAffectedBlocks() == s
    {
      affectedBlocks := s;
    }

    method SetIgnitions(s: set<Snapshot>)
      requires Valid()
      modifies this`ignitions
      ensures Valid() && GetIgnitions() == s
    {
      ignitions := s;
    }

    /** Stores any value: the fire chance is not validated. */
    method SetFireChance(f: real)
      requires Valid()
      modifies this`fireChance
      ensures Valid() && GetFireChance() == f
    {
      fireChance := f;
    }
  }

  /** The editable fields of a BlockExplodeEvent. */
  datatype EventView = EventView(
    blocks: seq<Snapshot>,
    yieldPercent: real,
    affected: set<Snapshot>,
    ignitions: set<Snapshot>,
    fireChance: real)

  /** One setter call an observer of the event makes. */
  datatype BlockEdit =
    | EditBlockList(bs: seq<Snapshot>)
    | EditYield(y: real)
    | EditAffected(s: set<Snapshot>)
    | EditIgnitions(s: set<Snapshot>)
    | EditFireChance(f: real)

  /** The effect of one setter call: `None` when `setYield` throws. */
  function Edit(v: EventView, e: BlockEdit): Option<EventView> {
    match e
    case EditBlockList(bs) => Some(v.(blocks := bs))
    case EditYield(y) => if YieldInRange(y) then Some(v.(yieldPercent := y)) else None
    case EditAffected(s) => Some(v.(affected := s))
    case EditIgnitions(s) => Some(v.(ignitions := s))
    case EditFireChance(f) => Some(v.(fireChance := f))
  }

  /** A run of setter calls, stopped by the first exception. It fails exactly
      when some yield in it is out of range, and it never takes the yield out
      of [0, 100]. */
  function Observe(v: EventView, edits: seq<BlockEdit>): (r: Option<EventView>)
    ensures r.Some? <==> forall n :: 0 <= n < |edits| && edits[n].EditYield? ==> YieldInRange(edits[n].y)
    ensures r.Some? && YieldInRange(v.yieldPercent) ==> YieldInRange(r.value.yieldPercent)
    decreases |edits|
  {
    if edits == [] then Some(v)
    else
      match Edit(v, edits[0])
      case None => None
      case Some(v') =>
        var r := Observe(v', edits[1..]);
        assert forall n :: 1 <= n < |edits| ==> edits[n] == edits[1..][n - 1];
        r
  }

  /** The field of the event a setter call writes. */
  datatype EventField = BlockListField | YieldField | AffectedField | IgnitionsField | FireChanceField

  function Writes(e: BlockEdit): EventField {
    match e
    case EditBlockList(_) => BlockListField
    case EditYield(_) => YieldField
    case EditAffected(_) => AffectedField
    case EditIgnitions(_) => IgnitionsField
    case EditFireChance(_) => FireChanceField
  }

  /** `edits[n]` is the last setter call that writes field `f`. */
  predicate LastWriter(edits: seq<BlockEdit>, n: int, f: EventField) {
    0 <= n < |edits| && Writes(edits[n]) == f && forall m :: n < m < |edits| ==> Writes(edits[m]) != f
  }

  /** No setter call writes field `f`. */
  predicate Untouched(edits: seq<BlockEdit>, f: EventField) {
    forall m :: 0 <= m < |edits| ==> Writes(edits[m]) != f
  }

  /** How the last writer of a field and its absence look from the rest of
      the calls after the first. */
  lemma LastWriterTail(edits: seq<BlockEdit>, f: EventField)
    requires |edits| > 0
    ensures Untouched(edits, f) ==> Untouched(edits[1..], f)
    ensures LastWriter(edits, 0, f) ==> Untouched(edits[1..], f)
    ensures forall n :: LastWriter(edits, n, f) && n > 0 ==> LastWriter(edits[1..], n - 1, f)
    ensures Writes(edits[0]) != f ==> forall n :: LastWriter(edits, n, f) ==> n > 0
  {
    assert forall m :: 1 <= m < |edits| ==> edits[m] == edits[1..][m - 1];
  }

  /** Every field ends with the value its last setter call stored, or with
      its initial value when no call set it, whatever the calls to the other
      fields in between. */
  lemma {:induction false} ObserveLastWrite(v: EventView, edits: seq<BlockEdit>)
    requires Observe(v, edits).Some?
    ensures var r := Observe(v, edits).value;
            (Untouched(edits, BlockListField) ==> r.blocks == v.blocks) &&
            (forall n :: LastWriter(edits, n, BlockListField) ==> r.blocks == edits[n].bs)
    ensures var r := Observe(v, edits).value;
            (Untouched(edits, YieldField) ==> r.yieldPercent == v.yieldPercent) &&
            (forall n :: LastWriter(edits, n, YieldField) ==> r.yieldPercent == edits[n].y)
    ensures var r := Observe(v, edits).value;
            (Untouched(edits, AffectedField) ==> r.affected == v.affected) &&
            (forall n :: LastWriter(edits, n, AffectedField) ==> r.affected == edits[n].s)
    ensures var r := Observe(v, edits).value;
            (Untouched(edits, IgnitionsField) ==> r.ignitions == v.ignitions) &&
            (forall n :: LastWriter(edits, n, IgnitionsField) ==> r.ignitions == edits[n].s)
    ensures var r := Observe(v, edits).value;
            (Untouched(edits, FireChanceField) ==> r.fireChance == v.fireChance) &&
            (forall n :: LastWriter(edits, n, FireChanceField) ==> r.fireChance == edits[n].f)
    decreases |edits|
  {
    if edits != [] {
      var v' := Edit(v, edits[0]).value;
      assert Observe(v, edits) == Observe(v', edits[1..]);
      ObserveLastWrite(v', edits[1..]);
      LastWriterTail(edits, BlockListField);
      LastWriterTail(edits, YieldField);
      LastWriterTail(edits, AffectedField);
      LastWriterTail(edits, IgnitionsField);
      LastWriterTail(edits, FireChanceField);
    }
  }

  /** The observers of a BlockExplodeEvent call its setters in turn; an
      exception from `setYield` ends the run (`ok` false). */
  method ApplyEdits(ev: BlockExplodeEvent, edits: seq<BlockEdit>) returns (ok: bool)
    requires ev.Valid()
    modifies ev
    ensures ev.Valid()
    ensures ok <==> Observe(old(ev.View()), edits).Some?
    ensures ok ==> ev.View() == Observe(old(ev.View()), edits).value
  {
    var n := 0;
    while n < |edits|
      invariant 0 <= n <= |edits|
      invariant ev.Valid()
      invariant Observe(old(ev.View()), edits) == Observe(ev.View(), edits[n..])
    {
      assert edits[n..][1..] == edits[n + 1..];
      match edits[n] {
        case EditBlockList(bs) => ev.SetBlockList(bs);
        case EditYield(y) =>
          var accepted := ev.SetYield(y);
          if !accepted {
            return false;
          }
        case EditAffected(s) => ev.SetAffectedBlocks(s);
        case EditIgnitions(s) => ev.SetIgnitions(s);
        case EditFireChance(f) => ev.SetFireChance(f);
      }
      n := n + 1;
    }
    return true;
  }

  /** The fire chance `setIncendiary(b)` leaves behind when it was `fc`. */
  function IncendiaryUpdate(fc: real, b: bool): (r: real)
    ensures (r > 0.0) == b
    ensures !b ==> r == 0.0
    ensures b && fc > 0.0 ==> r == fc
    ensures b && fc <= 0.0 ==> r == 1.0 / 3.0
  {
    if !b then 0.0 else if fc <= 0.0 then 1.0 / 3.0 else fc
  }

  /** Calling `setIncendiary(b)` twice leaves the same fire chance as once. */
  lemma IncendiaryUpdateIdempotent(fc: real, b: bool)
    ensures IncendiaryUpdate(IncendiaryUpdate(fc, b), b) == IncendiaryUpdate(fc, b)
  {
  }

  class BlockPreExplodeEvent {
    const block: Snapshot
    const player: Option<int>
    var force: real
    var fireChance: real
    var blockBreaking: bool

    /** Defaults: no player, force 4.0, fire chance 1.0, blocks break. */
    constructor (block: Snapshot, player: Option<int> := None, force: real := 4.0,
                 fireChance: real := 1.0, blockBreaking: bool := true)
      ensures this.block == block && this.player == player
      ensures this.force == force && this.fireChance == fireChance
      ensures this.blockBreaking == blockBreaking
    {
      this.block := block;
      this.player := player;
      this.force := force;
      this.fireChance := fireChance;
      this.blockBreaking := blockBreaking;
    }

    function GetForce(): real reads this { force }
    function IsBlockBreaking(): bool reads this { blockBreaking }
    function GetFireChance(): real reads this { fireChance }
    function GetPlayer(): Option<int> { player }

    /** Incendiary exactly when the fire chance is positive. */
    function IsIncendiary(): (r: bool)
      reads this
      ensures r <==> fireChance > 0.0
    {
      fireChance > 0.0
    }

    method SetForce(f: real)
      modifies this`force
      ensures GetForce() == f
    {
      force := f;
    }

    method SetBlockBreaking(b: bool)
      modifies this`blockBreaking
      ensures IsBlockBreaking() == b
    {
      blockBreaking := b;
    }

    method SetFireChance(f: real)
      modifies this`fireChance
      ensures GetFireChance() == f
    {
      fireChance := f;
    }

    /** `false` zeroes the fire chance; `true` keeps a positive one and
        otherwise sets it to 1/3. Afterwards `IsIncendiary() == b`. */
    method SetIncendiary(b: bool)
      modifies this`fireChance
      ensures fireChance == IncendiaryUpdate(old(fireChance), b)
      ensures IsIncendiary() == b
    {
      if !b {
        fireChance := 0.0;
      } else {
        if fireChance <= 0.0 {
          fireChance := 1.0 / 3.0;
        }
      }
    }
  }

  /** A client of the pre-explosion event: two calls of `setIncendiary` with
      the same argument leave what one call leaves, and touch nothing but the
      fire chance. */
  method SetIncendiaryTwice(e: BlockPreExplodeEvent, b: bool)
    modifies e`fireChance
    ensures e.fireChance == IncendiaryUpdate(old(e.fireChance), b)
    ensures e.IsIncendiary() == b
  {
    e.SetIncendiary(b);
    e.SetIncendiary(b);
    IncendiaryUpdateIdempotent(old(e.fireChance), b);
  }
}
