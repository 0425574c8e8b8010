/** All the linked blocks of a component search at once: whatever workers scan and
    fuse, and in whatever order, the blocks share no record and stay correct. */
module ConnectedPool {
  import opened Images
  import opened Components
  import opened ComponentLists
  import opened FuseTrees
  import opened ConnectedTasks
  import opened ConnectedSearch
  import Connectivity

  /** What a block holds: its value, and the records that belong to it. */
  datatype Held = Held(value: Block, records: set<object>)

  ghost predicate Owns(b: CcBlock, records: set<object>)
    reads b
  {
    b.Footprint() <= records
  }

  /** The block is sound, has no other records, and holds this value, which is correct
      for its rows. */
  ghost predicate Intact(img: Image, eight: bool, b: CcBlock, held: Held)
    reads b, held.records
  {
    && Owns(b, held.records) && held.value.rows != []
    && forall found :: Lists(b, found) ==> b.Valid() && b.View() == held.value && Connectivity.Correct(img, eight, held.value)
  }

  lemma IntactMeans(img: Image, eight: bool, b: CcBlock, held: Held)
    requires Intact(img, eight, b, held)
    ensures b.Valid() && b.View() == held.value && Connectivity.Correct(img, eight, held.value) && b.Footprint() <= held.records
  {
    assert Lists(b, CcViews(b.ccs));
  }

  /** Blocks with what they hold, no two of which share a record. */
  ghost predicate Pool(img: Image, eight: bool, pool: map<CcBlock, Held>)
    reads pool.Keys, set b, o | b in pool && o in pool[b].records :: o
  {
    && (forall b :: b in pool ==> Intact(img, eight, b, pool[b]))
    && (forall b, c :: b in pool && c in pool && b != c ==> pool[b].records !! pool[c].records)
  }

  /** A row task adds the block of the row. */
  method ScanIntoPool(img: Image, eight: bool, y: nat, ghost pool: map<CcBlock, Held>) returns (block: CcBlock, ghost records: set<object>)
    requires y < |img| && Pool(img, eight, pool)
    ensures block !in pool && Pool(img, eight, pool[block := Held(ScanRow(y, img[y]), records)])
  {
    block, records := ScanIntact(img, eight, y);
  }

  method ScanIntact(img: Image, eight: bool, y: nat) returns (block: CcBlock, ghost records: set<object>)
    requires y < |img|
    ensures fresh(block) && fresh(records) && Intact(img, eight, block, Held(ScanRow(y, img[y]), records))
  {
    block := WorkRow(img, eight, y);
    records := block.Footprint();
  }

  /** What two blocks hold when they are fused. */
  ghost function FusedHeld(eight: bool, upper: Held, lower: Held): Held
    requires upper.value.rows != [] && lower.value.rows != []
  {
    Held(Fuse(eight, upper.value, lower.value), upper.records + lower.records)
  }

  /** A fuse task on two of the blocks, one right below the other, leaves the others
      as they are. */
  method FuseInPool(img: Image, eight: bool, a: CcBlock, b: CcBlock, ghost pool: map<CcBlock, Held>) returns (block: CcBlock)
    requires Pool(img, eight, pool) && a in pool && b in pool && a != b && pool[a].value.ymax + 1 == pool[b].value.ymin
    modifies pool[a].records, pool[b].records
    ensures block == a && Pool(img, eight, (pool - {b})[a := FusedHeld(eight, pool[a], pool[b])])
  {
    block := FuseIntact(img, eight, a, b, pool[a], pool[b]);
  }

  method FuseIntact(img: Image, eight: bool, a: CcBlock, b: CcBlock, ghost upper: Held, ghost lower: Held) returns (block: CcBlock)
    requires Intact(img, eight, a, upper) && Intact(img, eight, b, lower) && a != b && upper.value.ymax + 1 == lower.value.ymin
    modifies upper.records, lower.records
    ensures block == a && Intact(img, eight, a, FusedHeld(eight, upper, lower))
  {
    IntactMeans(img, eight, a, upper);
    IntactMeans(img, eight, b, lower);
    block := WorkFuse(img, eight, a, b);
  }

  /** The tasks a block comes from, done on the records: the result is that of the same
      history on values. */
  method Build(img: Image, eight: bool, t: Tree) returns (block: CcBlock, ghost records: set<object>)
    requires InOrder(t) && forall y :: y in Rows(t) ==> y < |img|
    ensures fresh(block) && fresh(records) && Intact(img, eight, block, Held(Replay(img, eight, t), records))
    decreases t
  {
    match t
    case Row(y) =>
      assert y in Rows(t);
      block, records := ScanIntact(img, eight, y);
    case Fused(u, v) =>
      assert forall y :: y in Rows(u) || y in Rows(v) ==> y in Rows(t);
      ReplayCorrect(img, eight, u);
      ReplayCorrect(img, eight, v);
      ghost var upper, lower;
      var a, b;
      a, upper := Build(img, eight, u);
      b, lower := Build(img, eight, v);
      block := FuseIntact(img, eight, a, b, Held(Replay(img, eight, u), upper), Held(Replay(img, eight, v), lower));
      records := upper + lower;
  }
}
