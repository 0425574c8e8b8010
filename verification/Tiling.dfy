/** Sets of fuse trees that tile a range of rows, and the adjacency array that
    remembers the idle ones. */
module Tiling {
  import opened Totals
  import opened FuseTrees
  import opened UnorderedBatch

  // - - -- --- ----- -------- Tilings

  ghost predicate Apart(t: Tree, u: Tree) {
    Bottom(t) < Top(u) || Bottom(u) < Top(t)
  }

  ghost predicate CoversRow(t: Tree, y: nat) {
    Top(t) <= y <= Bottom(t)
  }

  /** How many copies of each tree there are. */
  type Census = Tree -> nat

  ghost predicate Member(live: Census, t: Tree) {
    live(t) > 0
  }

  ghost predicate Covered(live: Census, y: nat) {
    exists t :: Member(live, t) && CoversRow(t, y)
  }

  /** The trees cover each of the rows lo..h-1 exactly once. */
  ghost predicate Tiles(live: Census, lo: nat, h: nat) {
    && (forall t :: Member(live, t) ==> InOrder(t) && lo <= Top(t) <= Bottom(t) < h && live(t) == 1)
    && (forall t, u :: Member(live, t) && Member(live, u) && t != u ==> Apart(t, u))
    && (forall y: nat :: lo <= y < h ==> Covered(live, y))
  }

  function Is(t: Tree, u: Tree): nat {
    if t == u then 1 else 0
  }

  lemma TilesSame(live: Census, next: Census, lo: nat, h: nat)
    requires Tiles(live, lo, h)
    requires forall t :: next(t) == live(t)
    ensures Tiles(next, lo, h)
  {
    forall t ensures Member(next, t) <==> Member(live, t) {
      assert next(t) == live(t);
    }
    forall y: nat | lo <= y < h ensures Covered(next, y) {
      assert Covered(live, y);
      var t :| Member(live, t) && CoversRow(t, y);
      assert Member(next, t);
    }
  }

  lemma TilesIssue(live: Census, next: Census, lo: nat, h: nat)
    requires Tiles(live, lo, h) && 0 < lo <= h
    requires forall t :: next(t) == live(t) + Is(t, Row(lo - 1))
    ensures Tiles(next, lo - 1, h)
  {
    var r := Row(lo - 1);
    forall t ensures Member(next, t) <==> Member(live, t) || t == r {
      assert next(t) == live(t) + Is(t, r);
    }
    assert !Member(live, r);
    forall y: nat | lo - 1 <= y < h ensures Covered(next, y) {
      if y == lo - 1 {
        assert Member(next, r) && CoversRow(r, y);
      } else {
        assert Covered(live, y);
        var t :| Member(live, t) && CoversRow(t, y);
        assert Member(next, t);
      }
    }
  }

  ghost predicate Joined(live: Census, next: Census, a: Tree, b: Tree) {
    forall t :: next(t) + Is(t, a) + Is(t, b) == live(t) + Is(t, Fused(a, b))
  }

  lemma FusedMembers(live: Census, next: Census, lo: nat, h: nat, a: Tree, b: Tree)
    requires Tiles(live, lo, h) && Member(live, a) && Member(live, b) && Bottom(a) + 1 == Top(b)
    requires Joined(live, next, a, b)
    ensures forall t :: Member(next, t) ==> next(t) == 1
    ensures forall t :: Member(next, t) <==> t == Fused(a, b) || (Member(live, t) && t != a && t != b)
  {
    var c := Fused(a, b);
    assert a != b;
    assert Member(live, c) ==> Apart(c, a);
    forall t ensures (Member(next, t) <==> t == c || (Member(live, t) && t != a && t != b)) && next(t) <= 1 {
      assert next(t) + Is(t, a) + Is(t, b) == live(t) + Is(t, c);
    }
  }

  lemma TilesFuse(live: Census, next: Census, lo: nat, h: nat, a: Tree, b: Tree)
    requires Tiles(live, lo, h) && Member(live, a) && Member(live, b) && Bottom(a) + 1 == Top(b)
    requires Joined(live, next, a, b)
    ensures Tiles(next, lo, h)
  {
    var c := Fused(a, b);
    FusedMembers(live, next, lo, h, a, b);
    forall t, u | Member(next, t) && Member(next, u) && t != u ensures Apart(t, u) {
      if u == c { assert Apart(t, a) && Apart(t, b); }
      if t == c { assert Apart(u, a) && Apart(u, b); }
    }
    forall y: nat | lo <= y < h ensures Covered(next, y) {
      assert Covered(live, y);
      var t :| Member(live, t) && CoversRow(t, y);
      var u := if t == a || t == b then c else t;
      assert Member(next, u) && CoversRow(u, y);
    }
  }

  ghost predicate Full(t: Tree, h: nat) {
    Top(t) == 0 && Bottom(t) == h - 1
  }

  /** A tree covering everything leaves no room for another one. */
  lemma FullIsAlone(live: Census, lo: nat, h: nat, t: Tree, u: Tree)
    requires Tiles(live, lo, h) && Member(live, t) && Full(t, h)
    ensures live(u) == Is(u, t)
  {
    assert Member(live, u) && u != t ==> Apart(t, u);
  }

  // - - -- --- ----- -------- The adjacency array

  function Entry(o: Option<Tree>, k: nat, t: Tree): nat {
    if o == Some(t) && Top(t) == k then 1 else 0
  }

  /** How often t is recorded in the first n rows, counted at its top row. */
  function RecordedTo(row: seq<Option<Tree>>, n: nat, t: Tree): nat
    requires n <= |row|
  {
    if n == 0 then 0 else RecordedTo(row, n - 1, t) + Entry(row[n - 1], n - 1, t)
  }

  function Recorded(row: seq<Option<Tree>>, t: Tree): nat {
    RecordedTo(row, |row|, t)
  }

  lemma {:induction false} RecordedStore(row: seq<Option<Tree>>, k: nat, v: Option<Tree>, n: nat, t: Tree)
    requires k < |row| && n <= |row|
    ensures RecordedTo(row[k := v], n, t) + (if k < n then Entry(row[k], k, t) else 0)
         == RecordedTo(row, n, t) + (if k < n then Entry(v, k, t) else 0)
  {
    if n > 0 { RecordedStore(row, k, v, n - 1, t); }
  }

  lemma {:induction false} RecordedIs(row: seq<Option<Tree>>, n: nat, t: Tree)
    requires n <= |row|
    ensures RecordedTo(row, n, t) == if Top(t) < n && row[Top(t)] == Some(t) then 1 else 0
  {
    if n > 0 { RecordedIs(row, n - 1, t); }
  }

  ghost predicate AtHome(row: seq<Option<Tree>>, k: nat) {
    && k < |row| && row[k].Some?
    && var t := row[k].value;
       && Top(t) <= Bottom(t) < |row| && (k == Top(t) || k == Bottom(t))
       && row[Top(t)] == Some(t) && (row[Bottom(t)] == Some(t) || Full(t, |row|))
  }

  /** Entries sit at the two ends of their tree (a full tree only at row 0), and
      no two recorded trees touch: otherwise they would have been fused. */
  ghost predicate Tidy(row: seq<Option<Tree>>) {
    && (forall k: nat :: k < |row| && row[k].Some? ==> AtHome(row, k))
    && (forall k: nat :: 0 < k < |row| && row[k-1].Some? && row[k].Some? ==> row[k-1] == row[k])
  }

  /** The block at hand is apart from every recorded one. */
  ghost predicate Fresh(row: seq<Option<Tree>>, t: Tree) {
    && Top(t) <= Bottom(t) < |row|
    && forall k: nat :: k < |row| && row[k].Some? ==> Apart(t, row[k].value)
  }

  /** No entry in the rows of the block. */
  ghost predicate Vacant(row: seq<Option<Tree>>, t: Tree) {
    && Top(t) <= Bottom(t) < |row|
    && forall k: nat :: Top(t) <= k <= Bottom(t) ==> row[k].None?
  }

  ghost predicate Lonely(row: seq<Option<Tree>>, t: Tree) {
    && Vacant(row, t)
    && (Top(t) > 0 ==> row[Top(t) - 1].None?)
    && (Bottom(t) + 1 < |row| ==> row[Bottom(t) + 1].None?)
  }

  lemma FreshIsVacant(row: seq<Option<Tree>>, t: Tree)
    requires Tidy(row) && Fresh(row, t)
    ensures Vacant(row, t)
  {
    forall k: nat | Top(t) <= k <= Bottom(t) ensures row[k].None? {
      assert row[k].Some? ==> AtHome(row, k);
    }
  }

  /** The neighbours the callback looks at are exactly the adjacent blocks: an
      entry just above the block ends there, one just below it starts there. */
  lemma NeighbourAdjacent(row: seq<Option<Tree>>, t: Tree)
    requires Tidy(row) && Fresh(row, t)
    ensures Top(t) > 0 && row[Top(t) - 1].Some? ==> Bottom(row[Top(t) - 1].value) + 1 == Top(t)
    ensures Bottom(t) + 1 < |row| && row[Bottom(t) + 1].Some? ==> Top(row[Bottom(t) + 1].value) == Bottom(t) + 1
  {
    assert Top(t) > 0 && row[Top(t) - 1].Some? ==> AtHome(row, Top(t) - 1);
    assert Bottom(t) + 1 < |row| && row[Bottom(t) + 1].Some? ==> AtHome(row, Bottom(t) + 1);
  }

  /** Taking a recorded, not full tree out clears both its entries. */
  lemma TakeOut(row: seq<Option<Tree>>, x: Tree)
    requires Tidy(row) && Top(x) < |row| && row[Top(x)] == Some(x) && !Full(x, |row|)
    ensures Tidy(AtEnds(row, x, None))
    ensures forall t :: Recorded(AtEnds(row, x, None), t) + Is(t, x) == Recorded(row, t)
  {
    TakeOutHome(row, x);
    var next := AtEnds(row, x, None);
    assert AtHome(row, Top(x));
    forall t ensures Recorded(next, t) + Is(t, x) == Recorded(row, t) {
      RecordedIs(next, |row|, t);
      RecordedIs(row, |row|, t);
    }
  }

  lemma TakeOutHome(row: seq<Option<Tree>>, x: Tree)
    requires Tidy(row) && Top(x) < |row| && row[Top(x)] == Some(x) && !Full(x, |row|)
    ensures Tidy(AtEnds(row, x, None))
  {
    var next := AtEnds(row, x, None);
    assert AtHome(row, Top(x));
    forall k: nat | k < |next| && next[k].Some? ensures AtHome(next, k) {
      assert AtHome(row, k);
    }
  }

  /** Recording a block without neighbours. */
  lemma PutIn(row: seq<Option<Tree>>, t: Tree)
    requires Tidy(row) && Lonely(row, t)
    ensures Tidy(AtEnds(row, t, Some(t)))
    ensures forall u :: Recorded(AtEnds(row, t, Some(t)), u) == Recorded(row, u) + Is(u, t)
  {
    PutInHome(row, t);
    var next := AtEnds(row, t, Some(t));
    forall u ensures Recorded(next, u) == Recorded(row, u) + Is(u, t) {
      RecordedIs(next, |row|, u);
      RecordedIs(row, |row|, u);
    }
  }

  lemma PutInHome(row: seq<Option<Tree>>, t: Tree)
    requires Tidy(row) && Lonely(row, t)
    ensures Tidy(AtEnds(row, t, Some(t)))
  {
    var next := AtEnds(row, t, Some(t));
    forall k: nat | k < |next| && next[k].Some? ensures AtHome(next, k) {
      if k != Top(t) && k != Bottom(t) { assert AtHome(row, k); }
    }
    forall k: nat | 0 < k < |next| && next[k-1].Some? && next[k].Some? ensures next[k-1] == next[k] {
      PutInApart(row, t, k);
    }
  }

  lemma PutInApart(row: seq<Option<Tree>>, t: Tree, k: nat)
    requires Tidy(row) && Lonely(row, t) && 0 < k < |row|
    requires var next := AtEnds(row, t, Some(t)); next[k-1].Some? && next[k].Some?
    ensures var next := AtEnds(row, t, Some(t)); next[k-1] == next[k]
  {
  }

  /** The block of all rows: the callback enters it at row 0. */
  lemma PutFull(row: seq<Option<Tree>>, t: Tree)
    requires Vacant(row, t) && Full(t, |row|)
    ensures Tidy(row[0 := Some(t)])
    ensures forall u :: Recorded(row[0 := Some(t)], u) == Recorded(row, u) + Is(u, t)
  {
    forall u ensures Recorded(row[0 := Some(t)], u) == Recorded(row, u) + Is(u, t) {
      RecordedStore(row, 0, Some(t), |row|, u);
    }
  }

  /** When nothing but recorded blocks is left and they tile all rows, the block
      of all rows is among them: two recorded blocks never touch. */
  lemma OnlyRecordedMeansFull(row: seq<Option<Tree>>, live: Census)
    requires Tidy(row) && |row| > 0 && Tiles(live, 0, |row|)
    requires forall t :: live(t) == Recorded(row, t)
    ensures row[0].Some? && Full(row[0].value, |row|)
  {
    var h := |row|;
    assert Covered(live, 0);
    var t :| Member(live, t) && CoversRow(t, 0);
    RecordedIs(row, h, t);
    assert AtHome(row, Top(t));
    if Bottom(t) != h - 1 {
      assert Covered(live, Bottom(t) + 1);
      var u :| Member(live, u) && CoversRow(u, Bottom(t) + 1);
      RecordedIs(row, h, u);
      assert t == u || Apart(t, u);
    }
  }
}
