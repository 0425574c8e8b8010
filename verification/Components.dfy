/** Component records and blocks of rows as values: what the linked structures of
    cconn.c hold, and what scanning a row and fusing two blocks compute. */
module Components {
  import opened Runs

  /** aktive_uint is a 32 bit unsigned integer. */
  const U32 := 0x1_0000_0000

  function Add32(a: int, b: int): nat { (a + b) % U32 }

  function Sub32(a: int, b: int): nat { (a - b) % U32 }

  function Mul32(a: int, b: int): nat { (a * b) % U32 }

  function Min(a: nat, b: nat): nat { if a < b then a else b }

  function Max(a: nat, b: nat): nat { if a > b then a else b }

  /** A connected component: its runs, bounding box, area and coordinate sums. */
  datatype Component = Component(
    parts: seq<Run>,
    xmin: nat, xmax: nat, ymin: nat, ymax: nat,
    area: nat, xsum: nat, ysum: nat)

  /** Rows ymin..ymax, the runs of each, and the components they form. */
  datatype Block = Block(ymin: nat, ymax: nat, rows: seq<seq<Run>>, ccs: seq<Component>)

  /** The closed form for the sum of the x coordinates of a run, as computed. */
  function RunXSum(r: Run): nat {
    if r.xmax == r.xmin then r.xmax
    else Sub32(Mul32(r.xmax, Add32(r.xmax, 1)), Mul32(r.xmin, Sub32(r.xmin, 1))) / 2
  }

  function NewComponent(r: Run): Component {
    var area := Add32(Sub32(r.xmax, r.xmin), 1);
    Component([r], r.xmin, r.xmax, r.y, r.y, area, RunXSum(r), Mul32(r.y, area))
  }

  /** `a` absorbs `b`. */
  function Merge(a: Component, b: Component): Component {
    Component(a.parts + b.parts,
              Min(a.xmin, b.xmin), Max(a.xmax, b.xmax), Min(a.ymin, b.ymin), Max(a.ymax, b.ymax),
              Add32(a.area, b.area), Add32(a.xsum, b.xsum), Add32(a.ysum, b.ysum))
  }

  function NewComponents(runs: seq<Run>): (ccs: seq<Component>)
    ensures |ccs| == |runs|
    ensures forall k :: 0 <= k < |runs| ==> ccs[k] == NewComponent(runs[k])
  {
    if runs == [] then [] else [NewComponent(runs[0])] + NewComponents(runs[1..])
  }

  /** The block of a single image row: one component per run. */
  function ScanRow(y: nat, row: seq<real>): Block {
    Block(y, y, [RowRuns(y, row)], NewComponents(RowRuns(y, row)))
  }

  /** Index of the first component from `k` on holding the run `r`, |all| when none does. */
  function OwnerFrom(all: seq<Component>, r: Run, k: nat): (owner: nat)
    requires k <= |all|
    ensures k <= owner <= |all|
    ensures owner < |all| ==> r in all[owner].parts
    ensures forall i :: k <= i < owner ==> r !in all[i].parts
    decreases |all| - k
  {
    if k == |all| then k else if r in all[k].parts then k else OwnerFrom(all, r, k + 1)
  }

  /** Index of the first component holding the run `r`, or |all| when none does. */
  function OwnerOf(all: seq<Component>, r: Run): (owner: nat)
    ensures owner <= |all|
    ensures owner < |all| ==> r in all[owner].parts
    ensures forall i :: 0 <= i < owner ==> r !in all[i].parts
  {
    OwnerFrom(all, r, 0)
  }

  function RemoveAt<T>(s: seq<T>, k: nat): seq<T>
    requires k < |s|
  {
    s[..k] + s[k+1..]
  }

  /** Merge the owner of `s` into the owner of `r` and drop it, unless they are
      the same already. Runs without owner do not occur in well-formed blocks. */
  function Join(all: seq<Component>, r: Run, s: Run): seq<Component> {
    var a, b := OwnerOf(all, r), OwnerOf(all, s);
    if a == b || a == |all| || b == |all| then all
    else RemoveAt(all[a := Merge(all[a], all[b])], b)
  }

  function SweepStep(eight: bool, r: Run, s: Run, all: seq<Component>): seq<Component> {
    if Linked(eight, r, s) then Join(all, r, s) else all
  }

  /** The two-pointer sweep over the touching rows of two blocks. It steps past the
      run that reaches less far to the right. */
  function Sweep(eight: bool, ar: seq<Run>, br: seq<Run>, i: nat, j: nat, all: seq<Component>): seq<Component>
    requires i <= |ar| && j <= |br|
    decreases |ar| - i + |br| - j
  {
    if i == |ar| || j == |br| then all
    else
      var next := SweepStep(eight, ar[i], br[j], all);
      var d := if ar[i].xmax <= br[j].xmax then 1 else 0;
      Sweep(eight, ar, br, i + d, j + 1 - d, next)
  }

  /** Fuse block `a` with the block `b` below it. */
  function Fuse(eight: bool, a: Block, b: Block): Block
    requires a.rows != [] && b.rows != []
  {
    Block(a.ymin, b.ymax, a.rows + b.rows,
          Sweep(eight, a.rows[|a.rows|-1], b.rows[0], 0, 0, a.ccs + b.ccs))
  }

  ghost predicate Owned(all: seq<Component>, r: Run) {
    OwnerOf(all, r) < |all|
  }

  ghost predicate Same(all: seq<Component>, r: Run, s: Run) {
    OwnerOf(all, r) == OwnerOf(all, s)
  }

  /** No run is in two components. */
  ghost predicate Disjoint(all: seq<Component>) {
    forall i, j, r :: 0 <= i < |all| && 0 <= j < |all| && r in all[i].parts && r in all[j].parts ==> i == j
  }

  lemma OwnerUnique(all: seq<Component>, r: Run, k: nat)
    requires Disjoint(all) && k < |all| && r in all[k].parts
    ensures OwnerOf(all, r) == k
  {
  }

  /** Where component k of a list goes when component b is merged into a. */
  function Moved(a: nat, b: nat, k: nat): int {
    var t := if k == b then a else k;
    if t < b then t else t - 1
  }

  lemma JoinContents(all: seq<Component>, r: Run, s: Run, a: nat, b: nat)
    requires Disjoint(all) && a == OwnerOf(all, r) && b == OwnerOf(all, s)
    requires a < |all| && b < |all| && a != b
    ensures |Join(all, r, s)| == |all| - 1
    ensures forall k :: 0 <= k < |all| ==> 0 <= Moved(a, b, k) < |all| - 1
    ensures forall k :: 0 <= k < |all| && k != a && k != b ==> Join(all, r, s)[Moved(a, b, k)] == all[k]
    ensures Join(all, r, s)[Moved(a, b, a)] == Merge(all[a], all[b])
  {
  }

  lemma JoinDisjoint(all: seq<Component>, r: Run, s: Run, a: nat, b: nat)
    requires Disjoint(all) && a == OwnerOf(all, r) && b == OwnerOf(all, s)
    requires a < |all| && b < |all| && a != b
    ensures Disjoint(Join(all, r, s))
  {
    JoinContents(all, r, s, a, b);
    var next := Join(all, r, s);
    forall i, j, q | 0 <= i < |next| && 0 <= j < |next| && q in next[i].parts && q in next[j].parts
      ensures i == j
    {
      var i0, j0 := if i < b then i else i + 1, if j < b then j else j + 1;
      assert Moved(a, b, i0) == i && Moved(a, b, j0) == j;
      var i1 := if i0 == a && q in all[b].parts then b else i0;
      var j1 := if j0 == a && q in all[b].parts then b else j0;
      assert q in all[i1].parts && q in all[j1].parts;
    }
  }

  lemma JoinMoves(all: seq<Component>, r: Run, s: Run, a: nat, b: nat, q: Run)
    requires Disjoint(all) && a == OwnerOf(all, r) && b == OwnerOf(all, s)
    requires a < |all| && b < |all| && a != b && Owned(all, q)
    ensures OwnerOf(Join(all, r, s), q) == Moved(a, b, OwnerOf(all, q)) < |all| - 1
  {
    JoinContents(all, r, s, a, b);
    JoinDisjoint(all, r, s, a, b);
    var k := OwnerOf(all, q);
    assert q in Join(all, r, s)[Moved(a, b, k)].parts by {
      if k == b { assert q in Merge(all[a], all[b]).parts; }
    }
    OwnerUnique(Join(all, r, s), q, Moved(a, b, k));
  }

  lemma JoinKeeps(all: seq<Component>, r: Run, s: Run, a: nat, b: nat, q: Run)
    requires Disjoint(all) && a == OwnerOf(all, r) && b == OwnerOf(all, s)
    requires a < |all| && b < |all| && a != b && Owned(Join(all, r, s), q)
    ensures Owned(all, q)
  {
    JoinContents(all, r, s, a, b);
    var i := OwnerOf(Join(all, r, s), q);
    var i0 := if i < b then i else i + 1;
    assert Moved(a, b, i0) == i;
    assert q in all[i0].parts || q in all[b].parts;
  }

  /** Effect of a join on ownership: the runs of the absorbed component move to
      the absorbing one, no other run changes its component, none gets lost. */
  lemma JoinOwner(all: seq<Component>, r: Run, s: Run, q: Run)
    requires Disjoint(all) && Owned(all, r) && Owned(all, s)
    ensures Disjoint(Join(all, r, s))
    ensures Owned(Join(all, r, s), q) <==> Owned(all, q)
    ensures Owned(all, q) && !Same(all, r, s) ==>
              OwnerOf(Join(all, r, s), q) == Moved(OwnerOf(all, r), OwnerOf(all, s), OwnerOf(all, q))
  {
    var a, b := OwnerOf(all, r), OwnerOf(all, s);
    if a != b {
      JoinContents(all, r, s, a, b);
      JoinDisjoint(all, r, s, a, b);
      if Owned(all, q) { JoinMoves(all, r, s, a, b, q); }
      if Owned(Join(all, r, s), q) { JoinKeeps(all, r, s, a, b, q); }
    }
  }

  /** A join only ever coarsens the partition, and puts r and s together. */
  lemma JoinSame(all: seq<Component>, r: Run, s: Run, p: Run, q: Run)
    requires Disjoint(all) && Owned(all, r) && Owned(all, s) && Owned(all, p) && Owned(all, q)
    ensures Disjoint(Join(all, r, s)) && Same(Join(all, r, s), r, s)
    ensures Same(Join(all, r, s), p, q) <==>
              || Same(all, p, q)
              || (Same(all, p, r) && Same(all, s, q))
              || (Same(all, p, s) && Same(all, r, q))
  {
    JoinOwner(all, r, s, p);
    JoinOwner(all, r, s, q);
    JoinOwner(all, r, s, r);
    JoinOwner(all, r, s, s);
  }
}
