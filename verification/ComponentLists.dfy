/** The linked structures of the component search: ranges on row lists and
    component lists, components on the doubly linked list of their block. */
module ComponentLists {
  import opened Runs
  import opened Components

  /** A range: a run, linked into its row and into its component. */
  class CcRange {
    const y: nat
    const xmin: nat
    const xmax: nat
    var owner: Cc?
    var rowNext: CcRange?
    var ccNext: CcRange?

    constructor (owner: Cc, y: nat, xmin: nat, xmax: nat)
      ensures this.owner == owner && rowNext == null && ccNext == null
      ensures Value() == Run(y, xmin, xmax)
    {
      this.y, this.xmin, this.xmax := y, xmin, xmax;
      this.owner := owner;
      rowNext, ccNext := null, null;
    }

    function Value(): Run {
      Run(y, xmin, xmax)
    }
  }

  ghost function Values(ranges: seq<CcRange>): (runs: seq<Run>)
    ensures |runs| == |ranges|
    ensures forall i {:trigger runs[i]} :: 0 <= i < |ranges| ==> runs[i] == ranges[i].Value()
  {
    seq(|ranges|, i requires 0 <= i < |ranges| => ranges[i].Value())
  }

  /** Entry i of the list, null beyond its end. */
  ghost function RangeAt(s: seq<CcRange>, i: nat): CcRange? {
    if i < |s| then s[i] else null
  }

  ghost predicate Unique<T>(s: seq<T>) {
    forall i, j :: 0 <= i < j < |s| ==> s[i] != s[j]
  }

  lemma UniqueConcat<T>(a: seq<T>, b: seq<T>)
    requires Unique(a) && Unique(b) && forall x :: x in b ==> x !in a
    ensures Unique(a + b)
  {
    forall i, j | 0 <= i < j < |a + b| ensures (a + b)[i] != (a + b)[j] {
      if i < |a| <= j { assert b[j - |a|] in b; }
    }
  }

  lemma AppendedLists(s: seq<CcRange>, t: seq<CcRange>)
    requires s != [] && t != []
    requires forall i {:trigger s[i].ccNext} :: 0 <= i < |s| ==> s[i].ccNext == if i == |s| - 1 then t[0] else RangeAt(s, i + 1)
    requires forall i {:trigger t[i].ccNext} :: 0 <= i < |t| ==> t[i].ccNext == RangeAt(t, i + 1)
    ensures forall i {:trigger (s + t)[i].ccNext} :: 0 <= i < |s + t| ==> (s + t)[i].ccNext == RangeAt(s + t, i + 1)
  {
    var all := s + t;
    forall i | 0 <= i < |all| ensures all[i].ccNext == RangeAt(all, i + 1) {
      assert all[i] == if i < |s| then s[i] else t[i - |s|];
    }
  }

  /** A component record, with the list of its ranges. */
  class Cc {
    var xmin: nat
    var xmax: nat
    var ymin: nat
    var ymax: nat
    var area: nat
    var xsum: nat
    var ysum: nat
    var first: CcRange?
    var last: CcRange?
    var prev: Cc?
    var next: Cc?
    var owner: CcBlock?
    ghost var parts: seq<CcRange> // the list from first to last

    ghost function View(): Component
      reads `parts, `xmin, `xmax, `ymin, `ymax, `area, `xsum, `ysum
    {
      Component(Values(parts), xmin, xmax, ymin, ymax, area, xsum, ysum)
    }

    /** The list from first to last is linked up, and its ranges point back. */
    ghost predicate Sound()
      reads `parts, `first, `last, parts`ccNext, parts`owner
    {
      && parts != [] && first == parts[0] && last == parts[|parts|-1]
      && (forall i {:trigger parts[i].ccNext} :: 0 <= i < |parts| ==> parts[i].ccNext == RangeAt(parts, i + 1))
      && (forall r :: r in parts ==> r.owner == this)
      && Unique(parts)
    }

    /** cc_new: a component of one range. */
    constructor (y: nat, xmin: nat, xmax: nat)
      ensures Sound() && prev == null && next == null && owner == null && fresh(parts[0]) && |parts| == 1
      ensures View() == NewComponent(Run(y, xmin, xmax)) && parts[0].rowNext == null
    {
      this.ymin, this.ymax := y, y;
      this.xmin, this.xmax := xmin, xmax;
      var n := Add32(Sub32(xmax, xmin), 1);
      this.area := n;
      this.xsum := RunXSum(Run(y, xmin, xmax));
      this.ysum := Mul32(y, n);
      prev, next, owner := null, null, null;
      new;
      var range := new CcRange(this, y, xmin, xmax);
      first, last := range, range;
      parts := [range];
    }

    /** cc_merge: this component absorbs `b`, whose ranges change owner and are
        appended to the list. */
    method Absorb(b: Cc)
      requires Sound() && b.Sound() && b != this
      modifies `xmin, `xmax, `ymin, `ymax, `area, `xsum, `ysum, `last, `parts
      modifies (set r | r in parts)`ccNext, (set r | r in b.parts)`owner
      ensures Sound() && parts == old(parts) + old(b.parts)
      ensures View() == Merge(old(View()), old(b.View()))
    {
      TakeRanges(b);
      AppendRanges(b);
      AddFigures(b);
    }

    method AddFigures(b: Cc)
      modifies `xmin, `xmax, `ymin, `ymax, `area, `xsum, `ysum
      ensures xmin == Min(old(xmin), b.xmin) && xmax == Max(old(xmax), b.xmax)
      ensures ymin == Min(old(ymin), b.ymin) && ymax == Max(old(ymax), b.ymax)
      ensures area == Add32(old(area), b.area) && xsum == Add32(old(xsum), b.xsum) && ysum == Add32(old(ysum), b.ysum)
      requires b != this
    {
      xmin, xmax := Min(xmin, b.xmin), Max(xmax, b.xmax);
      ymin, ymax := Min(ymin, b.ymin), Max(ymax, b.ymax);
      area := Add32(area, b.area);
      xsum := Add32(xsum, b.xsum);
      ysum := Add32(ysum, b.ysum);
    }

    method TakeRanges(b: Cc)
      requires Sound() && b.Sound() && b != this
      modifies (set r | r in b.parts)`owner
      ensures Sound()
      ensures forall r :: r in b.parts ==> r.owner == this && r !in parts
    {
      ghost var other := b.parts;
      assert forall r :: r in other ==> r !in parts;
      var range := b.first;
      ghost var i := 0;
      while range != null
        invariant 0 <= i <= |other| && range == RangeAt(other, i)
        invariant forall k {:trigger other[k].ccNext} :: 0 <= k < |other| ==> other[k].ccNext == RangeAt(other, k + 1)
        invariant forall k :: 0 <= k < i ==> other[k].owner == this
        invariant Sound()
        modifies (set r | r in other)`owner
        decreases |other| - i
      {
        range.owner := this;
        range := range.ccNext;
        i := i + 1;
      }
    }

    method AppendRanges(b: Cc)
      requires Sound() && b != this && b.parts != [] && b.first == b.parts[0] && b.last == b.parts[|b.parts|-1]
      requires forall k {:trigger b.parts[k].ccNext} :: 0 <= k < |b.parts| ==> b.parts[k].ccNext == RangeAt(b.parts, k + 1)
      requires forall r :: r in b.parts ==> r.owner == this && r !in parts
      requires Unique(b.parts)
      modifies `last, `parts, {last}`ccNext
      ensures Sound() && parts == old(parts) + b.parts
      ensures Values(parts) == Values(old(parts)) + Values(b.parts)
    {
      ghost var own, other := parts, b.parts;
      UniqueConcat(own, other);
      assert own[|own|-1] in own;
      assert last !in other;
      last.ccNext := b.first;
      last := b.last;
      parts := own + other;
      assert forall k {:trigger own[k].ccNext} :: 0 <= k < |own| ==> own[k].ccNext == if k == |own| - 1 then other[0] else RangeAt(own, k + 1);
      AppendedLists(own, other);
      assert Values(parts) == Values(own) + Values(other);
    }
  }

  /** Entry i of the list, null beyond its ends. */
  ghost function CcAt(s: seq<Cc>, i: int): Cc?
  {
    if 0 <= i < |s| then s[i] else null
  }

  /** Every range points to the one right of it. */
  ghost predicate RowLinked(ranges: seq<CcRange>)
    reads ranges`rowNext
  {
    forall i {:trigger ranges[i].rowNext} :: 0 <= i < |ranges| ==> ranges[i].rowNext == RangeAt(ranges, i + 1)
  }

  /** An image row, the head of a list of ranges. */
  class CcRow {
    const y: nat
    var first: CcRange?
    var last: CcRange?
    var next: CcRow?

    /** The row's list is `ranges`, linked up. */
    ghost predicate Holds(ranges: seq<CcRange>)
      reads `first, `last, ranges`rowNext
    {
      && first == RangeAt(ranges, 0)
      && last == (if ranges == [] then null else ranges[|ranges|-1])
      && RowLinked(ranges)
    }

    /** cc_new_row. */
    constructor (y: nat)
      ensures this.y == y && Holds([]) && next == null
    {
      this.y := y;
      first, last, next := null, null, null;
    }
  }

  ghost function RowAt(s: seq<CcRow>, i: nat): CcRow? {
    if i < |s| then s[i] else null
  }

  /** The range lists of the rows from `ymin` on contain exactly the given ranges,
      each in its row, and once. */
  ghost predicate Filled(lists: seq<seq<CcRange>>, ymin: nat, cells: set<CcRange>) {
    && (forall i {:trigger Unique(lists[i])} :: 0 <= i < |lists| ==> Unique(lists[i]))
    && (forall i, r {:trigger r in lists[i]} :: 0 <= i < |lists| && r in lists[i] ==> r in cells && r.y == ymin + i)
    && (forall r {:trigger r in cells} :: r in cells ==> ymin <= r.y < ymin + |lists| && r in lists[r.y - ymin])
  }

  lemma FilledConcat(s: seq<seq<CcRange>>, t: seq<seq<CcRange>>, ymin: nat, upper: set<CcRange>, lower: set<CcRange>)
    requires Filled(s, ymin, upper) && Filled(t, ymin + |s|, lower)
    ensures Filled(s + t, ymin, upper + lower) && upper !! lower
    ensures RowValues(s + t) == RowValues(s) + RowValues(t)
  {
  }

  /** The rows from `ymin` on, linked top to bottom, hold the given lists. */
  ghost predicate Stacked(rows: seq<CcRow>, ymin: nat, lists: seq<seq<CcRange>>, cells: set<CcRange>)
    requires forall i, r :: 0 <= i < |lists| && r in lists[i] ==> r in cells
    reads rows`first, rows`last, rows`next, cells`rowNext
  {
    && |rows| == |lists|
    && (forall i {:trigger rows[i].next} :: 0 <= i < |rows| ==> rows[i].next == RowAt(rows, i + 1))
    && (forall i {:trigger rows[i].y} :: 0 <= i < |rows| ==> rows[i].y == ymin + i)
    && (forall i {:trigger rows[i].Holds(lists[i])} :: 0 <= i < |rows| ==> rows[i].Holds(lists[i]))
  }

  ghost function RowValues(lists: seq<seq<CcRange>>): (runs: seq<seq<Run>>)
    ensures |runs| == |lists|
    ensures forall i {:trigger runs[i]} :: 0 <= i < |lists| ==> runs[i] == Values(lists[i])
  {
    seq(|lists|, i requires 0 <= i < |lists| => Values(lists[i]))
  }

  ghost function CcViews(ccs: seq<Cc>): (views: seq<Component>)
    reads ccs
    ensures |views| == |ccs|
    ensures forall i {:trigger views[i]} :: 0 <= i < |ccs| ==> views[i] == ccs[i].View()
  {
    seq(|ccs|, i requires 0 <= i < |ccs| reads ccs => ccs[i].View())
  }

  /** A block: the list of its rows, top to bottom, and that of its components. */
  class CcBlock {
    var ymin: nat
    var ymax: nat
    var rowFirst: CcRow?
    var rowLast: CcRow?
    var ccFirst: Cc?
    var ccLast: Cc?
    ghost var rows: seq<CcRow>     // the list from rowFirst to rowLast
    ghost var ccs: seq<Cc>         // the list from ccFirst to ccLast
    ghost var lists: seq<seq<CcRange>> // the lists of those rows
    ghost var cells: set<CcRange>  // all ranges of all rows

    ghost function View(): Block
      reads this, ccs
    {
      Block(ymin, ymax, RowValues(lists), CcViews(ccs))
    }

    /** All records of the block. */
    ghost function Footprint(): set<object>
      reads this
    {
      {this} + (set r: CcRow | r in rows) + (set c: Cc | c in ccs) + cells
    }

    /** cc_new_block: a single row without ranges. */
    constructor (y: nat)
      ensures Valid() && View() == Block(y, y, [[]], [])
      ensures fresh(rows) && ccs == [] && cells == {}
    {
      ymin, ymax := y, y;
      var row := new CcRow(y);
      rowFirst, rowLast := row, row;
      ccFirst, ccLast := null, null;
      rows, lists, ccs, cells := [row], [[]], [], {};
    }

    /** What the rows hold. */
    ghost predicate Layout(found: seq<seq<Run>>)
      reads `lists
    {
      found == RowValues(lists)
    }

    /** One row record per row, linked top to bottom, each with its ranges. */
    ghost predicate Rowed()
      reads `ymin, `ymax, `rowFirst, `rowLast, `rows, `lists, `cells, rows`first, rows`last, rows`next, cells`rowNext
    {
      && lists != []
      && (forall found :: Layout(found) ==>
            && ymin <= ymax && |rows| == ymax - ymin + 1 == |lists|
            && rowFirst == rows[0] && rowLast == rows[|rows|-1]
            && Filled(lists, ymin, cells) && Stacked(rows, ymin, lists, cells))
    }

    /** The whole structure: every range is on exactly one row list and exactly
        one component list, and points back to the component it is listed in. */
    ghost predicate Valid()
      reads this, rows, ccs, cells`owner, cells`ccNext, cells`rowNext
    {
      Rowed() && Single(this, cells, CcViews(ccs))
    }

    /** The doubly linked list of components, each pointing back to the block. */
    ghost predicate Chained()
      reads `ccFirst, `ccLast, `ccs, ccs`next, ccs`prev, ccs`owner
    {
      && ccFirst == (if ccs == [] then null else ccs[0])
      && ccLast == (if ccs == [] then null else ccs[|ccs|-1])
      && (forall i {:trigger ccs[i].next} :: 0 <= i < |ccs| ==> ccs[i].next == CcAt(ccs, i + 1))
      && (forall i {:trigger ccs[i].prev} :: 0 <= i < |ccs| ==> ccs[i].prev == CcAt(ccs, i - 1))
      && (forall i :: 0 <= i < |ccs| ==> ccs[i].owner == this)
      && Unique(ccs)
    }

    /** cc_unlink: take a component off the list. */
    method Unlink(cc: Cc, ghost k: nat)
      requires Chained() && k < |ccs| && cc == ccs[k]
      modifies `ccFirst, `ccLast, `ccs, (set c | c in ccs)`prev, (set c | c in ccs)`next
      ensures Chained() && ccs == RemoveAt(old(ccs), k)
    {
      assert ccFirst == cc <==> k == 0;
      assert ccLast == cc <==> k + 1 == |ccs|;
      if ccFirst == cc && ccLast == cc {
        ccFirst, ccLast := null, null;
        ccs := [];
      } else if ccFirst == cc {
        UnlinkFirst(cc);
      } else if ccLast == cc {
        UnlinkLast(cc);
      } else {
        UnlinkMiddle(cc, k);
      }
    }

    method UnlinkFirst(cc: Cc)
      requires Chained() && |ccs| >= 2 && cc == ccs[0]
      modifies `ccFirst, `ccs, {ccs[1]}`prev
      ensures Chained() && ccs == old(ccs)[1..]
    {
      cc.next.prev := null;
      ccFirst := cc.next;
      ccs := ccs[1..];
    }

    method UnlinkLast(cc: Cc)
      requires Chained() && |ccs| >= 2 && cc == ccs[|ccs|-1]
      modifies `ccLast, `ccs, {ccs[|ccs|-2]}`next
      ensures Chained() && ccs == old(ccs)[..|old(ccs)|-1]
    {
      cc.prev.next := null;
      ccLast := cc.prev;
      ccs := ccs[..|ccs|-1];
    }

    method UnlinkMiddle(cc: Cc, ghost k: nat)
      requires Chained() && 0 < k < |ccs| - 1 && cc == ccs[k]
      modifies `ccs, {ccs[k-1]}`next, {ccs[k+1]}`prev
      ensures Chained() && ccs == RemoveAt(old(ccs), k)
    {
      cc.prev.next := cc.next;
      cc.next.prev := cc.prev;
      ghost var was := ccs;
      assert forall i {:trigger was[i].next} :: 0 <= i < |was| && i != k ==> was[i].next == CcAt(was, if i + 1 == k then k + 1 else i + 1);
      assert forall i {:trigger was[i].prev} :: 0 <= i < |was| && i != k ==> was[i].prev == CcAt(was, if i - 1 == k then k - 1 else i - 1);
      ccs := RemoveAt(ccs, k);
      Relinked(was, k);
    }

    /** Links that skip entry k make a chain of the list without it. */
    lemma Relinked(was: seq<Cc>, k: nat)
      requires 0 < k < |was| - 1 && ccs == RemoveAt(was, k) && ccFirst == was[0] && ccLast == was[|was|-1]
      requires forall i {:trigger was[i].next} :: 0 <= i < |was| && i != k ==> was[i].next == CcAt(was, if i + 1 == k then k + 1 else i + 1)
      requires forall i {:trigger was[i].prev} :: 0 <= i < |was| && i != k ==> was[i].prev == CcAt(was, if i - 1 == k then k - 1 else i - 1)
      requires Unique(was) && forall c :: c in was ==> c.owner == this
      ensures Chained()
    {
      RemovedLinks(was, k);
      RemoveAtUnique(was, k);
    }
  }

  lemma RemovedLinks(was: seq<Cc>, k: nat)
    requires 0 < k < |was| - 1
    requires forall i {:trigger was[i].next} :: 0 <= i < |was| && i != k ==> was[i].next == CcAt(was, if i + 1 == k then k + 1 else i + 1)
    requires forall i {:trigger was[i].prev} :: 0 <= i < |was| && i != k ==> was[i].prev == CcAt(was, if i - 1 == k then k - 1 else i - 1)
    ensures forall i {:trigger RemoveAt(was, k)[i].next} :: 0 <= i < |was| - 1 ==> RemoveAt(was, k)[i].next == CcAt(RemoveAt(was, k), i + 1)
    ensures forall i {:trigger RemoveAt(was, k)[i].prev} :: 0 <= i < |was| - 1 ==> RemoveAt(was, k)[i].prev == CcAt(RemoveAt(was, k), i - 1)
  {
    var now := RemoveAt(was, k);
    forall i | 0 <= i < |now| ensures now[i].next == CcAt(now, i + 1) && now[i].prev == CcAt(now, i - 1) {
      var j := if i < k then i else i + 1;
      assert now[i] == was[j];
    }
  }

  /** The components list exactly the given ranges, each once, and each range
      points back to the component it is listed in. */
  ghost predicate Owning(ccs: seq<Cc>, cells: set<CcRange>)
    reads ccs`parts, ccs`first, ccs`last, cells`owner, cells`ccNext
  {
    && Unique(ccs)
    && (forall c, r :: c in ccs && r in c.parts ==> r in cells)
    && (forall c {:trigger c.Sound()} :: c in ccs ==> c.Sound())
    && (forall r :: r in cells ==> r.owner != null && r.owner in ccs && r in r.owner.parts)
  }

  lemma OwnerIndex(ccs: seq<Cc>, r: CcRange, k: nat)
    requires Disjoint(CcViews(ccs)) && k < |ccs| && r in ccs[k].parts
    ensures OwnerOf(CcViews(ccs), r.Value()) == k
  {
    var i :| 0 <= i < |ccs[k].parts| && ccs[k].parts[i] == r;
    assert CcViews(ccs)[k].parts[i] == r.Value();
    OwnerUnique(CcViews(ccs), r.Value(), k);
  }

  lemma UniqueApart<T>(s: seq<T>, t: seq<T>)
    requires Unique(s + t)
    ensures forall x :: x in t ==> x !in s
  {
    forall i, j | 0 <= i < |s| && 0 <= j < |t| ensures s[i] != t[j] {
      assert (s + t)[i] != (s + t)[|s| + j];
    }
  }

  lemma RemoveAtConcat<T>(s: seq<T>, t: seq<T>, k: nat)
    requires k < |s| + |t|
    ensures RemoveAt(s + t, k) == if k < |s| then RemoveAt(s, k) + t else s + RemoveAt(t, k - |s|)
  {
  }

  /** All components of the two blocks are among `nodes`. */
  ghost predicate Within(a: CcBlock, b: CcBlock, nodes: set<Cc>)
    reads a`ccs, b`ccs
  {
    (forall c :: c in a.ccs ==> c in nodes) && (forall c :: c in b.ccs ==> c in nodes)
  }

  /** Unlink component k of the two blocks, from whichever of them lists it. */
  method UnlinkOne(a: CcBlock, b: CcBlock, cc: Cc, ghost k: nat, ghost nodes: set<Cc>)
    requires a != b && a.Chained() && b.Chained() && Unique(a.ccs + b.ccs) && Within(a, b, nodes)
    requires k < |a.ccs + b.ccs| && cc == (a.ccs + b.ccs)[k]
    modifies {a, b}`ccFirst, {a, b}`ccLast, {a, b}`ccs, nodes`prev, nodes`next
    ensures a.Chained() && b.Chained() && Within(a, b, nodes) && a.ccs + b.ccs == RemoveAt(old(a.ccs + b.ccs), k)
  {
    RemoveAtConcat(a.ccs, b.ccs, k);
    UniqueApart(a.ccs, b.ccs);
    assert cc.owner == if k < |a.ccs| then a else b;
    cc.owner.Unlink(cc, if k < |a.ccs| then k else k - |a.ccs|);
  }

  /** Without component k the list still is free of duplicates, and lacks just it. */
  lemma RemoveAtUnique<T>(s: seq<T>, k: nat)
    requires Unique(s) && k < |s|
    ensures Unique(RemoveAt(s, k)) && forall x :: x in RemoveAt(s, k) <==> x in s && x != s[k]
  {
    forall x | x in s && x != s[k] ensures x in RemoveAt(s, k) {
      var i :| 0 <= i < |s| && s[i] == x;
      assert RemoveAt(s, k)[if i < k then i else i - 1] == x;
    }
  }

  /** The components themselves do not notice. */
  method UnlinkKeeping(a: CcBlock, b: CcBlock, cc: Cc, ghost k: nat, ghost nodes: set<Cc>, ghost cells: set<CcRange>)
    requires a != b && a.Chained() && b.Chained() && Owning(a.ccs + b.ccs, cells) && Within(a, b, nodes)
    requires k < |a.ccs + b.ccs| && cc == (a.ccs + b.ccs)[k]
    modifies {a, b}`ccFirst, {a, b}`ccLast, {a, b}`ccs, nodes`prev, nodes`next
    ensures a.Chained() && b.Chained() && Within(a, b, nodes) && a.ccs + b.ccs == RemoveAt(old(a.ccs + b.ccs), k)
    ensures Owning(old(a.ccs + b.ccs), cells)
    ensures CcViews(old(a.ccs + b.ccs)) == old(CcViews(a.ccs + b.ccs))
  {
    UnlinkViews(a, b, cc, k, nodes);
  }

  method UnlinkViews(a: CcBlock, b: CcBlock, cc: Cc, ghost k: nat, ghost nodes: set<Cc>)
    requires a != b && a.Chained() && b.Chained() && Unique(a.ccs + b.ccs) && Within(a, b, nodes)
    requires k < |a.ccs + b.ccs| && cc == (a.ccs + b.ccs)[k]
    modifies {a, b}`ccFirst, {a, b}`ccLast, {a, b}`ccs, nodes`prev, nodes`next
    ensures a.Chained() && b.Chained() && Within(a, b, nodes) && a.ccs + b.ccs == RemoveAt(old(a.ccs + b.ccs), k)
    ensures CcViews(old(a.ccs + b.ccs)) == old(CcViews(a.ccs + b.ccs))
  {
    RemoveAtUnique(a.ccs + b.ccs, k);
    UnlinkOne(a, b, cc, k, nodes);
  }

  /** Component k of the list is absorbed by its component i. */
  method AbsorbOne(a: CcBlock, b: CcBlock, c: Cc, d: Cc, ghost ccs: seq<Cc>, ghost i: nat, ghost k: nat, ghost cells: set<CcRange>)
    requires a.Chained() && b.Chained() && Owning(ccs, cells)
    requires i < |ccs| && ccs[i] == c && k < |ccs| && ccs[k] == d && c != d
    modifies c`xmin, c`xmax, c`ymin, c`ymax, c`area, c`xsum, c`ysum, c`last, c`parts
    modifies cells`ccNext, cells`owner
    ensures a.Chained() && b.Chained() && Owning(RemoveAt(ccs, k), cells)
    ensures CcViews(RemoveAt(ccs, k)) == RemoveAt(old(CcViews(ccs))[i := Merge(old(c.View()), old(d.View()))], k)
  {
    ghost var was := CcViews(ccs);
    AbsorbOwning(a, b, c, d, ccs, k, cells);
    ViewsMerged(ccs, was, i, k, Merge(was[i], was[k]));
  }

  method AbsorbOwning(a: CcBlock, b: CcBlock, c: Cc, d: Cc, ghost ccs: seq<Cc>, ghost k: nat, ghost cells: set<CcRange>)
    requires a.Chained() && b.Chained() && Owning(ccs, cells) && c in ccs && k < |ccs| && ccs[k] == d && c != d
    modifies c`xmin, c`xmax, c`ymin, c`ymax, c`area, c`xsum, c`ysum, c`last, c`parts
    modifies cells`ccNext, cells`owner
    ensures a.Chained() && b.Chained() && Owning(RemoveAt(ccs, k), cells)
    ensures c.View() == Merge(old(c.View()), old(d.View()))
    ensures forall e :: e in ccs && e != c ==> e.View() == old(e.View())
  {
    RemoveAtUnique(ccs, k);
    assert c.Sound() && d.Sound();
    assert forall e :: e in ccs ==> e.Sound();
    AbsorbChained(a, b, c, d);
    assert forall e :: e in ccs && e != c && e != d ==> e.Sound();
  }

  /** The lists of components do not change. */
  method AbsorbChained(a: CcBlock, b: CcBlock, c: Cc, d: Cc)
    requires c.Sound() && d.Sound() && c != d && a.Chained() && b.Chained()
    modifies c`xmin, c`xmax, c`ymin, c`ymax, c`area, c`xsum, c`ysum, c`last, c`parts
    modifies (set r | r in c.parts)`ccNext, (set r | r in d.parts)`owner
    ensures c.Sound() && c.parts == old(c.parts) + old(d.parts)
    ensures c.View() == Merge(old(c.View()), old(d.View()))
    ensures a.Chained() && b.Chained()
  {
    c.Absorb(d);
  }

  lemma JoinAt(ccs: seq<Component>, r: Run, s: Run, i: nat, j: nat)
    requires i < |ccs| && j < |ccs| && i != j && OwnerOf(ccs, r) == i && OwnerOf(ccs, s) == j
    ensures Join(ccs, r, s) == RemoveAt(ccs[i := Merge(ccs[i], ccs[j])], j)
  {
  }

  lemma ViewsMerged(ccs: seq<Cc>, was: seq<Component>, i: nat, k: nat, now: Component)
    requires i < |ccs| == |was| && k < |ccs| && ccs[i].View() == now
    requires forall j :: 0 <= j < |ccs| && j != i ==> was[j] == ccs[j].View()
    ensures CcViews(RemoveAt(ccs, k)) == RemoveAt(was[i := now], k)
  {
    assert CcViews(ccs) == was[i := now];
    ViewsRemoved(ccs, k);
  }

  lemma ViewsRemoved(ccs: seq<Cc>, k: nat)
    requires k < |ccs|
    ensures CcViews(RemoveAt(ccs, k)) == RemoveAt(CcViews(ccs), k)
  {
    forall i | 0 <= i < |ccs| - 1 ensures CcViews(RemoveAt(ccs, k))[i] == RemoveAt(CcViews(ccs), k)[i] {
      assert RemoveAt(ccs, k)[i] == ccs[if i < k then i else i + 1];
    }
  }

  /** The records both blocks list, those of `a` first. */
  ghost predicate Recorded(a: CcBlock, b: CcBlock, found: seq<Component>)
    reads a, b, a.ccs, b.ccs
  {
    found == CcViews(a.ccs + b.ccs)
  }

  /** Both blocks' component lists are well formed, between them list the given
      ranges, and hold just the given records. */
  ghost predicate Paired(a: CcBlock, b: CcBlock, nodes: set<Cc>, cells: set<CcRange>, views: seq<Component>)
    reads a, b, a.ccs, b.ccs, cells`owner, cells`ccNext
  {
    forall found :: Recorded(a, b, found) ==>
      && found == views && Disjoint(views)
      && a != b && a.Chained() && b.Chained() && Within(a, b, nodes) && Owning(a.ccs + b.ccs, cells)
  }

  /** cc_unlink and cc_merge of the sweep: join the components of two ranges. */
  method JoinOwners(a: CcBlock, b: CcBlock, ar: CcRange, br: CcRange, ghost nodes: set<Cc>, ghost cells: set<CcRange>, ghost views: seq<Component>)
    requires Paired(a, b, nodes, cells, views) && ar in cells && br in cells && ar.owner != br.owner
    modifies {a, b}`ccFirst, {a, b}`ccLast, {a, b}`ccs, nodes`prev, nodes`next, nodes`last, nodes`parts
    modifies nodes`xmin, nodes`xmax, nodes`ymin, nodes`ymax, nodes`area, nodes`xsum, nodes`ysum, cells`ccNext, cells`owner
    ensures Paired(a, b, nodes, cells, Join(views, ar.Value(), br.Value()))
  {
    assert Recorded(a, b, CcViews(a.ccs + b.ccs));
    ghost var i, j := JoinPlaces(a.ccs + b.ccs, ar, br, cells);
    UnlinkAndAbsorb(a, b, ar, br, i, j, nodes, cells);
    JoinDisjoint(views, ar.Value(), br.Value(), i, j);
  }

  lemma JoinPlaces(ccs: seq<Cc>, ar: CcRange, br: CcRange, cells: set<CcRange>) returns (i: nat, j: nat)
    requires Owning(ccs, cells) && Disjoint(CcViews(ccs)) && ar in cells && br in cells && ar.owner != br.owner
    ensures i < |ccs| && j < |ccs| && ccs[i] == ar.owner && ccs[j] == br.owner
    ensures OwnerOf(CcViews(ccs), ar.Value()) == i && OwnerOf(CcViews(ccs), br.Value()) == j
    ensures Join(CcViews(ccs), ar.Value(), br.Value()) ==
            RemoveAt(CcViews(ccs)[i := Merge(ccs[i].View(), ccs[j].View())], j)
  {
    i :| 0 <= i < |ccs| && ccs[i] == ar.owner;
    j :| 0 <= j < |ccs| && ccs[j] == br.owner;
    OwnerIndex(ccs, ar, i);
    OwnerIndex(ccs, br, j);
    JoinAt(CcViews(ccs), ar.Value(), br.Value(), i, j);
  }

  method UnlinkAndAbsorb(a: CcBlock, b: CcBlock, ar: CcRange, br: CcRange, ghost i: nat, ghost j: nat, ghost nodes: set<Cc>, ghost cells: set<CcRange>)
    requires a != b && a.Chained() && b.Chained() && Owning(a.ccs + b.ccs, cells) && Within(a, b, nodes)
    requires i < |a.ccs + b.ccs| && j < |a.ccs + b.ccs| && i != j && (a.ccs + b.ccs)[i] == ar.owner && (a.ccs + b.ccs)[j] == br.owner
    modifies {a, b}`ccFirst, {a, b}`ccLast, {a, b}`ccs, nodes`prev, nodes`next, nodes`last, nodes`parts
    modifies nodes`xmin, nodes`xmax, nodes`ymin, nodes`ymax, nodes`area, nodes`xsum, nodes`ysum, cells`ccNext, cells`owner
    ensures a.Chained() && b.Chained() && Within(a, b, nodes) && Owning(a.ccs + b.ccs, cells)
    ensures CcViews(a.ccs + b.ccs) == RemoveAt(old(CcViews(a.ccs + b.ccs)[i := Merge(ar.owner.View(), br.owner.View())]), j)
  {
    ghost var all := a.ccs + b.ccs;
    UnlinkKeeping(a, b, br.owner, j, nodes, cells);
    AbsorbOne(a, b, ar.owner, br.owner, all, i, j, cells);
  }

  lemma SameOwner(ccs: seq<Cc>, ar: CcRange, br: CcRange, cells: set<CcRange>)
    requires Owning(ccs, cells) && Disjoint(CcViews(ccs)) && ar in cells && br in cells && ar.owner == br.owner
    ensures Join(CcViews(ccs), ar.Value(), br.Value()) == CcViews(ccs)
  {
    var i :| 0 <= i < |ccs| && ccs[i] == ar.owner;
    OwnerIndex(ccs, ar, i);
    OwnerIndex(ccs, br, i);
  }

  /** One step of the sweep: join the components of two ranges that touch. */
  method SweepJoin(eight: bool, a: CcBlock, b: CcBlock, ar: CcRange, br: CcRange,
                   ghost nodes: set<Cc>, ghost cells: set<CcRange>, ghost views: seq<Component>)
    requires Paired(a, b, nodes, cells, views) && ar in cells && br in cells
    modifies {a, b}`ccFirst, {a, b}`ccLast, {a, b}`ccs, nodes`prev, nodes`next, nodes`last, nodes`parts
    modifies nodes`xmin, nodes`xmax, nodes`ymin, nodes`ymax, nodes`area, nodes`xsum, nodes`ysum, cells`ccNext, cells`owner
    ensures Paired(a, b, nodes, cells, SweepStep(eight, ar.Value(), br.Value(), views))
  {
    if Linked(eight, ar.Value(), br.Value()) && ar.owner != br.owner {
      JoinOwners(a, b, ar, br, nodes, cells, views);
    } else if ar.owner == br.owner {
      assert Recorded(a, b, CcViews(a.ccs + b.ccs));
      SameOwner(a.ccs + b.ccs, ar, br, cells);
    }
  }

  lemma SweepOnce(eight: bool, upper: seq<CcRange>, lower: seq<CcRange>, i: nat, j: nat, ar: CcRange, br: CcRange, all: seq<Component>)
    requires ar == RangeAt(upper, i) && br == RangeAt(lower, j)
    ensures i < |upper| && j < |lower|
    ensures var next := SweepStep(eight, ar.Value(), br.Value(), all);
            Sweep(eight, Values(upper), Values(lower), i, j, all) ==
            if ar.xmax <= br.xmax then Sweep(eight, Values(upper), Values(lower), i + 1, j, next)
            else Sweep(eight, Values(upper), Values(lower), i, j + 1, next)
  {
  }

  /** The sweep of cc_fuse_blocks over the last row of `a` and the first row of `b`. */
  method SweepRows(eight: bool, a: CcBlock, b: CcBlock, first: CcRange?, second: CcRange?,
                   ghost upper: seq<CcRange>, ghost lower: seq<CcRange>,
                   ghost nodes: set<Cc>, ghost cells: set<CcRange>, ghost views: seq<Component>)
    requires Paired(a, b, nodes, cells, views) && first == RangeAt(upper, 0) && second == RangeAt(lower, 0)
    requires forall r :: r in upper || r in lower ==> r in cells
    requires forall i {:trigger upper[i].rowNext} :: 0 <= i < |upper| ==> upper[i].rowNext == RangeAt(upper, i + 1)
    requires forall i {:trigger lower[i].rowNext} :: 0 <= i < |lower| ==> lower[i].rowNext == RangeAt(lower, i + 1)
    modifies {a, b}`ccFirst, {a, b}`ccLast, {a, b}`ccs, nodes`prev, nodes`next, nodes`last, nodes`parts
    modifies nodes`xmin, nodes`xmax, nodes`ymin, nodes`ymax, nodes`area, nodes`xsum, nodes`ysum, cells`ccNext, cells`owner
    ensures Paired(a, b, nodes, cells, Sweep(eight, Values(upper), Values(lower), 0, 0, views))
  {
    var ar, br := first, second;
    ghost var i: nat, j: nat, now := 0, 0, views;
    while ar != null && br != null
      invariant i <= |upper| && j <= |lower| && ar == RangeAt(upper, i) && br == RangeAt(lower, j)
      invariant Paired(a, b, nodes, cells, now)
      invariant Sweep(eight, Values(upper), Values(lower), i, j, now) == Sweep(eight, Values(upper), Values(lower), 0, 0, views)
      decreases |upper| - i + |lower| - j
    {
      ar, br, i, j, now := SweepPair(eight, a, b, ar, br, upper, lower, i, j, nodes, cells, now);
    }
  }

  /** One round: join the two ranges if they are linked, and step past the one that
      ends first. */
  method SweepPair(eight: bool, a: CcBlock, b: CcBlock, ar: CcRange, br: CcRange,
                   ghost upper: seq<CcRange>, ghost lower: seq<CcRange>, ghost i: nat, ghost j: nat,
                   ghost nodes: set<Cc>, ghost cells: set<CcRange>, ghost now: seq<Component>)
    returns (ar': CcRange?, br': CcRange?, ghost i': nat, ghost j': nat, ghost next: seq<Component>)
    requires Paired(a, b, nodes, cells, now) && ar == RangeAt(upper, i) && br == RangeAt(lower, j) && ar in cells && br in cells
    requires ar.rowNext == RangeAt(upper, i + 1) && br.rowNext == RangeAt(lower, j + 1)
    modifies {a, b}`ccFirst, {a, b}`ccLast, {a, b}`ccs, nodes`prev, nodes`next, nodes`last, nodes`parts
    modifies nodes`xmin, nodes`xmax, nodes`ymin, nodes`ymax, nodes`area, nodes`xsum, nodes`ysum, cells`ccNext, cells`owner
    ensures Paired(a, b, nodes, cells, next) && ar' == RangeAt(upper, i') && br' == RangeAt(lower, j')
    ensures i' + j' == i + j + 1 && i <= i' <= |upper| && j <= j' <= |lower|
    ensures Sweep(eight, Values(upper), Values(lower), i', j', next) == Sweep(eight, Values(upper), Values(lower), i, j, now)
  {
    SweepOnce(eight, upper, lower, i, j, ar, br, now);
    SweepJoin(eight, a, b, ar, br, nodes, cells, now);
    next := SweepStep(eight, ar.Value(), br.Value(), now);
    if ar.xmax <= br.xmax {
      ar', br', i', j' := ar.rowNext, br, i + 1, j;
    } else {
      ar', br', i', j' := ar, br.rowNext, i, j + 1;
    }
  }

  /** The components of `b` change owner and are appended to those of `a`. */
  method AdoptComponents(a: CcBlock, b: CcBlock)
    requires a != b && a.Chained() && b.Chained() && Unique(a.ccs + b.ccs)
    modifies a`ccFirst, a`ccLast, a`ccs, a.ccs`next, b.ccs`prev, b.ccs`owner
    ensures a.Chained() && a.ccs == old(a.ccs) + b.ccs
  {
    if b.ccFirst != null {
      UniqueApart(a.ccs, b.ccs);
      ChangeOwner(a, b);
      AppendComponents(a, b);
    } else {
      assert a.ccs + b.ccs == a.ccs;
    }
  }

  method ChangeOwner(a: CcBlock, b: CcBlock)
    requires b.Chained()
    modifies b.ccs`owner
    ensures forall c :: c in b.ccs ==> c.owner == a
  {
    var cc := b.ccFirst;
    ghost var i: nat := 0;
    while cc != null
      invariant i <= |b.ccs| && cc == CcAt(b.ccs, i)
      invariant forall k :: 0 <= k < i ==> b.ccs[k].owner == a
      decreases |b.ccs| - i
    {
      cc.owner := a;
      cc := cc.next;
      i := i + 1;
    }
  }

  method AppendComponents(a: CcBlock, b: CcBlock)
    requires a.Chained() && b.ccs != [] && b.ccFirst == b.ccs[0] && b.ccLast == b.ccs[|b.ccs|-1]
    requires forall i {:trigger b.ccs[i].next} :: 0 <= i < |b.ccs| ==> b.ccs[i].next == CcAt(b.ccs, i + 1)
    requires forall i {:trigger b.ccs[i].prev} :: 0 <= i < |b.ccs| ==> b.ccs[i].prev == CcAt(b.ccs, i - 1)
    requires Unique(a.ccs + b.ccs) && Unique(b.ccs) && forall c :: c in b.ccs ==> c.owner == a && c !in a.ccs
    modifies a`ccFirst, a`ccLast, a`ccs, a.ccs`next, b.ccs`prev
    ensures a.Chained() && a.ccs == old(a.ccs) + b.ccs
  {
    if a.ccFirst != null {
      LinkComponents(a, b);
    } else {
      a.ccFirst := b.ccFirst;
      a.ccLast := b.ccLast;
      assert a.ccs + b.ccs == b.ccs;
      a.ccs := b.ccs;
    }
  }

  method LinkComponents(a: CcBlock, b: CcBlock)
    requires a.Chained() && a.ccs != [] && b.ccs != [] && b.ccFirst == b.ccs[0] && b.ccLast == b.ccs[|b.ccs|-1]
    requires forall i {:trigger b.ccs[i].next} :: 0 <= i < |b.ccs| ==> b.ccs[i].next == CcAt(b.ccs, i + 1)
    requires forall i {:trigger b.ccs[i].prev} :: 0 <= i < |b.ccs| ==> b.ccs[i].prev == CcAt(b.ccs, i - 1)
    requires Unique(a.ccs + b.ccs) && Unique(b.ccs) && forall c :: c in b.ccs ==> c.owner == a && c !in a.ccs
    modifies a`ccLast, a`ccs, {a.ccLast}`next, {b.ccFirst}`prev
    ensures a.Chained() && a.ccs == old(a.ccs) + b.ccs
  {
    ghost var was, other := a.ccs, b.ccs;
    assert other[0] in other && was[|was|-1] in was;
    a.ccLast.next := b.ccFirst;
    b.ccFirst.prev := a.ccLast;
    a.ccLast := b.ccLast;
    a.ccs := was + other;
    assert forall i {:trigger was[i].next} :: 0 <= i < |was| ==> was[i].next == if i == |was| - 1 then other[0] else CcAt(was, i + 1);
    assert forall i {:trigger was[i].prev} :: 0 <= i < |was| ==> was[i].prev == CcAt(was, i - 1);
    AppendedLinks(was, other);
  }

  lemma AppendedLinks(s: seq<Cc>, t: seq<Cc>)
    requires s != [] && t != []
    requires forall i {:trigger s[i].next} :: 0 <= i < |s| ==> s[i].next == if i == |s| - 1 then t[0] else CcAt(s, i + 1)
    requires forall i {:trigger s[i].prev} :: 0 <= i < |s| ==> s[i].prev == CcAt(s, i - 1)
    requires forall i {:trigger t[i].next} :: 0 <= i < |t| ==> t[i].next == CcAt(t, i + 1)
    requires forall i {:trigger t[i].prev} :: 0 <= i < |t| ==> t[i].prev == if i == 0 then s[|s|-1] else CcAt(t, i - 1)
    ensures forall i {:trigger (s + t)[i].next} :: 0 <= i < |s + t| ==> (s + t)[i].next == CcAt(s + t, i + 1)
    ensures forall i {:trigger (s + t)[i].prev} :: 0 <= i < |s + t| ==> (s + t)[i].prev == CcAt(s + t, i - 1)
  {
    var all := s + t;
    forall i | 0 <= i < |all| ensures all[i].next == CcAt(all, i + 1) && all[i].prev == CcAt(all, i - 1) {
      if i < |s| {
        assert all[i] == s[i];
      } else {
        assert all[i] == t[i - |s|];
      }
    }
  }

  /** The adoption of what is left in `b` does not touch the components themselves. */
  method AdoptKeeping(a: CcBlock, b: CcBlock, ghost cells: set<CcRange>)
    requires a != b && a.Chained() && b.Chained() && Owning(a.ccs + b.ccs, cells)
    modifies a`ccFirst, a`ccLast, a`ccs, a.ccs`next, b.ccs`prev, b.ccs`owner
    ensures a.Chained() && Owning(a.ccs, cells) && a.ccs == old(a.ccs + b.ccs)
    ensures CcViews(a.ccs) == old(CcViews(a.ccs + b.ccs))
  {
    AdoptViews(a, b);
  }

  method AdoptViews(a: CcBlock, b: CcBlock)
    requires a != b && a.Chained() && b.Chained() && Unique(a.ccs + b.ccs)
    modifies a`ccFirst, a`ccLast, a`ccs, a.ccs`next, b.ccs`prev, b.ccs`owner
    ensures a.Chained() && a.ccs == old(a.ccs + b.ccs)
    ensures CcViews(a.ccs) == old(CcViews(a.ccs + b.ccs))
  {
    AdoptComponents(a, b);
  }

  /** The records the block lists. */
  ghost predicate Lists(a: CcBlock, found: seq<Component>)
    reads a`ccs, a.ccs
  {
    found == CcViews(a.ccs)
  }

  /** The block's component list is well formed, lists the given ranges, and holds
      just the given records. */
  ghost predicate Single(a: CcBlock, cells: set<CcRange>, views: seq<Component>)
    reads a`ccFirst, a`ccLast, a`ccs, a.ccs, cells`owner, cells`ccNext
  {
    forall found :: Lists(a, found) ==> found == views && a.Chained() && Owning(a.ccs, cells)
  }

  /** The component lists of two fused blocks: the sweep, then the adoption of
      what is left in `b`. */
  method FuseComponents(eight: bool, a: CcBlock, b: CcBlock, first: CcRange?, second: CcRange?,
                        ghost upper: seq<CcRange>, ghost lower: seq<CcRange>,
                        ghost nodes: set<Cc>, ghost cells: set<CcRange>, ghost views: seq<Component>)
    requires Paired(a, b, nodes, cells, views) && first == RangeAt(upper, 0) && second == RangeAt(lower, 0)
    requires forall r :: r in upper || r in lower ==> r in cells
    requires forall i {:trigger upper[i].rowNext} :: 0 <= i < |upper| ==> upper[i].rowNext == RangeAt(upper, i + 1)
    requires forall i {:trigger lower[i].rowNext} :: 0 <= i < |lower| ==> lower[i].rowNext == RangeAt(lower, i + 1)
    modifies {a, b}`ccFirst, {a, b}`ccLast, {a, b}`ccs, nodes`prev, nodes`next, nodes`owner, nodes`last, nodes`parts
    modifies nodes`xmin, nodes`xmax, nodes`ymin, nodes`ymax, nodes`area, nodes`xsum, nodes`ysum, cells`ccNext, cells`owner
    ensures Single(a, cells, Sweep(eight, Values(upper), Values(lower), 0, 0, views)) && forall c :: c in a.ccs ==> c in nodes
  {
    SweepRows(eight, a, b, first, second, upper, lower, nodes, cells, views);
    assert Recorded(a, b, CcViews(a.ccs + b.ccs));
    AdoptKeeping(a, b, cells);
  }

  /** The rows of `b` are appended to those of `a`. */
  method AppendRows(a: CcBlock, b: CcBlock)
    requires a.Rowed() && b.Rowed() && a.ymax + 1 == b.ymin
    modifies a`ymax, a`rowLast, a`rows, a`lists, a`cells, {a.rowLast}`next
    ensures a.Rowed() && a.cells == old(a.cells) + b.cells
    ensures a.ymax == b.ymax && a.lists == old(a.lists) + b.lists && a.rows == old(a.rows) + b.rows
  {
    FilledTogether(a, b);
    LinkRows(a, b);
    a.ymax := b.ymax;
    a.cells := a.cells + b.cells;
    a.lists := a.lists + b.lists;
  }

  lemma FilledTogether(a: CcBlock, b: CcBlock)
    requires a.Rowed() && b.Rowed() && a.ymax + 1 == b.ymin
    ensures Filled(a.lists + b.lists, a.ymin, a.cells + b.cells)
  {
    assert a.Layout(RowValues(a.lists)) && b.Layout(RowValues(b.lists));
    FilledConcat(a.lists, b.lists, a.ymin, a.cells, b.cells);
  }

  method LinkRows(a: CcBlock, b: CcBlock)
    requires a.Rowed() && b.Rowed() && a.ymax + 1 == b.ymin && Filled(a.lists + b.lists, a.ymin, a.cells + b.cells)
    modifies a`rowLast, a`rows, {a.rowLast}`next
    ensures a.ymin <= b.ymax && |a.rows| == b.ymax - a.ymin + 1 == |a.lists + b.lists|
    ensures a.rowFirst == a.rows[0] && a.rowLast == a.rows[|a.rows|-1]
    ensures Stacked(a.rows, a.ymin, a.lists + b.lists, a.cells + b.cells) && a.rows == old(a.rows) + b.rows
  {
    assert a.Layout(RowValues(a.lists)) && b.Layout(RowValues(b.lists));
    ghost var was, other := a.rows, b.rows;
    assert forall i :: 0 <= i < |was| ==> was[i].y == a.ymin + i;
    assert forall i :: 0 <= i < |other| ==> other[i].y == b.ymin + i;
    a.rowLast.next := b.rowFirst;
    a.rowLast := b.rowLast;
    assert forall i {:trigger was[i].next} :: 0 <= i < |was| ==> was[i].next == if i == |was| - 1 then other[0] else RowAt(was, i + 1);
    AppendedRows(was, other, a.lists, b.lists, a.ymin, a.cells + b.cells);
    a.rows := was + other;
  }

  lemma AppendedRows(s: seq<CcRow>, t: seq<CcRow>, upper: seq<seq<CcRange>>, lower: seq<seq<CcRange>>, ymin: nat, cells: set<CcRange>)
    requires s != [] && t != [] && |s| == |upper| && |t| == |lower|
    requires forall i, r :: 0 <= i < |upper + lower| && r in (upper + lower)[i] ==> r in cells
    requires forall i {:trigger s[i].next} :: 0 <= i < |s| ==> s[i].next == if i == |s| - 1 then t[0] else RowAt(s, i + 1)
    requires forall i {:trigger t[i].next} :: 0 <= i < |t| ==> t[i].next == RowAt(t, i + 1)
    requires forall i {:trigger s[i].y} :: 0 <= i < |s| ==> s[i].y == ymin + i
    requires forall i {:trigger t[i].y} :: 0 <= i < |t| ==> t[i].y == ymin + |s| + i
    requires forall i {:trigger s[i].Holds(upper[i])} :: 0 <= i < |s| ==> s[i].Holds(upper[i])
    requires forall i {:trigger t[i].Holds(lower[i])} :: 0 <= i < |t| ==> t[i].Holds(lower[i])
    ensures Stacked(s + t, ymin, upper + lower, cells)
  {
    var all, lists := s + t, upper + lower;
    forall i | 0 <= i < |all|
      ensures all[i].next == RowAt(all, i + 1) && all[i].y == ymin + i && all[i].Holds(lists[i])
    {
      if i < |s| {
        assert all[i] == s[i] && lists[i] == upper[i];
      } else {
        assert all[i] == t[i - |s|] && lists[i] == lower[i - |s|];
      }
    }
  }

  lemma OwningConcat(s: seq<Cc>, t: seq<Cc>, upper: set<CcRange>, lower: set<CcRange>)
    requires Owning(s, upper) && Owning(t, lower) && upper !! lower && forall c :: c in t ==> c !in s
    ensures Owning(s + t, upper + lower)
    ensures CcViews(s + t) == CcViews(s) + CcViews(t)
  {
    UniqueConcat(s, t);
  }

  /** Two whole blocks, one right below the other, are ready for the sweep. */
  lemma PairUp(a: CcBlock, b: CcBlock)
    requires a != b && a.Valid() && b.Valid() && a.ymax + 1 == b.ymin
    requires Disjoint(CcViews(a.ccs) + CcViews(b.ccs))
    ensures Paired(a, b, (set c | c in a.ccs + b.ccs), a.cells + b.cells, CcViews(a.ccs) + CcViews(b.ccs))
  {
    assert Lists(a, CcViews(a.ccs)) && Lists(b, CcViews(b.ccs));
    assert a.Layout(RowValues(a.lists)) && b.Layout(RowValues(b.lists));
    FilledConcat(a.lists, b.lists, a.ymin, a.cells, b.cells);
    assert forall c :: c in a.ccs ==> c.owner == a;
    OwningConcat(a.ccs, b.ccs, a.cells, b.cells);
  }

  /** The first range of a row record is that of its list. */
  lemma RowHeads(a: CcBlock)
    requires a.Rowed()
    ensures a.rowFirst != null && a.rowLast != null
    ensures a.rowFirst.first == RangeAt(a.lists[0], 0) && RowLinked(a.lists[0])
    ensures a.rowLast.first == RangeAt(a.lists[|a.lists|-1], 0) && RowLinked(a.lists[|a.lists|-1])
    ensures forall r :: r in a.lists[0] || r in a.lists[|a.lists|-1] ==> r in a.cells
  {
    assert a.Layout(RowValues(a.lists));
    assert a.rows[0].Holds(a.lists[0]) && a.rows[|a.rows|-1].Holds(a.lists[|a.lists|-1]);
  }

  lemma LastRow(a: CcBlock)
    requires a.Rowed()
    ensures a.rowLast in a.rows
  {
    assert a.Layout(RowValues(a.lists));
  }

  /** The sweep and the adoption leave the rows alone. */
  method FuseKeepingRows(eight: bool, a: CcBlock, b: CcBlock, ghost upper: seq<CcRange>, ghost lower: seq<CcRange>,
                         ghost nodes: set<Cc>, ghost cells: set<CcRange>, ghost views: seq<Component>)
    requires a.Rowed() && b.Rowed() && cells == a.cells + b.cells && Paired(a, b, nodes, cells, views)
    requires upper == a.lists[|a.lists|-1] && lower == b.lists[0]
    modifies {a, b}`ccFirst, {a, b}`ccLast, {a, b}`ccs, nodes, cells
    ensures a.Rowed() && b.Rowed() && Single(a, cells, Sweep(eight, Values(upper), Values(lower), 0, 0, views))
    ensures forall c :: c in a.ccs ==> c in nodes
  {
    FuseKeepingUpper(eight, a, b, upper, lower, nodes, cells, views);
  }

  method FuseKeepingUpper(eight: bool, a: CcBlock, b: CcBlock, ghost upper: seq<CcRange>, ghost lower: seq<CcRange>,
                          ghost nodes: set<Cc>, ghost cells: set<CcRange>, ghost views: seq<Component>)
    requires a.Rowed() && b.Rowed() && cells == a.cells + b.cells && Paired(a, b, nodes, cells, views)
    requires upper == a.lists[|a.lists|-1] && lower == b.lists[0]
    modifies {a, b}`ccFirst, {a, b}`ccLast, {a, b}`ccs, nodes`prev, nodes`next, nodes`owner, nodes`last, nodes`parts
    modifies nodes`xmin, nodes`xmax, nodes`ymin, nodes`ymax, nodes`area, nodes`xsum, nodes`ysum, cells`ccNext, cells`owner
    ensures a.Rowed() && Single(a, cells, Sweep(eight, Values(upper), Values(lower), 0, 0, views))
    ensures forall c :: c in a.ccs ==> c in nodes
  {
    RowHeads(a);
    RowHeads(b);
    FuseBelow(eight, a, b, a.rowLast.first, b.rowFirst.first, upper, lower, nodes, cells, views);
  }

  method FuseBelow(eight: bool, a: CcBlock, b: CcBlock, first: CcRange?, second: CcRange?,
                   ghost upper: seq<CcRange>, ghost lower: seq<CcRange>,
                   ghost nodes: set<Cc>, ghost cells: set<CcRange>, ghost views: seq<Component>)
    requires a.Rowed() && Paired(a, b, nodes, cells, views) && first == RangeAt(upper, 0) && second == RangeAt(lower, 0)
    requires RowLinked(upper) && RowLinked(lower) && forall r :: r in upper || r in lower ==> r in cells
    modifies {a, b}`ccFirst, {a, b}`ccLast, {a, b}`ccs, nodes`prev, nodes`next, nodes`owner, nodes`last, nodes`parts
    modifies nodes`xmin, nodes`xmax, nodes`ymin, nodes`ymax, nodes`area, nodes`xsum, nodes`ysum, cells`ccNext, cells`owner
    ensures a.Rowed() && Single(a, cells, Sweep(eight, Values(upper), Values(lower), 0, 0, views))
    ensures forall c :: c in a.ccs ==> c in nodes
  {
    FuseComponents(eight, a, b, first, second, upper, lower, nodes, cells, views);
  }

  /** Appending the rows leaves the components alone. */
  method AppendKeeping(a: CcBlock, b: CcBlock, ghost views: seq<Component>)
    requires a.Rowed() && b.Rowed() && a.ymax + 1 == b.ymin && Single(a, a.cells + b.cells, views)
    modifies a`ymax, a`rowLast, a`rows, a`lists, a`cells, {a.rowLast}`next
    ensures a.Rowed() && a.cells == old(a.cells) + b.cells && Single(a, a.cells, views)
    ensures a.ymax == b.ymax && a.lists == old(a.lists) + b.lists && a.rows == old(a.rows) + b.rows
  {
    AppendRows(a, b);
  }

  lemma FusedView(eight: bool, a: Block, b: Block, upper: seq<seq<CcRange>>, lower: seq<seq<CcRange>>)
    requires a.rows == RowValues(upper) && b.rows == RowValues(lower) && upper != [] && lower != []
    ensures Fuse(eight, a, b) == Block(a.ymin, b.ymax, RowValues(upper + lower),
                                       Sweep(eight, Values(upper[|upper|-1]), Values(lower[0]), 0, 0, a.ccs + b.ccs))
  {
    assert RowValues(upper + lower) == RowValues(upper) + RowValues(lower);
  }

  method FuseParts(eight: bool, a: CcBlock, b: CcBlock, ghost nodes: set<Cc>, ghost cells: set<CcRange>, ghost views: seq<Component>)
    requires a.Rowed() && b.Rowed() && a.ymax + 1 == b.ymin && cells == a.cells + b.cells && Paired(a, b, nodes, cells, views)
    modifies a, b, nodes, cells, {a.rowLast}
    ensures a.Rowed() && a.cells == cells && a.lists == old(a.lists) + old(b.lists)
    ensures a.ymin == old(a.ymin) && a.ymax == old(b.ymax) && a.rows == old(a.rows + b.rows)
    ensures forall c :: c in a.ccs ==> c in nodes
    ensures Single(a, cells, old(Sweep(eight, Values(a.lists[|a.lists|-1]), Values(b.lists[0]), 0, 0, views)))
  {
    ghost var upper, lower := a.lists[|a.lists|-1], b.lists[0];
    FuseKeepingRows(eight, a, b, upper, lower, nodes, cells, views);
    AppendKeeping(a, b, Sweep(eight, Values(upper), Values(lower), 0, 0, views));
  }

  /** A block with sound rows and a sound component list is sound. */
  lemma WholeBlock(a: CcBlock, views: seq<Component>)
    requires a.Rowed() && Single(a, a.cells, views)
    ensures a.Valid() && a.View() == Block(a.ymin, a.ymax, RowValues(a.lists), views)
  {
    assert Lists(a, CcViews(a.ccs));
  }

  /** cc_fuse_blocks: block `a` takes over the block `b` right below it. What it
      then holds is exactly the fusion of what the two held before, and all lists
      are as sound as they were. */
  method FuseBlocks(eight: bool, a: CcBlock, b: CcBlock)
    requires a != b && a.Valid() && b.Valid() && a.ymax + 1 == b.ymin
    requires Disjoint(a.View().ccs + b.View().ccs)
    modifies a, b, a.ccs, b.ccs, a.rows, a.cells, b.cells
    ensures a.Valid()
    ensures a.View() == Fuse(eight, old(a.View()), old(b.View()))
    ensures a.Footprint() <= old(a.Footprint() + b.Footprint())
  {
    ghost var nodes := set c | c in a.ccs + b.ccs;
    ghost var target := Sweep(eight, Values(a.lists[|a.lists|-1]), Values(b.lists[0]), 0, 0, CcViews(a.ccs) + CcViews(b.ccs));
    ghost var fused := Fuse(eight, a.View(), b.View());
    PairUp(a, b);
    LastRow(a);
    FusedView(eight, a.View(), b.View(), a.lists, b.lists);
    assert fused == Block(a.ymin, b.ymax, RowValues(a.lists + b.lists), target);
    FuseParts(eight, a, b, nodes, a.cells + b.cells, CcViews(a.ccs) + CcViews(b.ccs));
    WholeBlock(a, target);
  }

  /** Append a component to the list of the block. */
  method AppendCc(block: CcBlock, cc: Cc)
    requires block.Chained() && cc !in block.ccs && cc.prev == null && cc.next == null
    modifies block`ccFirst, block`ccLast, block`ccs, {block.ccLast}`next, cc`prev, cc`owner
    ensures block.Chained() && block.ccs == old(block.ccs) + [cc]
  {
    ghost var was := block.ccs;
    assert forall i :: 0 <= i < |was| ==> was[i] in was;
    cc.owner := block;
    if block.ccLast != null {
      cc.prev := block.ccLast;
      block.ccLast.next := cc;
      assert forall i {:trigger was[i].next} :: 0 <= i < |was| ==> was[i].next == if i == |was| - 1 then cc else CcAt(was, i + 1);
      AppendedLinks(was, [cc]);
    } else {
      block.ccFirst := cc;
    }
    block.ccLast := cc;
    block.ccs := was + [cc];
  }

  /** Append a range to the row of a block that has just one. */
  method AppendRange(block: CcBlock, range: CcRange)
    requires block.Rowed() && block.ymin == block.ymax && range.y == block.ymin && range.rowNext == null && range !in block.cells
    modifies block`lists, block`cells, block.rows`first, block.rows`last, block.cells`rowNext
    ensures block.Rowed() && block.cells == old(block.cells) + {range}
    ensures |old(block.lists)| == 1 && block.lists == [old(block.lists)[0] + [range]]
  {
    LinkRange(block, range);
    block.lists := [block.lists[0] + [range]];
    block.cells := block.cells + {range};
  }

  method LinkRange(block: CcBlock, range: CcRange)
    requires block.Rowed() && block.ymin == block.ymax && range.y == block.ymin && range.rowNext == null && range !in block.cells
    modifies block.rows`first, block.rows`last, block.cells`rowNext
    ensures |block.lists| == |block.rows| == 1 && block.rowFirst == block.rowLast == block.rows[0]
    ensures Filled([block.lists[0] + [range]], block.ymin, block.cells + {range})
    ensures Stacked(block.rows, block.ymin, [block.lists[0] + [range]], block.cells + {range})
  {
    assert block.Layout(RowValues(block.lists));
    ghost var was := block.lists[0];
    assert block.lists == [was] && Unique(block.lists[0]);
    assert forall r :: r in block.lists[0] ==> r in block.cells;
    assert was != [] ==> was[|was|-1] in was;
    var row := block.rowLast;
    assert row == block.rows[0] && row.Holds(was) by { assert block.rows[0].Holds(block.lists[0]); }
    if row.last != null {
      row.last.rowNext := range;
    } else {
      row.first := range;
    }
    row.last := range;
    assert forall i {:trigger was[i].rowNext} :: 0 <= i < |was| ==> was[i].rowNext == if i == |was| - 1 then range else RangeAt(was, i + 1);
    AppendedRange(was, range, block.ymin, block.cells);
  }

  lemma AppendedRange(was: seq<CcRange>, range: CcRange, y: nat, cells: set<CcRange>)
    requires Filled([was], y, cells) && range.y == y && range !in cells && range.rowNext == null
    requires forall i {:trigger was[i].rowNext} :: 0 <= i < |was| ==> was[i].rowNext == if i == |was| - 1 then range else RangeAt(was, i + 1)
    ensures Filled([was + [range]], y, cells + {range}) && RowLinked(was + [range])
  {
    var now := was + [range];
    assert Unique([was][0]);
    assert forall r :: r in [was][0] ==> r in cells && r.y == y;
    UniqueConcat(was, [range]);
    forall i | 0 <= i < |now| ensures now[i].rowNext == RangeAt(now, i + 1) {
      if i < |was| { assert now[i] == was[i]; }
    }
  }

  /** A new component of a single range joins the list of the block. */
  method AppendSingle(block: CcBlock, cc: Cc, ghost range: CcRange, ghost cells: set<CcRange>, ghost views: seq<Component>)
    requires Single(block, cells, views) && range !in cells
    requires cc.Sound() && cc.parts == [range] && cc !in block.ccs && cc.prev == null && cc.next == null
    modifies block`ccFirst, block`ccLast, block`ccs, {block.ccLast}`next, cc`prev, cc`owner
    ensures Single(block, cells + {range}, views + [cc.View()]) && block.ccs == old(block.ccs) + [cc]
  {
    assert Lists(block, CcViews(block.ccs));
    assert range in cc.parts;
    OwningConcat(block.ccs, [cc], cells, {range});
    AppendCc(block, cc);
  }

  method AddSingle(block: CcBlock, cc: Cc, range: CcRange, ghost views: seq<Component>)
    requires block.Rowed() && Single(block, block.cells, views) && block.ymin == block.ymax
    requires range.y == block.ymin && range.rowNext == null && range !in block.cells
    requires cc.Sound() && cc.parts == [range] && cc !in block.ccs && cc.prev == null && cc.next == null
    modifies block, block.ccs, block.rows, block.cells, cc
    ensures block.Rowed() && Single(block, block.cells, views + [cc.View()])
    ensures block.ymin == block.ymax == old(block.ymin) && block.rows == old(block.rows) && cc.View() == old(cc.View())
    ensures block.ccs == old(block.ccs) + [cc] && block.cells == old(block.cells) + {range}
    ensures |old(block.lists)| == 1 && block.lists == [old(block.lists)[0] + [range]]
  {
    LastCc(block, views);
    ghost var next := views + [cc.View()];
    AppendSingle(block, cc, range, block.cells, views);
    AppendRangeKeeping(block, range, block.cells + {range}, next);
  }

  /** Appending the range leaves the components alone. */
  method AppendRangeKeeping(block: CcBlock, range: CcRange, ghost cells: set<CcRange>, ghost views: seq<Component>)
    requires block.Rowed() && block.ymin == block.ymax && range.y == block.ymin && range.rowNext == null && range !in block.cells
    requires Single(block, cells, views)
    modifies block`lists, block`cells, block.rows`first, block.rows`last, block.cells`rowNext
    ensures block.Rowed() && block.cells == old(block.cells) + {range} && Single(block, cells, views)
    ensures |old(block.lists)| == 1 && block.lists == [old(block.lists)[0] + [range]]
  {
    AppendRange(block, range);
  }

  /** cc_extend_block: a new range, and with it a new component, on the single row
      of the block. */
  method ExtendBlock(block: CcBlock, xmin: nat, xmax: nat)
    requires block.Valid() && block.ymin == block.ymax
    modifies block, block.ccs, block.rows, block.cells
    ensures block.Valid() && block.ymin == block.ymax == old(block.ymin) && block.rows == old(block.rows)
    ensures block.View() == Extended(old(block.View()), Run(block.ymin, xmin, xmax))
    ensures forall c :: c in block.ccs ==> c in old(block.ccs) || fresh(c)
    ensures fresh(block.cells - old(block.cells))
  {
    ghost var views := CcViews(block.ccs);
    var cc := new Cc(block.ymin, xmin, xmax);
    var range := cc.first;
    ghost var list := block.lists[0];
    assert range.Value() == Values(cc.parts)[0];
    AddSingle(block, cc, range, views);
    WholeBlock(block, views + [cc.View()]);
    ExtendedValues(list, range);
  }

  lemma LastCc(block: CcBlock, views: seq<Component>)
    requires Single(block, block.cells, views)
    ensures block.ccLast == null || block.ccLast in block.ccs
  {
    assert Lists(block, CcViews(block.ccs));
  }

  lemma ExtendedValues(list: seq<CcRange>, range: CcRange)
    ensures RowValues([list + [range]]) == [RowValues([list])[0] + [range.Value()]]
  {
    assert Values(list + [range]) == Values(list) + [range.Value()];
  }

  /** The single row block with one more run. */
  ghost function Extended(b: Block, r: Run): Block
    requires b.rows != []
  {
    Block(b.ymin, b.ymax, [b.rows[0] + [r]], b.ccs + [NewComponent(r)])
  }

  /** The single row block of the given runs, each a component of its own. */
  ghost function RunBlock(y: nat, runs: seq<Run>): Block {
    Block(y, y, [runs], NewComponents(runs))
  }

  lemma NewComponentsAppend(runs: seq<Run>, r: Run)
    ensures NewComponents(runs + [r]) == NewComponents(runs) + [NewComponent(r)]
  {
    forall k | 0 <= k < |runs| + 1
      ensures NewComponents(runs + [r])[k] == (NewComponents(runs) + [NewComponent(r)])[k]
    {
    }
  }

  /** Where a stretch of foreground pixels stops, its run does. */
  lemma RunEndAt(y: nat, row: seq<real>, start: nat, end: nat)
    requires start <= end < |row| && (forall k :: start <= k <= end ==> row[k] > 0.0)
    requires end + 1 < |row| ==> !(row[end+1] > 0.0)
    ensures RunsFrom(y, row, start) == [Run(y, start, end)] + RunsFrom(y, row, end + 1)
  {
    assert RunEnd(row, start) == end;
  }

  /** The stretch of foreground pixels from `start` to `end` is recorded. */
  method EndRun(a: CcBlock, values: seq<real>, start: nat, end: nat, ghost done: seq<Run>)
    requires a.Valid() && a.View() == RunBlock(a.ymin, done)
    requires start <= end < |values| && (forall k :: start <= k <= end ==> values[k] > 0.0)
    requires end + 1 < |values| ==> !(values[end+1] > 0.0)
    modifies a, a.ccs, a.rows, a.cells
    ensures a.ymin == old(a.ymin) && a.rows == old(a.rows)
    ensures a.Valid() && a.View() == RunBlock(a.ymin, done + [Run(a.ymin, start, end)])
    ensures done + RunsFrom(a.ymin, values, start) == done + [Run(a.ymin, start, end)] + RunsFrom(a.ymin, values, end + 1)
    ensures forall c :: c in a.ccs ==> c in old(a.ccs) || fresh(c)
    ensures fresh(a.cells - old(a.cells))
  {
    RunEndAt(a.ymin, values, start, end);
    NewComponentsAppend(done, Run(a.ymin, start, end));
    ExtendBlock(a, start, end);
  }

  /** cc_scan: an empty block is filled with the runs of a row of pixels. */
  method ScanBlock(values: seq<real>, a: CcBlock)
    requires a.Valid() && a.View() == RunBlock(a.ymin, []) && a.ccs == [] && a.cells == {}
    modifies a, a.rows
    ensures a.Valid() && a.View() == ScanRow(old(a.ymin), values)
    ensures a.rows == old(a.rows) && fresh(set c | c in a.ccs) && fresh(a.cells)
  {
    ghost var done;
    var inComponent, start, end;
    inComponent, start, end, done := ScanPixels(values, a);
    if inComponent {
      EndRun(a, values, start, end, done);
      done := done + [Run(a.ymin, start, end)];
    }
    assert done + [] == done;
  }

  /** The loop over the pixels. A run that reaches the end of the row is still open. */
  method ScanPixels(values: seq<real>, a: CcBlock) returns (inComponent: bool, start: nat, end: nat, ghost done: seq<Run>)
    requires a.Valid() && a.View() == RunBlock(a.ymin, []) && a.ccs == [] && a.cells == {}
    modifies a, a.rows
    ensures a.Valid() && a.ymin == old(a.ymin) && a.View() == RunBlock(a.ymin, done)
    ensures inComponent ==> start <= end && end + 1 == |values| && forall k :: start <= k <= end ==> values[k] > 0.0
    ensures done + RunsFrom(a.ymin, values, if inComponent then start else |values|) == RowRuns(a.ymin, values)
    ensures a.rows == old(a.rows) && fresh(set c | c in a.ccs) && fresh(a.cells)
  {
    done := [];
    inComponent, start, end := false, 0, 0;
    var i: nat := 0;
    while i < |values|
      invariant i <= |values| && a.Valid() && a.ymin == old(a.ymin) && a.View() == RunBlock(a.ymin, done)
      invariant inComponent ==> start <= end && end + 1 == i && forall k :: start <= k < i ==> values[k] > 0.0
      invariant done + RunsFrom(a.ymin, values, if inComponent then start else i) == RowRuns(a.ymin, values)
      invariant a.rows == old(a.rows) && fresh(set c | c in a.ccs) && fresh(a.cells)
    {
      inComponent, start, end, done := ScanPixel(values, a, i, inComponent, start, end, done);
      i := i + 1;
    }
  }

  /** A pixel opens a run, goes on with it, or ends it, which records it. */
  method ScanPixel(values: seq<real>, a: CcBlock, i: nat, inside: bool, from: nat, to: nat, ghost before: seq<Run>)
    returns (inComponent: bool, start: nat, end: nat, ghost done: seq<Run>)
    requires i < |values| && a.Valid() && a.View() == RunBlock(a.ymin, before)
    requires inside ==> from <= to && to + 1 == i && forall k :: from <= k < i ==> values[k] > 0.0
    modifies a, a.ccs, a.rows, a.cells
    ensures a.Valid() && a.ymin == old(a.ymin) && a.View() == RunBlock(a.ymin, done) && a.rows == old(a.rows)
    ensures inComponent ==> start <= end && end + 1 == i + 1 && forall k :: start <= k < i + 1 ==> values[k] > 0.0
    ensures done + RunsFrom(a.ymin, values, if inComponent then start else i + 1)
         == before + RunsFrom(a.ymin, values, if inside then from else i)
    ensures (forall c :: c in a.ccs ==> c in old(a.ccs) || fresh(c)) && fresh(a.cells - old(a.cells))
  {
    inComponent, start, end, done := inside, from, to, before;
    if values[i] > 0.0 {
      if !inComponent {
        inComponent, start := true, i;
      }
      end := i;
    } else if inComponent {
      inComponent := false;
      EndRun(a, values, start, end, done);
      done := done + [Run(a.ymin, start, end)];
    }
  }

  /** In a sound block every range is on exactly one row list and on exactly one
      component list, the one of the component it points back to. */
  lemma ListedOnce(block: CcBlock, r: CcRange)
    requires block.Valid() && r in block.cells
    ensures r.owner != null && r.owner in block.ccs && r in r.owner.parts
    ensures forall c :: c in block.ccs && r in c.parts ==> c == r.owner
    ensures block.ymin <= r.y <= block.ymax && r.y - block.ymin < |block.lists| && r in block.lists[r.y - block.ymin]
    ensures forall i :: 0 <= i < |block.lists| && r in block.lists[i] ==> i == r.y - block.ymin
  {
    assert Lists(block, CcViews(block.ccs)) && block.Layout(RowValues(block.lists));
    forall c | c in block.ccs && r in c.parts ensures c == r.owner {
      assert c.Sound();
    }
  }
}

