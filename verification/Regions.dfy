/** Regions: a node of the image graph serves the requests of all its callers from a
    few result blocks, one more for each caller that gets in another's way. */
module Regions {
  import opened Rectangles

  /** A result block: the area it was last asked for, and the values of its cells. */
  class Block {
    var initialized: bool
    var reader: int          // the calling region, as the block was first used
    var area: Rect           // location and dimensions
    var pixel: (int, int) -> real

    constructor (reader: int)
      ensures !initialized && this.reader == reader
    {
      this.reader := reader;
      initialized, area, pixel := false, Rect(0, 0, 0, 0), (i, j) => 0.0;
    }

    /** Every requested cell holds the pixel of the image, and 0 outside of it. */
    ghost predicate Shows(domain: Rect, image: (int, int) -> real)
      reads `area, `pixel
    {
      forall i, j :: 0 <= i < area.w && 0 <= j < area.h ==>
        pixel(i, j) == if Contains(domain, area.x + i, area.y + j) then image(area.x + i, area.y + j) else 0.0
    }

    /** aktive_blit_setup. */
    method Setup(request: Rect)
      modifies `area, `pixel
      ensures area == request && pixel == ((i, j) => 0.0)
    {
      area, pixel := request, (i, j) => 0.0;
    }

    /** aktive_blit_clear. */
    method Clear(zone: Rect)
      modifies `pixel
      ensures pixel == Cleared(old(pixel), zone)
    {
      pixel := Cleared(pixel, zone);
    }

    /** The fetch callback: the given part of the image goes to the cells of `dst`. */
    method Blit(image: (int, int) -> real, part: Rect, dst: Rect)
      modifies `pixel
      ensures pixel == Blitted(old(pixel), image, part, dst)
    {
      pixel := Blitted(pixel, image, part, dst);
    }
  }

  function Cleared(pixel: (int, int) -> real, zone: Rect): (int, int) -> real {
    (i, j) => if Contains(zone, i, j) then 0.0 else pixel(i, j)
  }

  function Blitted(pixel: (int, int) -> real, image: (int, int) -> real, part: Rect, dst: Rect): (int, int) -> real {
    (i, j) => if Contains(dst, i, j) then image(part.x + i - dst.x, part.y + j - dst.y) else pixel(i, j)
  }

  /** An input of some calling region, with the variable that says which result block
      of the region it calls is its. */
  class Edge {
    const caller: int
    var slot: nat
  }

  class Region {
    const domain: Rect
    const image: (int, int) -> real
    var rcap: nat               // how many callers there are
    var result: seq<Block>      // the blocks in use
    ghost var edges: set<Edge>
    ghost var owners: seq<Edge> // whose arrival put each block into use

    /** Slots are handed out one per owner, an edge has either its own or the first. */
    ghost predicate Slotted()
      reads `result, `owners, `rcap, `edges, result`reader, edges`slot
    {
      && |edges| == rcap && |owners| == |result|
      && (forall k :: 0 <= k < |owners| ==> owners[k] in edges && owners[k].slot == k && owners[k].caller == result[k].reader)
      && (forall e :: e in edges ==> e.slot == 0 || (e.slot < |owners| && owners[e.slot] == e))
      && (forall j, k :: 0 <= j < k < |result| ==> result[j] != result[k])
    }

    /** What a block that was used last for some area shows is that area. */
    ghost predicate Shown()
      reads `result, result
    {
      forall k :: 0 <= k < |result| ==> result[k].initialized ==> result[k].Shows(domain, image)
    }

    ghost predicate Valid()
      reads this, result, edges`slot
    {
      Slotted() && Shown()
    }

    /** aktive_region_new, when the first caller asks for the region of an image. */
    constructor (domain: Rect, image: (int, int) -> real, ghost edge: Edge)
      requires edge.slot == 0
      ensures Valid() && this.domain == domain && this.image == image && edges == {edge} && rcap == 1 && result == []
    {
      this.domain, this.image, edges, rcap := domain, image, {edge}, 1;
      result, owners := [], [];
    }

    /** aktive_region_new, when another caller asks: the region is known already, and
        the caller is counted. All regions are set up before the first fetch. */
    method Reuse(ghost edge: Edge)
      requires Valid() && result == [] && edge !in edges && edge.slot == 0
      modifies `rcap, `edges
      ensures Valid() && edges == old(edges) + {edge} && rcap == |edges|
    {
      rcap := rcap + 1;
      edges := edges + {edge};
    }

    /** aktive_region_fetch_area_core: whoever asks, in whatever order, is given a block
        that shows the requested area. A caller moves to a block of its own at most
        once, when it finds another one's in its place, and there is always room. What
        a caller was given stays as it is at least until the caller that is the reader
        of the block asks for something else. */
    method Fetch(request: Rect, edge: Edge) returns (block: Block)
      requires Valid() && edge in edges
      modifies `result, `owners, edge`slot, result
      ensures Valid() && |result| <= rcap
      ensures block in result && block.area == request && block.Shows(domain, image)
      ensures old(result) <= result && edge.slot < |result|
      ensures forall k :: 0 <= k < |old(result)| && (k != edge.slot || result[k].reader != edge.caller) ==>
                result[k].area == old(result[k].area) && result[k].pixel == old(result[k].pixel)
                && result[k].initialized == old(result[k].initialized)
      ensures forall k :: 0 <= k < |old(result)| ==> result[k].reader == old(result[k].reader)
      ensures forall b :: b in result ==> b in old(result) || fresh(b)
      ensures block == result[edge.slot] && block.initialized
      ensures old(result) == [] ==> |result| == 1 && edge.slot == 0 && block.reader == edge.caller
      ensures old(result) != [] && (old(result[edge.slot].reader) == edge.caller
                                    || (old(result[edge.slot].initialized) && old(result[edge.slot].area) == request)) ==>
                result == old(result) && edge.slot == old(edge.slot)
      ensures edge.slot == old(edge.slot) || (old(edge.slot) == 0 && edge.slot == |old(result)| && |result| == edge.slot + 1)
    {
      if result == [] { FirstBlock(edge); }
      block := result[edge.slot];
      if block.initialized && block.area == request {
        OwnersBounded(owners, edges);
        return;
      }
      if block.reader != edge.caller { block := NextBlock(edge); }
      Fill(block, request);
      OwnersBounded(owners, edges);
    }

    method FirstBlock(edge: Edge)
      requires Valid() && edge in edges && result == []
      modifies `result, `owners
      ensures Valid() && |result| == 1 && fresh(result[0]) && result[0].reader == edge.caller && !result[0].initialized
    {
      var first := new Block(edge.caller);
      result, owners := [first], [edge];
    }

    /** A conflict: the caller gets a block of its own. */
    method NextBlock(edge: Edge) returns (block: Block)
      requires Valid() && edge in edges && result != [] && edge.slot < |result| && result[edge.slot].reader != edge.caller
      modifies `result, `owners, edge`slot
      ensures Valid() && old(edge.slot) == 0
      ensures fresh(block) && result == old(result) + [block] && edge.slot == |old(result)| && !block.initialized
    {
      assert owners[edge.slot] != edge;
      block := new Block(edge.caller);
      edge.slot := |result|;
      result, owners := result + [block], owners + [edge];
    }

    /** The request is split at the border of the domain. */
    method Fill(block: Block, request: Rect)
      requires Valid() && block in result
      modifies block`area, block`pixel, block`initialized
      ensures Valid() && block.area == request && block.Shows(domain, image) && block.initialized
    {
      FillBlock(domain, image, block, request);
    }
  }

  /** How a block can change under a caller that does not own it: it asked for just what
      the first caller had last asked for, and got the same block; then the first one
      asks for something else. */
  method ChangedUnderneath(region: Region, first: Edge, second: Edge, request: Rect, other: Rect) returns (given: Block)
    requires region.Valid() && region.result == [] && first in region.edges && second in region.edges
    requires first.caller != second.caller && request != other
    modifies region, first, second
    ensures region.Valid() && second.slot < |region.result| && given == region.result[second.slot]
    ensures given.area == other && given.Shows(region.domain, region.image)
  {
    var mine := region.Fetch(request, first);
    given := region.Fetch(request, second);
    assert given == mine && given.area == request;
    var now := region.Fetch(other, first);
  }

  method FillBlock(domain: Rect, image: (int, int) -> real, block: Block, request: Rect)
    modifies block`area, block`pixel, block`initialized
    ensures block.area == request && block.Shows(domain, image) && block.initialized
  {
    block.Setup(request);
    block.initialized := true;
    if IsSubset(request, domain) {
      block.Blit(image, request, Rect(0, 0, request.w, request.h));
      forall c, l | 0 <= c < request.w && 0 <= l < request.h
        ensures block.pixel(c, l) == image(request.x + c, request.y + l) && Contains(domain, request.x + c, request.y + l)
      {
        assert Contains(Rect(0, 0, request.w, request.h), c, l);
        assert block.pixel(c, l) == image(request.x + c - 0, request.y + l - 0);
      }
      return;
    }
    var zv := new Rect[5](_ => Rect(0, 0, 0, 0));
    var zc := Outzones(domain, request, zv);
    if zc == 0 {
      NoZones(domain, request);
      block.Clear(Rect(0, 0, request.w, request.h));
      forall c, l | 0 <= c < request.w && 0 <= l < request.h
        ensures block.pixel(c, l) == 0.0 && !Contains(domain, request.x + c, request.y + l)
      {
        assert Contains(request, request.x + c, request.y + l);
      }
      return;
    }
    FillAcross(domain, image, block, request, zv, zc);
  }

  /** The request overlaps the border: clear the strips, fetch the rest. */
  method FillAcross(domain: Rect, image: (int, int) -> real, block: Block, request: Rect, zv: array<Rect>, zc: nat)
    requires 1 <= zc <= zv.Length && zv[..zc] == Zones(domain, request) && block.area == request
    modifies block`pixel
    ensures block.Shows(domain, image)
  {
    ghost var zones := Zones(domain, request);
    var i := 1;
    while i < zc
      invariant 1 <= i <= zc && zv[..zc] == zones && block.area == request
      invariant forall k, c, l :: 1 <= k < i && Contains(zones[k], c, l) ==> block.pixel(c, l) == 0.0
    {
      block.Clear(zv[i]);
      i := i + 1;
    }
    var dst := Rect(zv[0].x - request.x, zv[0].y - request.y, zv[0].w, zv[0].h);
    block.Blit(image, zv[0], dst);
    ShownAcross(domain, image, block, request);
  }

  /** The strips are cleared and the rest is fetched. */
  lemma ShownAcross(domain: Rect, image: (int, int) -> real, block: Block, request: Rect)
    requires Zones(domain, request) != [] && block.area == request
    requires forall k, c, l :: 1 <= k < |Zones(domain, request)| && Contains(Zones(domain, request)[k], c, l) ==>
               block.pixel(c, l) == 0.0 || Contains(Placed(domain, request, 0), c, l)
    requires forall c, l :: Contains(Placed(domain, request, 0), c, l) ==> block.pixel(c, l) == image(request.x + c, request.y + l)
    ensures block.Shows(domain, image)
  {
    forall c, l | 0 <= c < request.w && 0 <= l < request.h
      ensures block.pixel(c, l) == if Contains(domain, request.x + c, request.y + l) then image(request.x + c, request.y + l) else 0.0
    {
      ZonesCover(domain, request, c, l);
    }
  }

  lemma {:induction false} OwnersBounded(owners: seq<Edge>, edges: set<Edge>)
    requires forall k :: 0 <= k < |owners| ==> owners[k] in edges
    requires forall j, k :: 0 <= j < k < |owners| ==> owners[j] != owners[k]
    ensures |owners| <= |edges|
  {
    if owners != [] {
      var last := owners[|owners|-1];
      OwnersBounded(owners[..|owners|-1], edges - {last});
    }
  }
}
