/** Rectangles of the plane, and how a request for an area splits into the part
    inside an image's domain and the strips around it. */
module Rectangles {

  /** Columns x..x+w-1 of rows y..y+h-1. */
  datatype Rect = Rect(x: int, y: int, w: nat, h: nat)

  predicate Contains(r: Rect, px: int, py: int) {
    !(px < r.x || py < r.y || px >= r.x + r.w || py >= r.y + r.h)
  }

  predicate IsEmpty(r: Rect) {
    r.w == 0 || r.h == 0
  }

  predicate IsSubset(a: Rect, b: Rect) {
    a.x >= b.x && a.x + a.w <= b.x + b.w && a.y >= b.y && a.y + a.h <= b.y + b.h
  }

  function Max(a: int, b: int): int { if a > b then a else b }

  function Min(a: int, b: int): int { if a < b then a else b }

  function Intersect(a: Rect, b: Rect): Rect {
    if a.x + a.w <= b.x || b.x + b.w <= a.x || a.y + a.h <= b.y || b.y + b.h <= a.y then Rect(0, 0, 0, 0)
    else
      var nx, ny := Max(b.x, a.x), Max(b.y, a.y);
      Rect(nx, ny, Min(b.x + b.w, a.x + a.w) - nx, Min(b.y + b.h, a.y + a.h) - ny)
  }

  lemma IntersectExact(a: Rect, b: Rect, px: int, py: int)
    ensures Contains(Intersect(a, b), px, py) <==> Contains(a, px, py) && Contains(b, px, py)
  {
  }

  /** Without a common cell the intersection is the empty rectangle at the origin. */
  lemma IntersectNone(a: Rect, b: Rect)
    requires !IsEmpty(a) && !IsEmpty(b)
    ensures Intersect(a, b) == Rect(0, 0, 0, 0) <==> !exists px, py :: Contains(a, px, py) && Contains(b, px, py)
  {
    var r := Intersect(a, b);
    if !IsEmpty(r) {
      IntersectExact(a, b, r.x, r.y);
      assert Contains(a, r.x, r.y) && Contains(b, r.x, r.y);
    }
  }

  /** The subset test is exact for rectangles that contain anything. */
  lemma SubsetExact(a: Rect, b: Rect)
    requires !IsEmpty(a)
    ensures IsSubset(a, b) <==> forall px, py :: Contains(a, px, py) ==> Contains(b, px, py)
  {
    if forall px, py :: Contains(a, px, py) ==> Contains(b, px, py) {
      assert Contains(a, a.x, a.y) && Contains(a, a.x + a.w - 1, a.y + a.h - 1);
    }
  }

  /** The strips around the domain, in coordinates that put the corner of the request
      at 0,0: above and below in full width, left and right at the height between. */
  function Strips(domain: Rect, request: Rect): seq<Rect>
    requires !IsEmpty(Intersect(domain, request))
  {
    var top, left := domain.y - request.y, domain.x - request.x;
    var bottom, right := request.h - domain.h - top, request.w - domain.w - left;
    var high := domain.h + Min(top, 0) + Min(bottom, 0);
    (if top > 0 then [Rect(0, 0, request.w, top)] else [])
    + (if bottom > 0 then [Rect(0, top + domain.h, request.w, bottom)] else [])
    + (if left > 0 then [Rect(0, Max(top, 0), left, high)] else [])
    + (if right > 0 then [Rect(left + domain.w, Max(top, 0), right, high)] else [])
  }

  /** aktive_rectangle_outzones: the intersection, then the strips; nothing if the
      request is outside the domain. */
  function Zones(domain: Rect, request: Rect): seq<Rect> {
    var inside := Intersect(domain, request);
    if IsEmpty(inside) then [] else [inside] + Strips(domain, request)
  }

  /** aktive_rectangle_outzones, filling an array of five. */
  method Outzones(domain: Rect, request: Rect, v: array<Rect>) returns (count: nat)
    requires v.Length == 5
    modifies v
    ensures count <= 5 && v[..count] == Zones(domain, request)
  {
    v[0] := Intersect(domain, request);
    if IsEmpty(v[0]) { return 0; }
    count := 1;
    var top, left := domain.y - request.y, domain.x - request.x;
    var bottom, right := request.h - domain.h - top, request.w - domain.w - left;
    var high := domain.h + Min(top, 0) + Min(bottom, 0);
    if top > 0 { v[count] := Rect(0, 0, request.w, top); count := count + 1; }
    if bottom > 0 { v[count] := Rect(0, top + domain.h, request.w, bottom); count := count + 1; }
    if left > 0 { v[count] := Rect(0, Max(top, 0), left, high); count := count + 1; }
    if right > 0 { v[count] := Rect(left + domain.w, Max(top, 0), right, high); count := count + 1; }
  }

  /** Zone k with the intersection moved to the coordinates of the strips. */
  function Placed(domain: Rect, request: Rect, k: nat): Rect
    requires k < |Zones(domain, request)|
  {
    var z := Zones(domain, request)[k];
    if k == 0 then Rect(z.x - request.x, z.y - request.y, z.w, z.h) else z
  }

  /** Every zone is inside the block of the request, and none is empty. */
  lemma ZonesInside(domain: Rect, request: Rect, k: nat)
    requires k < |Zones(domain, request)|
    ensures !IsEmpty(Placed(domain, request, k)) && IsSubset(Placed(domain, request, k), Rect(0, 0, request.w, request.h))
  {
    var top, left := domain.y - request.y, domain.x - request.x;
    var bottom, right := request.h - domain.h - top, request.w - domain.w - left;
  }

  /** No cell is in two zones. */
  lemma ZonesDisjoint(domain: Rect, request: Rect, j: nat, k: nat, i: int, l: int)
    requires j < k < |Zones(domain, request)|
    ensures !(Contains(Placed(domain, request, j), i, l) && Contains(Placed(domain, request, k), i, l))
  {
  }

  /** Every cell of the request is in a zone: in the first, if the image has a pixel
      there, and in one of the strips if it has not. */
  lemma ZonesCover(domain: Rect, request: Rect, i: int, l: int)
    requires Zones(domain, request) != [] && Contains(Rect(0, 0, request.w, request.h), i, l)
    ensures Contains(Placed(domain, request, 0), i, l) <==> Contains(domain, request.x + i, request.y + l)
    ensures exists k :: 0 <= k < |Zones(domain, request)| && Contains(Placed(domain, request, k), i, l)
  {
    IntersectExact(domain, request, request.x + i, request.y + l);
    var strips := Strips(domain, request);
    if !Contains(domain, request.x + i, request.y + l) {
      var top, left := domain.y - request.y, domain.x - request.x;
      var bottom := request.h - domain.h - top;
      var n := if top > 0 then 1 else 0;
      var m := n + if bottom > 0 then 1 else 0;
      var o := m + if left > 0 then 1 else 0;
      var k := if l < top then 0 else if l >= top + domain.h then n else if i < left then m else o;
      assert Contains(strips[k], i, l);
      assert Placed(domain, request, k + 1) == strips[k];
    }
  }

  /** There are no zones exactly when no pixel of the domain is requested. */
  lemma NoZones(domain: Rect, request: Rect)
    ensures Zones(domain, request) == [] <==> forall px, py :: !(Contains(domain, px, py) && Contains(request, px, py))
  {
    var inside := Intersect(domain, request);
    if !IsEmpty(inside) {
      assert Contains(inside, inside.x, inside.y);
      IntersectExact(domain, request, inside.x, inside.y);
    } else {
      forall px, py ensures !(Contains(domain, px, py) && Contains(request, px, py)) {
        IntersectExact(domain, request, px, py);
      }
    }
  }
}
