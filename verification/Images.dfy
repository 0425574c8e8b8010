/** Images, pixels, and the reference notion of connectivity: two foreground
    pixels are connected when a path of adjacent foreground pixels joins them.
    Everything the connected-components code promises is stated against this. */
module Images {

  /** Rows of pixel values. A pixel is foreground when its value is positive. */
  type Image = seq<seq<real>>

  datatype Pixel = Pixel(x: nat, y: nat)

  predicate Foreground(img: Image, p: Pixel) {
    p.y < |img| && p.x < |img[p.y]| && img[p.y][p.x] > 0.0
  }

  function Distance(a: nat, b: nat): nat {
    if a < b then b - a else a - b
  }

  /** 4-neighbours share a side, 8-neighbours share a side or a corner. */
  predicate Adjacent(eight: bool, p: Pixel, q: Pixel) {
    var dx, dy := Distance(p.x, q.x), Distance(p.y, q.y);
    if eight then dx <= 1 && dy <= 1 && p != q else dx + dy == 1
  }

  /** A rectangle of rows `lo..hi` (inclusive) of an image, with a neighbourhood. */
  datatype Window = Window(img: Image, eight: bool, lo: nat, hi: nat)

  predicate Inside(w: Window, p: Pixel) {
    Foreground(w.img, p) && w.lo <= p.y <= w.hi
  }

  ghost predicate IsPath(w: Window, path: seq<Pixel>) {
    && |path| > 0
    && (forall i :: 0 <= i < |path| ==> Inside(w, path[i]))
    && (forall i :: 0 < i < |path| ==> Adjacent(w.eight, path[i-1], path[i]))
  }

  ghost predicate PathFromTo(w: Window, path: seq<Pixel>, p: Pixel, q: Pixel) {
    IsPath(w, path) && path[0] == p && path[|path|-1] == q
  }

  /** The reference: a path of adjacent foreground pixels inside the window. */
  ghost predicate Connected(w: Window, p: Pixel, q: Pixel) {
    exists path :: PathFromTo(w, path, p, q)
  }

  lemma ConnectedSelf(w: Window, p: Pixel)
    requires Inside(w, p)
    ensures Connected(w, p, p)
  {
    assert PathFromTo(w, [p], p, p);
  }

  lemma ConnectedStep(w: Window, p: Pixel, q: Pixel)
    requires Inside(w, p) && Inside(w, q) && Adjacent(w.eight, p, q)
    ensures Connected(w, p, q)
  {
    assert PathFromTo(w, [p, q], p, q);
  }

  lemma ConnectedTransitive(w: Window, p: Pixel, q: Pixel, r: Pixel)
    requires Connected(w, p, q) && Connected(w, q, r)
    ensures Connected(w, p, r)
  {
    var a :| PathFromTo(w, a, p, q);
    var b :| PathFromTo(w, b, q, r);
    assert PathFromTo(w, a + b[1..], p, r);
  }

  lemma ConnectedSymmetric(w: Window, p: Pixel, q: Pixel)
    requires Connected(w, p, q)
    ensures Connected(w, q, p)
  {
    var a :| PathFromTo(w, a, p, q);
    var b := seq(|a|, i requires 0 <= i < |a| => a[|a|-1-i]);
    forall i | 0 < i < |b| ensures Adjacent(w.eight, b[i-1], b[i]) {
      assert Adjacent(w.eight, a[|a|-1-i], a[|a|-i]);
    }
    assert PathFromTo(w, b, q, p);
  }

  lemma ConnectedWiden(w: Window, v: Window, p: Pixel, q: Pixel)
    requires Connected(w, p, q)
    requires w.img == v.img && w.eight == v.eight && v.lo <= w.lo && w.hi <= v.hi
    ensures Connected(v, p, q)
  {
    var a :| PathFromTo(w, a, p, q);
    forall i | 0 <= i < |a| ensures Inside(v, a[i]) {
      assert Inside(w, a[i]);
    }
    assert PathFromTo(v, a, p, q);
  }
}
