/** The AKTIVE image format: header, then the values of all rows. The blocks of an
    image may be written in any order. */
module AktiveFormat {
  import opened NumberReader
  import opened Encoding
  import opened ByteWriter
  import opened Totals

  datatype Geometry = Geometry(x: int, y: int, width: nat, height: nat, depth: nat)

  /** What the fields of the header have room for. */
  ghost predicate Storable(g: Geometry, meta: seq<Byte>) {
    && -0x8000_0000 <= g.x < 0x8000_0000 && -0x8000_0000 <= g.y < 0x8000_0000
    && g.width < 0x1_0000_0000 && g.height < 0x1_0000_0000 && g.depth < 0x1_0000_0000 && |meta| < 0x1_0000_0000
  }

  function Magic(big: bool): seq<Byte> {
    if big then [65, 75, 84, 73, 86, 69] else [65, 75, 84, 73, 86, 69, 76, 69]
  }

  const Version: seq<Byte> := [48, 48]
  const Magic2: seq<Byte> := [65, 75, 84, 73, 86, 69, 95, 68]

  function Word(big: bool, v: nat): seq<Byte> {
    Encode(big, v, 4)
  }

  function Numbers(big: bool, g: Geometry, metac: nat): seq<Byte> {
    Word(big, Unsigned(g.x)) + Word(big, Unsigned(g.y)) + Word(big, g.width) + Word(big, g.height) + Word(big, g.depth) + Word(big, metac)
  }

  function Header(big: bool, g: Geometry, meta: seq<Byte>): seq<Byte> {
    Magic(big) + Version + Numbers(big, g, |meta|) + meta + Magic2
  }

  /** All values, row after row. */
  function Joined(rows: seq<seq<Pattern>>): seq<Pattern> {
    if rows == [] then [] else rows[0] + Joined(rows[1..])
  }

  /** The rows of an image of this geometry. */
  ghost predicate RowsOf(g: Geometry, rows: seq<seq<Pattern>>) {
    |rows| == g.height && forall k :: 0 <= k < |rows| ==> |rows[k]| == g.width * g.depth
  }

  function File(big: bool, g: Geometry, meta: seq<Byte>, rows: seq<seq<Pattern>>): seq<Byte> {
    Header(big, g, meta) + Cells(big, Joined(rows))
  }

  // - - -- --- ----- -------- Where things are

  /** Index of the first value of row k. */
  function RowStart(n: nat, k: nat): nat {
    if k == 0 then 0 else RowStart(n, k - 1) + n
  }

  lemma {:induction false} RowStartIs(n: nat, k: nat)
    ensures RowStart(n, k) == n * k
  {
    if k > 0 { RowStartIs(n, k - 1); }
  }

  lemma {:induction false} JoinedRow(rows: seq<seq<Pattern>>, n: nat, k: nat)
    requires k < |rows| && forall i :: 0 <= i < |rows| ==> |rows[i]| == n
    ensures RowStart(n, k) + n <= |Joined(rows)|
    ensures Joined(rows)[RowStart(n, k)..RowStart(n, k) + n] == rows[k]
  {
    if k > 0 {
      JoinedRow(rows[1..], n, k - 1);
      var rest := Joined(rows[1..]);
      assert Joined(rows) == rows[0] + rest;
      RowStartShift(n, k);
      assert Joined(rows)[RowStart(n, k)..RowStart(n, k) + n] == rest[RowStart(n, k) - n..RowStart(n, k)];
    }
  }

  lemma RowStartShift(n: nat, k: nat)
    requires k > 0
    ensures RowStart(n, k) == RowStart(n, k - 1) + n
  {
  }

  lemma {:induction false} JoinedSize(rows: seq<seq<Pattern>>, n: nat)
    requires forall i :: 0 <= i < |rows| ==> |rows[i]| == n
    ensures |Joined(rows)| == RowStart(n, |rows|)
  {
    if rows != [] {
      JoinedSize(rows[1..], n);
      RowStartShift(n, |rows|);
    }
  }

  /** Every index is that of some value of some row. */
  lemma {:induction false} RowOfIndex(n: nat, height: nat, i: nat) returns (k: nat, j: nat)
    requires i < RowStart(n, height)
    ensures k < height && j < n && i == RowStart(n, k) + j
    decreases height
  {
    if i < RowStart(n, height - 1) {
      k, j := RowOfIndex(n, height - 1, i);
    } else {
      k, j := height - 1, i - RowStart(n, height - 1);
    }
  }

  // - - -- --- ----- -------- Writing

  /** A block of the image: its place and its values, row after row. */
  datatype Block = Block(x: int, y: int, width: nat, height: nat, pixel: seq<Pattern>)

  /** `count` rows from number `first` on, of each the m values from `lo` on. */
  function Excerpt(rows: seq<seq<Pattern>>, first: nat, count: nat, lo: nat, m: nat): seq<Pattern>
    requires first + count <= |rows| && forall k :: 0 <= k < |rows| ==> lo + m <= |rows[k]|
    decreases count
  {
    if count == 0 then [] else rows[first][lo..lo + m] + Excerpt(rows, first + 1, count - 1, lo, m)
  }

  function Low(g: Geometry, b: Block): int {
    (b.x - g.x) * g.depth
  }

  function Width(g: Geometry, b: Block): nat {
    b.width * g.depth
  }

  /** The block is inside the image and holds its values. */
  ghost predicate BlockOf(g: Geometry, rows: seq<seq<Pattern>>, b: Block) {
    && RowsOf(g, rows) && b.width > 0 && b.height > 0
    && 0 <= b.y - g.y && b.y - g.y + b.height <= g.height && 0 <= b.x - g.x && b.x - g.x + b.width <= g.width
    && 0 <= Low(g, b) && Low(g, b) + Width(g, b) <= g.width * g.depth
    && b.pixel == Excerpt(rows, b.y - g.y, b.height, Low(g, b), Width(g, b))
  }

  /** The bytes start..end of the file were written. */
  ghost predicate Covered(written: map<nat, Byte>, start: nat, end: nat) {
    forall k :: start <= k < end ==> k in written
  }

  /** aktive_aktive_control: the sink's state. */
  class Sink {
    const big: bool
    const writer: Writer
    var start: nat
    var pixsize: nat
    var rowsize: nat
    var x: int
    var y: int

    constructor (big: bool)
      ensures this.big == big && fresh(writer) && fresh(writer.bytes) && writer.Valid() && writer.Holds([])
    {
      this.big := big;
      writer := new Writer();
      start, pixsize, rowsize, x, y := 0, 0, 0, 0, 0;
    }

    /** What was written so far is right. */
    ghost predicate Valid(g: Geometry, meta: seq<Byte>, rows: seq<seq<Pattern>>)
      reads this, writer, writer.bytes
    {
      && writer.Valid() && writer.Agrees(File(big, g, meta, rows))
      && start == |Header(big, g, meta)| && pixsize == PixSize(g) && rowsize == RowSize(g) && x == g.x && y == g.y
    }

    /** aktive_be_header and aktive_le_header. */
    method WriteHeader(g: Geometry, meta: seq<Byte>, ghost rows: seq<seq<Pattern>>)
      requires writer.Valid() && writer.Holds([]) && |Header(big, g, meta)| < U32
      modifies this, writer, writer.bytes
      ensures Valid(g, meta, rows) && Covered(writer.written, 0, start)
      ensures writer.bytes == old(writer.bytes) || fresh(writer.bytes)
    {
      writer.Append(Magic(big), []);
      writer.Append(Version, Magic(big));
      WriteNumbers(g, |meta|, Magic(big) + Version);
      ghost var head := Magic(big) + Version + Numbers(big, g, |meta|);
      if |meta| > 0 { writer.Append(meta, head); }
      assert head + meta == if |meta| > 0 then head + meta else head;
      writer.Append(Magic2, head + meta);
      SetSizes(g, meta);
    }

    /** Where the values start, and the sizes of pixels and rows. */
    method SetSizes(g: Geometry, meta: seq<Byte>)
      requires |Header(big, g, meta)| < U32
      modifies `start, `pixsize, `rowsize, `x, `y
      ensures start == |Header(big, g, meta)| && pixsize == PixSize(g) && rowsize == RowSize(g) && x == g.x && y == g.y
    {
      HeaderSize(big, g, meta);
      start := (|meta| + |Magic(big)| + 2 + 24 + 8) % U32;
      pixsize := 8 * g.depth % U32;
      rowsize := g.width * pixsize % U32;
      x, y := g.x, g.y;
    }

    method WriteNumbers(g: Geometry, metac: nat, ghost head: seq<Byte>)
      requires writer.Valid() && writer.Holds(head)
      modifies writer, writer.bytes
      ensures writer.Valid() && writer.Holds(head + Numbers(big, g, metac))
      ensures writer.bytes == old(writer.bytes) || fresh(writer.bytes)
    {
      writer.Append(Word(big, Unsigned(g.x)), head);
      ghost var h1 := head + Word(big, Unsigned(g.x));
      writer.Append(Word(big, Unsigned(g.y)), h1);
      ghost var h2 := h1 + Word(big, Unsigned(g.y));
      writer.Append(Word(big, g.width), h2);
      ghost var h3 := h2 + Word(big, g.width);
      writer.Append(Word(big, g.height), h3);
      ghost var h4 := h3 + Word(big, g.height);
      writer.Append(Word(big, g.depth), h4);
      ghost var h5 := h4 + Word(big, g.depth);
      writer.Append(Word(big, metac), h5);
      SixParts(head, Word(big, Unsigned(g.x)), Word(big, Unsigned(g.y)), Word(big, g.width), Word(big, g.height), Word(big, g.depth), Word(big, metac));
    }

    /** A row of a block, at its place in the file. */
    method WriteRow(offset: nat, values: seq<Pattern>, ghost file: seq<Byte>)
      requires writer.Valid() && writer.Agrees(file)
      requires offset + 8 * |values| <= |file| && file[offset..offset + 8 * |values|] == Cells(big, values)
      modifies writer, writer.bytes
      ensures writer.Valid() && writer.Agrees(file) && (writer.bytes == old(writer.bytes) || fresh(writer.bytes))
      ensures forall k :: k in writer.written <==> k in old(writer.written) || offset <= k < offset + 8 * |values|
    {
      writer.Goto(offset);
      var c := 0;
      while c < |values|
        invariant 0 <= c <= |values| && writer.Valid() && writer.Agrees(file) && writer.pos == offset + 8 * c
        invariant writer.bytes == old(writer.bytes) || fresh(writer.bytes)
        invariant forall k :: k in writer.written <==> k in old(writer.written) || offset <= k < offset + 8 * c
      {
        ValueAt(big, values, c, file, offset);
        writer.Fill(Encode(big, values[c], 8), file);
        c := c + 1;
      }
    }

    /** Part of row k, from value number `lo` on. */
    method WritePart(offset: nat, values: seq<Pattern>, ghost head: seq<Byte>, ghost rows: seq<seq<Pattern>>, ghost n: nat, ghost k: nat, ghost lo: nat)
      requires writer.Valid() && writer.Agrees(head + Cells(big, Joined(rows)))
      requires (forall i :: 0 <= i < |rows| ==> |rows[i]| == n) && k < |rows| && lo + |values| <= n
      requires values == rows[k][lo..lo + |values|] && offset == Place(|head|, n, k, lo)
      modifies writer, writer.bytes
      ensures writer.Valid() && writer.Agrees(head + Cells(big, Joined(rows)))
      ensures (writer.bytes == old(writer.bytes) || fresh(writer.bytes)) && forall q :: q in old(writer.written) ==> q in writer.written
      ensures Covered(writer.written, offset, offset + 8 * |values|)
    {
      RowInFile(big, head, rows, n, k, lo, |values|);
      WriteRow(offset, values, head + Cells(big, Joined(rows)));
    }

    /** The rows of a block, the first of them row number `first` of the image, each at
        its place. */
    method WriteRows(pixel: seq<Pattern>, m: nat, count: nat, at: nat, step: nat,
                     ghost head: seq<Byte>, ghost rows: seq<seq<Pattern>>, ghost n: nat, ghost first: nat, ghost lo: nat)
      requires writer.Valid() && writer.Agrees(head + Cells(big, Joined(rows)))
      requires (forall k :: 0 <= k < |rows| ==> |rows[k]| == n) && first + count <= |rows| && lo + m <= n
      requires pixel == Excerpt(rows, first, count, lo, m) && (count > 0 ==> at == Place(|head|, n, first, lo)) && (count > 1 ==> step == 8 * n)
      modifies writer, writer.bytes
      ensures writer.Valid() && writer.Agrees(head + Cells(big, Joined(rows)))
      ensures (writer.bytes == old(writer.bytes) || fresh(writer.bytes)) && forall q :: q in old(writer.written) ==> q in writer.written
      ensures RowsWritten(writer.written, |head|, n, first, count, lo, m)
    {
      var r, j, offset := 0, 0, at;
      while r < count
        invariant 0 <= r <= count && 0 <= j <= |pixel| && writer.Valid() && writer.Agrees(head + Cells(big, Joined(rows)))
        invariant pixel[j..] == Excerpt(rows, first + r, count - r, lo, m) && (r < count ==> offset == Place(|head|, n, first + r, lo))
        invariant writer.bytes == old(writer.bytes) || fresh(writer.bytes)
        invariant forall q :: q in old(writer.written) ==> q in writer.written
        invariant RowsWritten(writer.written, |head|, n, first, r, lo, m)
      {
        ExcerptRow(pixel, j, rows, first + r, count - r, lo, m);
        ghost var before := writer.written;
        WritePart(offset, pixel[j..j + m], head, rows, n, first + r, lo);
        MoreWritten(before, writer.written, |head|, n, first, r, lo, m);
        PlaceBelow(|head|, n, first + r, lo);
        r, j, offset := r + 1, j + m, offset + step;
      }
    }

    /** aktive_be_pixels and aktive_le_pixels. */
    method WriteBlock(b: Block, depth: nat, ghost g: Geometry, ghost meta: seq<Byte>, ghost rows: seq<seq<Pattern>>)
      requires Valid(g, meta, rows) && BlockOf(g, rows, b) && depth == g.depth && Fits(g)
      modifies writer, writer.bytes
      ensures Valid(g, meta, rows) && (writer.bytes == old(writer.bytes) || fresh(writer.bytes))
      ensures forall q :: q in old(writer.written) ==> q in writer.written
      ensures RowsWritten(writer.written, start, g.width * g.depth, b.y - g.y, b.height, Low(g, b), Width(g, b))
    {
      OffsetOf(g, rows, b, start);
      WriteRows(b.pixel, b.width * depth, b.height, start + rowsize * (b.y - y) + pixsize * (b.x - x), rowsize,
                Header(big, g, meta), rows, g.width * g.depth, b.y - g.y, Low(g, b));
    }
  }

  /** Where in the file value number lo of row k is. */
  function Place(start: nat, n: nat, k: nat, lo: nat): nat {
    start + 8 * (RowStart(n, k) + lo)
  }

  lemma PlaceBelow(start: nat, n: nat, k: nat, lo: nat)
    ensures Place(start, n, k + 1, lo) == Place(start, n, k, lo) + 8 * n
  {
  }

  /** Of `count` rows from number `first` on, the m values from `lo` on are written. */
  ghost predicate RowsWritten(written: map<nat, Byte>, start: nat, n: nat, first: nat, count: nat, lo: nat, m: nat) {
    forall k: nat :: first <= k < first + count ==> Covered(written, Place(start, n, k, lo), Place(start, n, k, lo) + 8 * m)
  }

  lemma MoreWritten(before: map<nat, Byte>, after: map<nat, Byte>, start: nat, n: nat, first: nat, r: nat, lo: nat, m: nat)
    requires RowsWritten(before, start, n, first, r, lo, m) && forall q :: q in before ==> q in after
    requires Covered(after, Place(start, n, first + r, lo), Place(start, n, first + r, lo) + 8 * m)
    ensures RowsWritten(after, start, n, first, r + 1, lo, m)
  {
  }

  lemma ExcerptRow(pixel: seq<Pattern>, j: nat, rows: seq<seq<Pattern>>, k: nat, count: nat, lo: nat, m: nat)
    requires j <= |pixel| && count > 0 && k + count <= |rows| && (forall i :: 0 <= i < |rows| ==> lo + m <= |rows[i]|)
    requires pixel[j..] == Excerpt(rows, k, count, lo, m)
    ensures j + m <= |pixel| && pixel[j..j + m] == rows[k][lo..lo + m]
    ensures pixel[j + m..] == Excerpt(rows, k + 1, count - 1, lo, m)
  {
    var row, rest := rows[k][lo..lo + m], Excerpt(rows, k + 1, count - 1, lo, m);
    assert pixel[j..] == row + rest;
    assert pixel[j..][..m] == row && pixel[j..][m..] == rest;
  }

  lemma SixParts<T>(h: seq<T>, a: seq<T>, b: seq<T>, c: seq<T>, d: seq<T>, e: seq<T>, f: seq<T>)
    ensures h + a + b + c + d + e + f == h + (a + b + c + d + e + f)
  {
  }

  lemma ValueAt(big: bool, values: seq<Pattern>, c: nat, file: seq<Byte>, offset: nat)
    requires c < |values| && offset + 8 * |values| <= |file| && file[offset..offset + 8 * |values|] == Cells(big, values)
    ensures file[offset + 8 * c..offset + 8 * c + 8] == Encode(big, values[c], 8)
  {
    CellsSlice(big, values, c, c + 1);
    assert Cells(big, [values[c]]) == Encode(big, values[c], 8) + Cells(big, []);
    assert values[c..c + 1] == [values[c]];
    SubSlice(file, offset, offset + 8 * |values|, 8 * c, 8 * c + 8);
  }

  lemma SubSlice<T>(s: seq<T>, a: nat, b: nat, i: nat, j: nat)
    requires a <= b <= |s| && i <= j <= b - a
    ensures s[a..b][i..j] == s[a + i..a + j]
  {
    forall k | 0 <= k < j - i ensures s[a..b][i..j][k] == s[a + i..a + j][k] {
    }
  }

  lemma HeaderSize(big: bool, g: Geometry, meta: seq<Byte>)
    ensures |Header(big, g, meta)| == |meta| + |Magic(big)| + 2 + 24 + 8
  {
  }

  // - - -- --- ----- -------- Offsets in 32 bit arithmetic

  function PixSize(g: Geometry): nat {
    8 * g.depth % U32
  }

  function RowSize(g: Geometry): nat {
    g.width * PixSize(g) % U32
  }

  function Offset(g: Geometry, start: nat, x: int, y: int): int {
    start + RowSize(g) * (y - g.y) + PixSize(g) * (x - g.x)
  }

  /** How far into its row the first value of a column is. */
  function Column(g: Geometry, x: int): nat
    requires x >= g.x
  {
    NaturalProduct(x - g.x, g.depth);
    (x - g.x) * g.depth
  }

  lemma NaturalProduct(a: nat, b: nat)
    ensures a * b >= 0
  {
  }

  /** The offset computed for a place in the image is that of its first value. */
  ghost predicate RightOffset(g: Geometry, start: nat, x: int, y: int)
    requires x >= g.x && y >= g.y
  {
    Offset(g, start, x, y) == Place(start, g.width * g.depth, y - g.y, Column(g, x))
  }

  /** A pixel, and where there is more than one row a row, is below 2^32 bytes. */
  predicate Fits(g: Geometry) {
    && (g.height <= 1 || 8 * (g.width * g.depth) < U32)
    && (g.height == 0 || g.width <= 1 || 8 * g.depth < U32)
  }

  lemma RowSizeIs(g: Geometry)
    ensures RowSize(g) == 8 * (g.width * g.depth) % U32
  {
    var q, p := 8 * g.depth / U32, PixSize(g);
    var a, r := g.width * p / U32, RowSize(g);
    assert 8 * (g.width * g.depth) == g.width * (8 * g.depth) == g.width * (q * U32 + p);
    assert g.width * (q * U32 + p) == (g.width * q) * U32 + g.width * p == (g.width * q + a) * U32 + r;
    ModOf(8 * (g.width * g.depth), g.width * q + a, r);
  }

  /** Where the offset goes, apart from wrapping around. */
  lemma OffsetTerms(g: Geometry, start: nat, x: int, y: int)
    requires x >= g.x && y >= g.y
    ensures Place(start, g.width * g.depth, y - g.y, Column(g, x)) ==
            start + 8 * (g.width * g.depth) * (y - g.y) + 8 * g.depth * (x - g.x)
  {
    RowStartIs(g.width * g.depth, y - g.y);
    Regrouped(g.width * g.depth, y - g.y);
    Regrouped(g.depth, x - g.x);
  }

  lemma Regrouped(a: nat, b: nat)
    ensures 8 * a * b == 8 * (a * b)
  {
  }

  lemma RowTerm(g: Geometry, d: nat)
    requires Fits(g) && d < g.height
    ensures RowSize(g) * d == 8 * (g.width * g.depth) * d
  {
    RowSizeIs(g);
    if d > 0 { assert RowSize(g) == 8 * (g.width * g.depth); }
  }

  lemma PixTerm(g: Geometry, d: nat)
    requires Fits(g) && d < g.width && g.height > 0
    ensures PixSize(g) * d == 8 * g.depth * d
  {
    if d > 0 { assert PixSize(g) == 8 * g.depth; }
  }

  lemma FitsOffset(g: Geometry, start: nat, x: int, y: int)
    requires Fits(g) && g.x <= x < g.x + g.width && g.y <= y < g.y + g.height
    ensures RightOffset(g, start, x, y)
  {
    OffsetTerms(g, start, x, y);
    RowTerm(g, y - g.y);
    PixTerm(g, x - g.x);
  }

  /** Every pixel of the image gets the right offset if and only if the sizes fit. */
  lemma OffsetExact(g: Geometry, start: nat)
    ensures (forall x, y :: g.x <= x < g.x + g.width && g.y <= y < g.y + g.height ==> RightOffset(g, start, x, y))
            <==> Fits(g)
  {
    RowSizeIs(g);
    if Fits(g) {
      forall x, y | g.x <= x < g.x + g.width && g.y <= y < g.y + g.height
        ensures RightOffset(g, start, x, y)
      {
        FitsOffset(g, start, x, y);
      }
    } else if g.height > 1 && 8 * (g.width * g.depth) >= U32 {
      OffsetTerms(g, start, g.x, g.y + 1);
      assert !RightOffset(g, start, g.x, g.y + 1);
      assert g.width > 0;
    } else {
      OffsetTerms(g, start, g.x + 1, g.y);
      assert !RightOffset(g, start, g.x + 1, g.y);
    }
  }

  /** Two rows of 2^29 values each: both are written to where the first one belongs. */
  lemma WideRowsCollide(g: Geometry, start: nat)
    requires g == Geometry(0, 0, 0x2000_0000, 2, 1)
    ensures RowSize(g) == 0 && Offset(g, start, g.x, g.y + 1) == Offset(g, start, g.x, g.y) == start
    ensures !RightOffset(g, start, g.x, g.y + 1)
  {
    WideRows(g, g.width * g.depth, start);
  }

  lemma WideRows(g: Geometry, n: nat, start: nat)
    requires n == g.width * g.depth == 0x2000_0000
    ensures RowSize(g) == 0 && Offset(g, start, g.x, g.y + 1) == start
    ensures !RightOffset(g, start, g.x, g.y + 1)
  {
    RowSizeIs(g);
    OffsetTerms(g, start, g.x, g.y + 1);
  }

  /** The offset computed for a block of the image, and how far apart its rows are. */
  lemma OffsetOf(g: Geometry, rows: seq<seq<Pattern>>, b: Block, start: nat)
    requires BlockOf(g, rows, b) && Fits(g)
    ensures Offset(g, start, b.x, b.y) == Place(start, g.width * g.depth, b.y - g.y, Low(g, b))
    ensures b.height > 1 ==> RowSize(g) == 8 * (g.width * g.depth)
  {
    RowSizeIs(g);
    FitsOffset(g, start, b.x, b.y);
  }

  /** Part of a row of the image is found in the file at its offset. */
  lemma RowInFile(big: bool, head: seq<Byte>, rows: seq<seq<Pattern>>, n: nat, k: nat, lo: nat, m: nat)
    requires (forall i :: 0 <= i < |rows| ==> |rows[i]| == n) && k < |rows| && lo + m <= n
    ensures var file := head + Cells(big, Joined(rows)); var at := Place(|head|, n, k, lo);
            at + 8 * m <= |file| && file[at..at + 8 * m] == Cells(big, rows[k][lo..lo + m])
  {
    var all, i := Joined(rows), RowStart(n, k) + lo;
    JoinedPart(rows, n, k, lo, m);
    var cells := Cells(big, all);
    CellsSlice(big, all, i, i + m);
    assert cells[8 * i..8 * i + 8 * m] == Cells(big, rows[k][lo..lo + m]);
    AfterHead(head, cells, 8 * i, 8 * i + 8 * m);
  }

  lemma JoinedPart(rows: seq<seq<Pattern>>, n: nat, k: nat, lo: nat, m: nat)
    requires k < |rows| && (forall i :: 0 <= i < |rows| ==> |rows[i]| == n) && lo + m <= n
    ensures RowStart(n, k) + lo + m <= |Joined(rows)|
    ensures Joined(rows)[RowStart(n, k) + lo..RowStart(n, k) + lo + m] == rows[k][lo..lo + m]
  {
    JoinedRow(rows, n, k);
    SubSlice(Joined(rows), RowStart(n, k), RowStart(n, k) + n, lo, lo + m);
  }

  lemma AfterHead<T>(head: seq<T>, s: seq<T>, a: nat, b: nat)
    requires a <= b <= |s|
    ensures (head + s)[|head| + a..|head| + b] == s[a..b]
  {
  }
}
