/** Whole AKTIVE files: written in any order, and read at any place. */
module AktiveFiles {
  import opened NumberReader
  import opened Encoding
  import opened ByteWriter
  import opened AktiveFormat
  import opened Totals

  // - - -- --- ----- -------- Writing a whole image

  /** The block has value number j of row k. */
  predicate Has(g: Geometry, b: Block, k: nat, j: nat) {
    b.y - g.y <= k < b.y - g.y + b.height && Low(g, b) <= j < Low(g, b) + Width(g, b)
  }

  ghost predicate SomeHas(g: Geometry, blocks: seq<Block>, k: nat, j: nat) {
    exists i :: 0 <= i < |blocks| && Has(g, blocks[i], k, j)
  }

  /** Blocks of the image that leave no value out. */
  ghost predicate Tiles(g: Geometry, rows: seq<seq<Pattern>>, blocks: seq<Block>) {
    && RowsOf(g, rows) && (forall i :: 0 <= i < |blocks| ==> BlockOf(g, rows, blocks[i]))
    && (forall k: nat, j: nat :: k < g.height && j < g.width * g.depth ==> SomeHas(g, blocks, k, j))
  }

  ghost predicate BlockDone(written: map<nat, Byte>, start: nat, g: Geometry, b: Block)
    requires b.y >= g.y && Low(g, b) >= 0
  {
    RowsWritten(written, start, g.width * g.depth, b.y - g.y, b.height, Low(g, b), Width(g, b))
  }

  lemma StillDone(before: map<nat, Byte>, after: map<nat, Byte>, start: nat, g: Geometry, b: Block)
    requires b.y >= g.y && Low(g, b) >= 0 && BlockDone(before, start, g, b) && forall q :: q in before ==> q in after
    ensures BlockDone(after, start, g, b)
  {
    forall k: nat | b.y - g.y <= k < b.y - g.y + b.height
      ensures Covered(after, Place(start, g.width * g.depth, k, Low(g, b)), Place(start, g.width * g.depth, k, Low(g, b)) + 8 * Width(g, b))
    {
      assert Covered(before, Place(start, g.width * g.depth, k, Low(g, b)), Place(start, g.width * g.depth, k, Low(g, b)) + 8 * Width(g, b));
    }
  }

  ghost predicate AllDone(written: map<nat, Byte>, start: nat, g: Geometry, blocks: seq<Block>, count: nat)
    requires forall i :: 0 <= i < |blocks| ==> blocks[i].y >= g.y && Low(g, blocks[i]) >= 0
  {
    count <= |blocks| && forall k :: 0 <= k < count ==> BlockDone(written, start, g, blocks[k])
  }

  lemma OneMoreDone(before: map<nat, Byte>, after: map<nat, Byte>, start: nat, g: Geometry, blocks: seq<Block>, i: nat)
    requires forall i :: 0 <= i < |blocks| ==> blocks[i].y >= g.y && Low(g, blocks[i]) >= 0
    requires i < |blocks| && AllDone(before, start, g, blocks, i) && BlockDone(after, start, g, blocks[i]) && forall q :: q in before ==> q in after
    ensures AllDone(after, start, g, blocks, i + 1)
  {
    forall k | 0 <= k < i ensures BlockDone(after, start, g, blocks[k]) {
      StillDone(before, after, start, g, blocks[k]);
    }
  }

  /** The sink's life: header, blocks in whatever order they come, end. The result
      depends on nothing but geometry, meta data and values. */
  method WriteImage(big: bool, g: Geometry, meta: seq<Byte>, blocks: seq<Block>, ghost rows: seq<seq<Pattern>>) returns (file: seq<Byte>)
    requires Tiles(g, rows, blocks) && Fits(g) && |Header(big, g, meta)| < U32
    ensures file == File(big, g, meta, rows)
  {
    var sink := new Sink(big);
    sink.WriteHeader(g, meta, rows);
    WriteBlocks(sink, g, meta, blocks, rows);
    AllWritten(sink.writer.written, sink.start, big, g, meta, blocks, rows);
    file := sink.writer.Done(File(big, g, meta, rows));
  }

  method WriteBlocks(sink: Sink, g: Geometry, ghost meta: seq<Byte>, blocks: seq<Block>, ghost rows: seq<seq<Pattern>>)
    requires sink.Valid(g, meta, rows) && Covered(sink.writer.written, 0, sink.start) && Tiles(g, rows, blocks) && Fits(g)
    modifies sink.writer, sink.writer.bytes
    ensures sink.Valid(g, meta, rows) && Covered(sink.writer.written, 0, sink.start)
    ensures AllDone(sink.writer.written, sink.start, g, blocks, |blocks|)
  {
    var i := 0;
    while i < |blocks|
      invariant 0 <= i <= |blocks| && sink.Valid(g, meta, rows) && Covered(sink.writer.written, 0, sink.start)
      invariant sink.writer.bytes == old(sink.writer.bytes) || fresh(sink.writer.bytes)
      invariant AllDone(sink.writer.written, sink.start, g, blocks, i)
    {
      ghost var before := sink.writer.written;
      sink.WriteBlock(blocks[i], g.depth, g, meta, rows);
      OneMoreDone(before, sink.writer.written, sink.start, g, blocks, i);
      i := i + 1;
    }
  }

  /** With the header and all blocks written, every byte of the file is. */
  lemma AllWritten(written: map<nat, Byte>, start: nat, big: bool, g: Geometry, meta: seq<Byte>, blocks: seq<Block>, rows: seq<seq<Pattern>>)
    requires Tiles(g, rows, blocks) && Covered(written, 0, start) && start == |Header(big, g, meta)|
    requires AllDone(written, start, g, blocks, |blocks|)
    ensures forall p :: 0 <= p < |File(big, g, meta, rows)| ==> p in written
  {
    JoinedSize(rows, g.width * g.depth);
    forall p | 0 <= p < |File(big, g, meta, rows)| ensures p in written {
      if p >= start { ValueWritten(written, start, g, blocks, rows, p); }
    }
  }

  lemma ValueWritten(written: map<nat, Byte>, start: nat, g: Geometry, blocks: seq<Block>, rows: seq<seq<Pattern>>, p: nat)
    requires Tiles(g, rows, blocks) && start <= p < start + 8 * RowStart(g.width * g.depth, g.height)
    requires AllDone(written, start, g, blocks, |blocks|)
    ensures p in written
  {
    var n, v := g.width * g.depth, (p - start) / 8;
    var k, j := RowOfIndex(n, g.height, v);
    assert SomeHas(g, blocks, k, j);
    var i :| 0 <= i < |blocks| && Has(g, blocks[i], k, j);
    var b := blocks[i];
    assert BlockDone(written, start, g, b);
    assert Covered(written, Place(start, n, k, Low(g, b)), Place(start, n, k, Low(g, b)) + 8 * Width(g, b));
  }

  // - - -- --- ----- -------- Reading

  /** What the header says, where the values start, and the sizes derived from it. */
  datatype Info = Info(domain: Geometry, meta: seq<Byte>, pix: nat, pitch: nat, esize: nat)

  /** aktive_get_match. */
  predicate Match(s: seq<Byte>, pos: nat, pattern: seq<Byte>) {
    pos + |pattern| <= |s| && s[pos..pos + |pattern|] == pattern
  }

  function Number(big: bool, s: seq<Byte>, pos: nat): nat
    requires pos + 4 <= |s|
  {
    Decode(big, s[pos..pos + 4])
  }

  function GeometryAt(big: bool, s: seq<Byte>, at: nat): Geometry
    requires at + 24 <= |s|
  {
    Geometry(Signed(Number(big, s, at)), Signed(Number(big, s, at + 4)),
             Number(big, s, at + 8), Number(big, s, at + 12), Number(big, s, at + 16))
  }

  /** aktive_geometry_get_size, in unsigned 32 bit arithmetic. */
  function ValueCount(g: Geometry): nat {
    (g.width * g.height * g.depth) % U32
  }

  /** aktive_aktive_be_header_get and aktive_aktive_le_header_get. */
  function HeaderOf(big: bool, s: seq<Byte>): Option<Info> {
    var at := |Magic(big)| + 2;
    if !Match(s, 0, Magic(big)) || !Match(s, |Magic(big)|, Version) || at + 24 > |s| then None
    else
      var g := GeometryAt(big, s, at);
      BodyOf(s, g, at + 24, Number(big, s, at + 20))
  }

  /** What follows the numbers: meta data, the second magic, and values up to the end. */
  function BodyOf(s: seq<Byte>, g: Geometry, pos: nat, metac: nat): Option<Info> {
    if pos + metac > |s| || !Match(s, pos + metac, Magic2) then None
    else
      var pix := pos + metac + 8;
      var esize := pix + 8 * ValueCount(g);
      if |s| != esize then None else Some(Info(g, s[pos..pos + metac], pix, g.width * g.depth % U32, esize))
  }

  /** The index of the first value at a place, in unsigned 32 bit arithmetic. */
  function ValueIndex(info: Info, x: int, y: int): nat {
    ((y - info.domain.y) * info.pitch + (x - info.domain.x) * info.domain.depth) % U32
  }

  /** slice_offset. */
  function SliceOffset(info: Info, x: int, y: int): nat {
    info.pix + 8 * ValueIndex(info, x, y)
  }

  /** How many of n values are read: the number of bytes is a 32 bit one. */
  function Taken(n: nat): (taken: nat)
    ensures taken <= n
  {
    8 * n % U32 / 8
  }

  /** aktive_aktive_be_slice_get and aktive_aktive_le_slice_get: the values read. */
  function Slice(big: bool, s: seq<Byte>, info: Info, x: int, y: int, n: nat): (r: Option<seq<nat>>)
    ensures r.Some? ==> |r.value| == Taken(n)
  {
    var pos := SliceOffset(info, x, y);
    if pos + 8 * Taken(n) <= |s| then Some(Values(big, s, pos, Taken(n))) else None
  }

  // - - -- --- ----- -------- What the header reader accepts

  /** Four bytes as a number, in either order. */
  function Word4(big: bool, s: seq<Byte>, pos: nat): nat
    requires pos + 4 <= |s|
  {
    var a: int, b: int, c: int, d: int := s[pos], s[pos + 1], s[pos + 2], s[pos + 3];
    if big then 0x100_0000 * a + 0x1_0000 * b + 0x100 * c + d else a + 0x100 * b + 0x1_0000 * c + 0x100_0000 * d
  }

  /** A word with its highest bit set stands for a negative number. */
  predicate Stands(w: nat, i: int) {
    i == if w < 0x8000_0000 then w else w - 0x1_0000_0000
  }

  /** The letters AKTIVE, for little endian with LE behind them, and two zeros. */
  predicate Opened(big: bool, s: seq<Byte>) {
    if big then |s| >= 8 && s[..8] == [65, 75, 84, 73, 86, 69, 48, 48]
    else |s| >= 10 && s[..10] == [65, 75, 84, 73, 86, 69, 76, 69, 48, 48]
  }

  /** Six words at the given place: x, y, width, height, depth, and how many bytes of
      meta data follow. Then the letters AKTIVE_D, and 8 bytes for each value. */
  predicate Filled(big: bool, s: seq<Byte>, at: nat, info: Info) {
    && at + 24 <= |s|
    && Stands(Word4(big, s, at), info.domain.x) && Stands(Word4(big, s, at + 4), info.domain.y)
    && info.domain.width == Word4(big, s, at + 8) && info.domain.height == Word4(big, s, at + 12)
    && info.domain.depth == Word4(big, s, at + 16)
    && var end := at + 24 + Word4(big, s, at + 20);
       && end + 8 <= |s| && info.meta == s[at + 24..end] && s[end..end + 8] == [65, 75, 84, 73, 86, 69, 95, 68]
       && info.pix == end + 8 && info.pitch == info.domain.width * info.domain.depth % 0x1_0000_0000
       && info.esize == |s| == end + 8 + 8 * (info.domain.width * info.domain.height * info.domain.depth % 0x1_0000_0000)
  }

  /** Of all byte strings exactly these are accepted, with these fields. */
  lemma HeaderExact(big: bool, s: seq<Byte>, info: Info)
    ensures HeaderOf(big, s) == Some(info) <==> Opened(big, s) && Filled(big, s, if big then 8 else 10, info)
  {
    OpenedExact(big, s);
    if Opened(big, s) { FilledExact(big, s, if big then 8 else 10, info); }
  }

  lemma FilledExact(big: bool, s: seq<Byte>, at: nat, info: Info)
    requires at <= |s|
    ensures at + 24 <= |s| && BodyOf(s, GeometryAt(big, s, at), at + 24, Number(big, s, at + 20)) == Some(info) <==> Filled(big, s, at, info)
  {
    if at + 24 <= |s| {
      GeometryExact(big, s, at, info.domain);
      BodyExact(big, s, at, GeometryAt(big, s, at), info);
    }
  }

  lemma OpenedExact(big: bool, s: seq<Byte>)
    ensures Opened(big, s) <==> Match(s, 0, Magic(big)) && Match(s, |Magic(big)|, Version)
  {
    var m := |Magic(big)|;
    if m + 2 <= |s| {
      assert s[..m + 2] == s[0..m] + s[m..m + 2];
      assert s[..m + 2][..m] == s[0..m] && s[..m + 2][m..] == s[m..m + 2];
      var letters := Magic(big) + Version;
      assert letters[..m] == Magic(big) && letters[m..] == Version;
    }
  }

  lemma WordExact(big: bool, s: seq<Byte>, pos: nat)
    requires pos + 4 <= |s|
    ensures Number(big, s, pos) == Word4(big, s, pos)
  {
    var w := s[pos..pos + 4];
    assert w == [s[pos], s[pos + 1], s[pos + 2], s[pos + 3]];
    FourBytes(big, s[pos], s[pos + 1], s[pos + 2], s[pos + 3]);
  }

  lemma FourBytes(big: bool, a: Byte, b: Byte, c: Byte, d: Byte)
    ensures Decode(big, [a, b, c, d]) ==
            if big then 0x100_0000 * a + 0x1_0000 * b + 0x100 * c + d else a + 0x100 * b + 0x1_0000 * c + 0x100_0000 * d
  {
    if big {
      assert [a, b, c, d][..3] == [a, b, c] && [a, b, c][..2] == [a, b] && [a, b][..1] == [a] && [a][..0] == [];
      assert Decode(big, [a]) == a && Decode(big, [a, b]) == 256 * a + b && Decode(big, [a, b, c]) == 256 * (256 * a + b) + c;
    } else {
      assert [a, b, c, d][1..] == [b, c, d] && [b, c, d][1..] == [c, d] && [c, d][1..] == [d] && [d][1..] == [];
      assert Decode(big, [d]) == d && Decode(big, [c, d]) == c + 256 * d && Decode(big, [b, c, d]) == b + 256 * (c + 256 * d);
    }
  }

  lemma GeometryExact(big: bool, s: seq<Byte>, at: nat, g: Geometry)
    requires at + 24 <= |s|
    ensures GeometryAt(big, s, at) == g <==>
            && Stands(Word4(big, s, at), g.x) && Stands(Word4(big, s, at + 4), g.y)
            && g.width == Word4(big, s, at + 8) && g.height == Word4(big, s, at + 12) && g.depth == Word4(big, s, at + 16)
    ensures Number(big, s, at + 20) == Word4(big, s, at + 20)
  {
    WordExact(big, s, at);
    WordExact(big, s, at + 4);
    WordExact(big, s, at + 8);
    WordExact(big, s, at + 12);
    WordExact(big, s, at + 16);
    WordExact(big, s, at + 20);
  }

  lemma BodyExact(big: bool, s: seq<Byte>, at: nat, g: Geometry, info: Info)
    requires at + 24 <= |s| && Number(big, s, at + 20) == Word4(big, s, at + 20)
    ensures BodyOf(s, g, at + 24, Number(big, s, at + 20)) == Some(info) <==>
            && info.domain == g
            && var end := at + 24 + Word4(big, s, at + 20);
               && end + 8 <= |s| && info.meta == s[at + 24..end] && s[end..end + 8] == [65, 75, 84, 73, 86, 69, 95, 68]
               && info.pix == end + 8 && info.pitch == g.width * g.depth % 0x1_0000_0000
               && info.esize == |s| == end + 8 + 8 * (g.width * g.height * g.depth % 0x1_0000_0000)
  {
  }

  // - - -- --- ----- -------- What was written reads back

  lemma WordBack(big: bool, s: seq<Byte>, pos: nat, v: nat)
    requires v < 0x1_0000_0000 && pos + 4 <= |s| && s[pos..pos + 4] == Word(big, v)
    ensures Number(big, s, pos) == v
  {
    Power4();
    DecodeEncode(big, v, 4);
  }

  lemma NumbersAt(big: bool, g: Geometry, metac: nat, i: nat)
    requires i < 6
    ensures Numbers(big, g, metac)[4 * i..4 * i + 4] ==
            Word(big, [Unsigned(g.x), Unsigned(g.y), g.width, g.height, g.depth, metac][i])
  {
    var a, b, c := Word(big, Unsigned(g.x)), Word(big, Unsigned(g.y)), Word(big, g.width);
    var d, e, f := Word(big, g.height), Word(big, g.depth), Word(big, metac);
    SixWords(a, b, c, d, e, f, i);
  }

  lemma SixWords<T>(a: seq<T>, b: seq<T>, c: seq<T>, d: seq<T>, e: seq<T>, f: seq<T>, i: nat)
    requires |a| == |b| == |c| == |d| == |e| == |f| == 4 && i < 6
    ensures (a + b + c + d + e + f)[4 * i..4 * i + 4] == [a, b, c, d, e, f][i]
  {
  }

  /** Where the parts of a file are. */
  lemma FileParts(big: bool, g: Geometry, meta: seq<Byte>, values: seq<Byte>, s: seq<Byte>)
    requires s == Header(big, g, meta) + values
    ensures var at := |Magic(big)| + 2;
            && |s| == at + 24 + |meta| + 8 + |values| && |Header(big, g, meta)| == at + 24 + |meta| + 8
            && Match(s, 0, Magic(big)) && Match(s, |Magic(big)|, Version)
            && s[at..at + 24] == Numbers(big, g, |meta|) && s[at + 24..at + 24 + |meta|] == meta
            && Match(s, at + 24 + |meta|, Magic2)
  {
    FiveParts(Magic(big), Version, Numbers(big, g, |meta|), meta, Magic2, values, s);
  }

  lemma FiveParts<T>(a: seq<T>, b: seq<T>, c: seq<T>, d: seq<T>, e: seq<T>, f: seq<T>, s: seq<T>)
    requires s == a + b + c + d + e + f
    ensures |s| == |a| + |b| + |c| + |d| + |e| + |f|
    ensures s[0..|a|] == a && s[|a|..|a| + |b|] == b && s[|a| + |b|..|a| + |b| + |c|] == c
    ensures s[|a| + |b| + |c|..|a| + |b| + |c| + |d|] == d
    ensures s[|a| + |b| + |c| + |d|..|a| + |b| + |c| + |d| + |e|] == e
  {
  }

  lemma NumberBack(big: bool, g: Geometry, metac: nat, s: seq<Byte>, at: nat, i: nat, v: nat)
    requires i < 6 && at + 24 <= |s| && s[at..at + 24] == Numbers(big, g, metac) && v < 0x1_0000_0000
    requires v == [Unsigned(g.x), Unsigned(g.y), g.width, g.height, g.depth, metac][i]
    ensures Number(big, s, at + 4 * i) == v
  {
    NumbersAt(big, g, metac, i);
    SubSlice(s, at, at + 24, 4 * i, 4 * i + 4);
    WordBack(big, s, at + 4 * i, v);
  }

  lemma HeaderNumbers(big: bool, g: Geometry, meta: seq<Byte>, s: seq<Byte>, at: nat)
    requires Storable(g, meta) && at + 24 <= |s| && s[at..at + 24] == Numbers(big, g, |meta|)
    ensures GeometryAt(big, s, at) == g && Number(big, s, at + 20) == |meta|
  {
    SignedUnsigned(g.x);
    SignedUnsigned(g.y);
    NumberBack(big, g, |meta|, s, at, 0, Unsigned(g.x));
    NumberBack(big, g, |meta|, s, at, 1, Unsigned(g.y));
    NumberBack(big, g, |meta|, s, at, 2, g.width);
    NumberBack(big, g, |meta|, s, at, 3, g.height);
    NumberBack(big, g, |meta|, s, at, 4, g.depth);
    NumberBack(big, g, |meta|, s, at, 5, |meta|);
  }

  lemma HeaderOfParts(big: bool, g: Geometry, meta: seq<Byte>, s: seq<Byte>, at: nat, pix: nat)
    requires at == |Magic(big)| + 2 && pix == at + 24 + |meta| + 8 && |s| == pix + 8 * ValueCount(g)
    requires Match(s, 0, Magic(big)) && Match(s, |Magic(big)|, Version) && s[at + 24..at + 24 + |meta|] == meta
    requires Match(s, at + 24 + |meta|, Magic2)
    requires GeometryAt(big, s, at) == g && Number(big, s, at + 20) == |meta|
    ensures HeaderOf(big, s) == Some(Info(g, meta, pix, g.width * g.depth % U32, |s|))
  {
  }

  /** The number of values is what the code computes if and only if that fits. */
  lemma CountOf(g: Geometry, rows: seq<seq<Pattern>>)
    requires RowsOf(g, rows)
    ensures |Joined(rows)| == RowStart(g.width * g.depth, g.height) == g.width * g.height * g.depth
    ensures g.width * g.height * g.depth < U32 ==> ValueCount(g) == |Joined(rows)|
    ensures g.width * g.height * g.depth >= U32 ==> ValueCount(g) < |Joined(rows)|
  {
    JoinedSize(rows, g.width * g.depth);
    RowStartIs(g.width * g.depth, g.height);
    assert (g.width * g.depth) * g.height == g.width * g.height * g.depth;
    SmallOffset(g.width * g.height * g.depth);
  }

  lemma SmallOffset(i: nat)
    ensures i < U32 ==> i % U32 == i
  {
  }

  /** The file is accepted, with its fields, if and only if the number of its values
      is below 2^32. */
  lemma HeaderBack(big: bool, g: Geometry, meta: seq<Byte>, rows: seq<seq<Pattern>>)
    requires Storable(g, meta) && RowsOf(g, rows)
    ensures HeaderOf(big, File(big, g, meta, rows)) ==
            if g.width * g.height * g.depth >= U32 then None
            else Some(Info(g, meta, |Header(big, g, meta)|, g.width * g.depth % U32, |File(big, g, meta, rows)|))
  {
    var s, at := File(big, g, meta, rows), |Magic(big)| + 2;
    FileParts(big, g, meta, Cells(big, Joined(rows)), s);
    HeaderNumbers(big, g, meta, s, at);
    CountOf(g, rows);
    if g.width * g.height * g.depth < U32 {
      HeaderOfParts(big, g, meta, s, at, |Header(big, g, meta)|);
    } else {
      TooMany(big, g, meta, s, at);
    }
  }

  lemma TooMany(big: bool, g: Geometry, meta: seq<Byte>, s: seq<Byte>, at: nat)
    requires at == |Magic(big)| + 2 && at + 24 + |meta| + 8 + 8 * ValueCount(g) < |s|
    requires GeometryAt(big, s, at) == g && Number(big, s, at + 20) == |meta|
    ensures HeaderOf(big, s) == None
  {
  }

  /** The offset of a place in the image is that of its value in the file. */
  lemma IndexOf(info: Info, x: int, y: int, k: nat, lo: nat)
    requires k == y - info.domain.y && lo == (x - info.domain.x) * info.domain.depth
    requires RowStart(info.pitch, k) + lo < U32
    ensures ValueIndex(info, x, y) == RowStart(info.pitch, k) + lo
  {
    RowStartIs(info.pitch, k);
    assert (y - info.domain.y) * info.pitch == info.pitch * k;
    SmallOffset(RowStart(info.pitch, k) + lo);
  }

  lemma SmallPlace(g: Geometry, rows: seq<seq<Pattern>>, k: nat, lo: nat)
    requires RowsOf(g, rows) && g.width * g.height * g.depth < U32 && k < g.height && lo < g.width * g.depth
    ensures RowStart(g.width * g.depth, k) + lo < U32 && g.width * g.depth < U32
  {
    CountOf(g, rows);
    JoinedRow(rows, g.width * g.depth, k);
  }

  /** All of n values are read if and only if their bytes are less than 2^32. */
  lemma TakenAll(n: nat)
    ensures Taken(n) == n <==> n < 0x2000_0000
  {
    ModOf(8 * n, n / 0x2000_0000, 8 * (n % 0x2000_0000));
  }

  /** When the header of the file is accepted, values at any place in the image read
      back: as many of the row as are asked for, if and only if that is less than 2^29. */
  lemma SliceBack(big: bool, g: Geometry, meta: seq<Byte>, rows: seq<seq<Pattern>>, info: Info, x: int, y: int, n: nat, lo: nat)
    requires Storable(g, meta) && RowsOf(g, rows) && HeaderOf(big, File(big, g, meta, rows)) == Some(info)
    requires 0 <= y - g.y < g.height && lo == (x - g.x) * g.depth && lo < g.width * g.depth && lo + n <= g.width * g.depth
    ensures Slice(big, File(big, g, meta, rows), info, x, y, n) == Some(rows[y - g.y][lo..lo + Taken(n)])
    ensures Slice(big, File(big, g, meta, rows), info, x, y, n) == Some(rows[y - g.y][lo..lo + n]) <==> n < 0x2000_0000
  {
    HeaderBack(big, g, meta, rows);
    TakenAll(n);
    SliceOf(big, Header(big, g, meta), g, rows, info, x, y, n, lo);
    assert |rows[y - g.y][lo..lo + Taken(n)]| == Taken(n) && |rows[y - g.y][lo..lo + n]| == n;
  }

  lemma SliceOf(big: bool, head: seq<Byte>, g: Geometry, rows: seq<seq<Pattern>>, info: Info, x: int, y: int, n: nat, lo: nat)
    requires RowsOf(g, rows) && g.width * g.height * g.depth < U32
    requires info.domain == g && info.pix == |head| && info.pitch == g.width * g.depth % U32
    requires 0 <= y - g.y < g.height && lo == (x - g.x) * g.depth && lo < g.width * g.depth && lo + Taken(n) <= g.width * g.depth
    ensures Slice(big, head + Cells(big, Joined(rows)), info, x, y, n) == Some(rows[y - g.y][lo..lo + Taken(n)])
  {
    var k, m := y - g.y, g.width * g.depth;
    RowInFile(big, head, rows, m, k, lo, Taken(n));
    SmallPlace(g, rows, k, lo);
    SmallOffset(m);
    IndexOf(info, x, y, k, lo);
    SliceAt(big, head + Cells(big, Joined(rows)), info, x, y, n, rows[k][lo..lo + Taken(n)]);
  }

  lemma SliceAt(big: bool, file: seq<Byte>, info: Info, x: int, y: int, n: nat, values: seq<Pattern>)
    requires SliceOffset(info, x, y) + 8 * |values| <= |file| && |values| == Taken(n)
    requires file[SliceOffset(info, x, y)..SliceOffset(info, x, y) + 8 * |values|] == Cells(big, values)
    ensures Slice(big, file, info, x, y, n) == Some(values)
  {
    ValuesBack(big, file, SliceOffset(info, x, y), values);
  }

  // - - -- --- ----- -------- Images that do not read back

  /** A square of 2^32 values: the file written for it is refused. */
  lemma LargeSquareRefused(big: bool, g: Geometry, rows: seq<seq<Pattern>>)
    requires g == Geometry(0, 0, 0x1_0000, 0x1_0000, 1) && RowsOf(g, rows)
    ensures Fits(g) && HeaderOf(big, File(big, g, [], rows)) == None
  {
    HeaderBack(big, g, [], rows);
  }

  /** A row of 2^29 values: when all are asked for, none is read. */
  lemma WideRowReadsEmpty(big: bool, g: Geometry, rows: seq<seq<Pattern>>, info: Info, n: nat)
    requires g == Geometry(0, 0, n, 1, 1) && n == 0x2000_0000 && RowsOf(g, rows)
    requires HeaderOf(big, File(big, g, [], rows)) == Some(info)
    ensures Fits(g) && Slice(big, File(big, g, [], rows), info, 0, 0, n) == Some([])
  {
    SliceBack(big, g, [], rows, info, 0, 0, n, 0);
    assert Taken(n) == 0 && rows[0][0..0] == [];
  }
}
