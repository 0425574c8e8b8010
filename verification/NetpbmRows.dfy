/** A Netpbm text file behind the cache of rows: what any thread gets for any row,
    in any order, and when that is what was written. */
module NetpbmRows {
  import opened NumberReader
  import opened NetpbmText
  import opened VectorCache
  import opened Totals

  /** rowfiller_get with its parameters. */
  function Filler(s: seq<Byte>, count: nat, scale: nat -> real): nat -> (seq<real>, nat) {
    start => RowFrom(s, start, count, scale)
  }

  /** The values row after row. */
  function Joined(rows: seq<seq<nat>>): seq<nat> {
    if rows == [] then [] else rows[0] + Joined(rows[1..])
  }

  /** Rows of n values each, small enough to be read. */
  ghost predicate Grid(rows: seq<seq<nat>>, n: nat) {
    forall y :: 0 <= y < |rows| ==> |rows[y]| == n && Storable(rows[y])
  }

  lemma {:induction false} JoinedStorable(rows: seq<seq<nat>>, n: nat)
    requires Grid(rows, n)
    ensures Storable(Joined(rows))
  {
    if rows != [] { JoinedStorable(rows[1..], n); }
  }

  /** Where part y starts when values are taken n by n. */
  function At(n: nat, y: nat): nat {
    if y == 0 then 0 else At(n, y - 1) + n
  }

  function Part(values: seq<nat>, n: nat, y: nat): seq<nat> {
    if At(n, y) + n <= |values| then values[At(n, y)..At(n, y) + n] else []
  }

  /** Reading n values leaves the text of those behind. */
  lemma PartRead(s: seq<Byte>, pos: nat, values: seq<nat>, at: nat, col: nat, n: nat, scale: nat -> real) returns (later: nat)
    requires pos <= |s| && Storable(values) && at + n <= |values| && s[pos..] == Text(values[at..], col)
    ensures RowFrom(s, pos, n, scale).0 == Scaled(values[at..at + n], scale)
    ensures RowFrom(s, pos, n, scale).1 <= |s| && s[RowFrom(s, pos, n, scale).1..] == Text(values[at + n..], later)
  {
    var next;
    next, later := TextReads(s, pos, values[at..], col, n, scale);
    assert values[at..][..n] == values[at..at + n] && values[at..][n..] == values[at + n..];
  }

  /** In a sequential parse by n values at a time, part y starts where the text of its
      values does. */
  lemma {:induction false} PartStarts(s: seq<Byte>, start: nat, values: seq<nat>, col: nat, n: nat, scale: nat -> real, y: nat)
    returns (later: nat)
    requires start <= |s| && Storable(values) && s[start..] == Text(values, col) && At(n, y) <= |values|
    ensures StartOf(Filler(s, n, scale), start, y) <= |s|
    ensures s[StartOf(Filler(s, n, scale), start, y)..] == Text(values[At(n, y)..], later)
  {
    if y == 0 {
      later := col;
      assert values[0..] == values;
    } else {
      var before := PartStarts(s, start, values, col, n, scale, y - 1);
      later := PartRead(s, StartOf(Filler(s, n, scale), start, y - 1), values, At(n, y - 1), before, n, scale);
    }
  }

  /** The vectors of the sequential parse are the values, n by n. */
  lemma PartWritten(s: seq<Byte>, start: nat, values: seq<nat>, col: nat, n: nat, scale: nat -> real, y: nat)
    requires start <= |s| && Storable(values) && s[start..] == Text(values, col) && At(n, y) + n <= |values|
    ensures RowOf(Filler(s, n, scale), start, y) == Scaled(Part(values, n, y), scale)
  {
    var before := PartStarts(s, start, values, col, n, scale, y);
    var later := PartRead(s, StartOf(Filler(s, n, scale), start, y), values, At(n, y), before, n, scale);
  }

  lemma PartBehind(first: seq<nat>, rest: seq<nat>, n: nat, y: nat)
    requires |first| == n && y > 0
    ensures Part(first + rest, n, y) == Part(rest, n, y - 1)
  {
    if At(n, y) + n <= n + |rest| {
      assert (first + rest)[At(n, y)..At(n, y) + n] == rest[At(n, y - 1)..At(n, y - 1) + n];
    }
  }

  lemma {:induction false} JoinedRow(rows: seq<seq<nat>>, n: nat, y: nat)
    requires Grid(rows, n)
    ensures |Joined(rows)| == At(n, |rows|)
    ensures y < |rows| ==> At(n, y) + n <= At(n, |rows|) && Part(Joined(rows), n, y) == rows[y]
  {
    if rows != [] {
      if y == 0 {
        JoinedRow(rows[1..], n, 0);
      } else {
        JoinedRow(rows[1..], n, y - 1);
        PartBehind(rows[0], Joined(rows[1..]), n, y);
      }
    }
  }

  lemma {:induction false} ScanAdvances(s: seq<Byte>, pos: nat, mode: Mode, v: nat, skip: bool)
    ensures ScanCom(s, pos, mode, v, skip).pos >= pos
    decreases |s| - pos
  {
    if pos < |s| {
      if skip {
        ScanAdvances(s, pos + 1, mode, v, s[pos] != Newline);
      } else if s[pos] == Sharp {
        ScanAdvances(s, pos + 1, mode, v, true);
      } else if IsSpace(s[pos]) {
        ScanAdvances(s, pos + 1, if mode == Leader then Leader else Trails, v, false);
      } else if mode != Trails && IsDigit(s[pos]) {
        ScanAdvances(s, pos + 1, Digits, Accumulate(v, s[pos]), false);
      }
    }
  }

  lemma {:induction false} ReadingAdvances(s: seq<Byte>, pos: nat, count: nat, scale: nat -> real)
    ensures RowFrom(s, pos, count, scale).1 >= pos
    decreases count
  {
    if count > 0 {
      ScanAdvances(s, pos, Leader, 0, false);
      ReadingAdvances(s, ScanCom(s, pos, Leader, 0, false).pos, count - 1, scale);
    }
  }

  /** Row y of the sequential parse is row y of what was written, scaled. */
  lemma RowWritten(s: seq<Byte>, start: nat, rows: seq<seq<nat>>, col: nat, n: nat, scale: nat -> real, y: nat)
    requires start <= |s| && Grid(rows, n) && s[start..] == Text(Joined(rows), col) && y < |rows|
    ensures RowOf(Filler(s, n, scale), start, y) == Scaled(rows[y], scale)
  {
    JoinedStorable(rows, n);
    JoinedRow(rows, n, y);
    PartWritten(s, start, Joined(rows), col, n, scale, y);
  }

  lemma {:induction false} OffsetsGrow(s: seq<Byte>, start: nat, n: nat, scale: nat -> real, i: nat)
    ensures StartOf(Filler(s, n, scale), start, i) >= start
  {
    if i > 0 {
      OffsetsGrow(s, start, n, scale, i - 1);
      ReadingAdvances(s, StartOf(Filler(s, n, scale), start, i - 1), n, scale);
    }
  }

  /** The file of an image of one or three bands. */
  function File(variant: Byte, width: nat, maxval: nat, rows: seq<seq<nat>>): seq<Byte> {
    var head := Header(variant, width, |rows|, maxval);
    head + Text(Joined(rows), |head|)
  }

  /** The header of the file comes back, with the offset of the values. */
  lemma FileHeader(variant: Byte, width: nat, maxval: nat, rows: seq<seq<nat>>)
    requires variant == 50 || variant == 51
    requires width < 0x8000_0000 && |rows| < 0x8000_0000 && 0 < maxval < 0x1_0000
    ensures var base := |Header(variant, width, |rows|, maxval)|;
            HeaderOf(File(variant, width, maxval, rows)) ==
            Accepted(Info(width, |rows|, maxval, Bands(variant), false, maxval > 255, base))
    ensures var base := |Header(variant, width, |rows|, maxval)|;
            0 < base <= |File(variant, width, maxval, rows)| && File(variant, width, maxval, rows)[base..] == Text(Joined(rows), base)
  {
    var base := |Header(variant, width, |rows|, maxval)|;
    TextPlain(Joined(rows), base);
    HeaderReads(variant, width, |rows|, maxval, Text(Joined(rows), base), File(variant, width, maxval, rows));
  }

  // - - -- --- ----- -------- The getters

  function Bands(variant: Byte): nat {
    if variant == 50 then 1 else 3
  }

  /** How many values the getter that the header reader chose takes for a row. The one
      for extended PPM text is that for PGM text. */
  function Count(info: Info): nat {
    if info.depth == 1 || info.extended then info.width else 3 * info.width
  }

  function Scale(info: Info): nat -> real {
    v => if info.maxval == 0 then 0.0 else v as real / info.maxval as real
  }

  /** Some threads took some steps on the file, by way of its getter and the cache. */
  ghost predicate Reads(file: seq<Byte>, info: Info, threads: nat, steps: seq<Step>, end: State<seq<real>>) {
    && HeaderOf(file) == Accepted(info)
    && Run(Init(info.height, info.base, threads), steps, Filler(file, Count(info), Scale(info))) == Some(end)
  }

  /** The image can be written as text of this variant. */
  ghost predicate Writable(variant: Byte, width: nat, maxval: nat, rows: seq<seq<nat>>) {
    && (variant == 50 || variant == 51) && width < 0x8000_0000 && |rows| < 0x8000_0000 && 0 < maxval < 0x1_0000
    && Grid(rows, Bands(variant) * width)
  }

  /** The round trip of a text file read by any number of threads through the cache:
      what a thread is given when it asks for row y, after whatever steps of all of
      them, are the values of the row that was written, each divided by the maximum, if
      and only if the file is not PPM with a maximum above 255 (or has no columns). */
  lemma FileReads(variant: Byte, width: nat, maxval: nat, rows: seq<seq<nat>>, info: Info,
                  threads: nat, steps: seq<Step>, end: State<seq<real>>, t: nat, k: nat, y: nat) returns (row: seq<real>)
    requires Writable(variant, width, maxval, rows) && Reads(File(variant, width, maxval, rows), info, threads, steps, end)
    requires LastAsked(steps, t, k, y) && t < |end.threads| && end.threads[t].calls == []
    ensures y < |rows| && end.threads[t].got == Some((y, Some(row)))
    ensures (|row| == |rows[y]| && forall i :: 0 <= i < |row| ==> row[i] == rows[y][i] as real / maxval as real)
            <==> variant == 50 || maxval <= 255 || width == 0
  {
    FileHeader(variant, width, maxval, rows);
    row := PartsRead(variant, width, maxval, rows, info, threads, steps, end, t, k, y);
    JoinedRow(rows, Bands(variant) * width, y);
    if Count(info) == Bands(variant) * width {
      assert Part(Joined(rows), Count(info), y) == rows[y];
    }
  }

  /** Whatever the file, what a thread is given as row y are the values number y times
      the length of a row, and so on, that length being the getter's. */
  lemma PartsRead(variant: Byte, width: nat, maxval: nat, rows: seq<seq<nat>>, info: Info,
                  threads: nat, steps: seq<Step>, end: State<seq<real>>, t: nat, k: nat, y: nat) returns (row: seq<real>)
    requires Writable(variant, width, maxval, rows) && Reads(File(variant, width, maxval, rows), info, threads, steps, end)
    requires LastAsked(steps, t, k, y) && t < |end.threads| && end.threads[t].calls == []
    ensures y < |rows| && end.threads[t].got == Some((y, Some(row)))
    ensures At(Count(info), y) + Count(info) <= |Joined(rows)| && |row| == Count(info)
    ensures forall i :: 0 <= i < |row| ==> row[i] == Joined(rows)[At(Count(info), y) + i] as real / maxval as real
  {
    PartsGot(variant, width, maxval, rows, info, threads, steps, end, t, k, y);
    row := Scaled(Part(Joined(rows), Count(info), y), Scale(info));
    PartBack(Joined(rows), Count(info), y, info, maxval);
  }

  lemma PartsGot(variant: Byte, width: nat, maxval: nat, rows: seq<seq<nat>>, info: Info,
                 threads: nat, steps: seq<Step>, end: State<seq<real>>, t: nat, k: nat, y: nat)
    requires Writable(variant, width, maxval, rows) && Reads(File(variant, width, maxval, rows), info, threads, steps, end)
    requires LastAsked(steps, t, k, y) && t < |end.threads| && end.threads[t].calls == []
    ensures y < |rows| && At(Count(info), y) + Count(info) <= |Joined(rows)| && info.maxval == maxval
    ensures end.threads[t].got == Some((y, Some(Scaled(Part(Joined(rows), Count(info), y), Scale(info)))))
  {
    FileHeader(variant, width, maxval, rows);
    CachedParts(File(variant, width, maxval, rows), info.base, rows, info.base, Bands(variant) * width, Count(info), Scale(info),
                threads, steps, end, t, k, y);
  }

  lemma PartBack(values: seq<nat>, n: nat, y: nat, info: Info, maxval: nat)
    requires At(n, y) + n <= |values| && info.maxval == maxval > 0
    ensures var row := Scaled(Part(values, n, y), Scale(info));
            |row| == n && forall i :: 0 <= i < |row| ==> row[i] == values[At(n, y) + i] as real / maxval as real
  {
    var part := Part(values, n, y);
    forall i | 0 <= i < n ensures Scaled(part, Scale(info))[i] == values[At(n, y) + i] as real / maxval as real {
      assert part[i] == values[At(n, y) + i] && Scale(info)(part[i]) == part[i] as real / maxval as real;
    }
  }

  lemma CachedParts(s: seq<Byte>, start: nat, rows: seq<seq<nat>>, col: nat, n: nat, m: nat, scale: nat -> real,
                    threads: nat, steps: seq<Step>, end: State<seq<real>>, t: nat, k: nat, y: nat)
    requires 0 < start <= |s| && Grid(rows, n) && m <= n && s[start..] == Text(Joined(rows), col)
    requires Run(Init(|rows|, start, threads), steps, Filler(s, m, scale)) == Some(end)
    requires LastAsked(steps, t, k, y) && t < |end.threads| && end.threads[t].calls == []
    ensures y < |rows| && At(m, y) + m <= |Joined(rows)|
    ensures end.threads[t].got == Some((y, Some(Scaled(Part(Joined(rows), m, y), scale))))
  {
    forall i: nat ensures Known(Filler(s, m, scale), start, i) { OffsetsGrow(s, start, m, scale, i); }
    GetsRow(|rows|, start, threads, Filler(s, m, scale), steps, end, t, k, y);
    JoinedStorable(rows, n);
    JoinedRow(rows, n, y);
    PartsFit(m, n, y, |rows|);
    PartWritten(s, start, Joined(rows), col, m, scale, y);
  }

  lemma {:induction false} PartsFit(m: nat, n: nat, y: nat, count: nat)
    requires m <= n && y < count
    ensures At(m, y) + m <= At(n, count)
  {
    if y + 1 < count { PartsFit(m, n, y, count - 1); } else if y > 0 { PartsFit(m, n, y - 1, y); }
  }

  /** An image for which they do not: of the only pixel, of three bands, one is read. */
  lemma ExtendedReadsShort(file: seq<Byte>, info: Info)
    requires file == File(51, 1, 256, [[1, 2, 3]]) && HeaderOf(file) == Accepted(info)
    ensures RowOf(Filler(file, Count(info), Scale(info)), info.base, 0) == [1.0 / 256.0]
    ensures Scaled([1, 2, 3], Scale(info)) == [1.0 / 256.0, 2.0 / 256.0, 3.0 / 256.0]
  {
    var rows := [[1, 2, 3]];
    FileHeader(51, 1, 256, rows);
    assert Joined(rows) == [1, 2, 3] + Joined([]) && Joined([]) == [];
    PartWritten(file, info.base, Joined(rows), info.base, 1, Scale(info), 0);
    assert Part(Joined(rows), 1, 0) == [1];
  }
}
