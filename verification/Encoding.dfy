/** Fixed width integers and stored floating point values as bytes, in either order. */
module Encoding {
  import opened NumberReader

  /** The 64 bits of a stored floating point value. */
  type Pattern = p: int | 0 <= p < 0x1_0000_0000_0000_0000

  /** aktive_uint is a 32 bit unsigned integer. */
  const U32 := 0x1_0000_0000

  function Power(n: nat): (p: nat)
    ensures p >= 1
  {
    if n == 0 then 1 else 256 * Power(n - 1)
  }

  /** The n bytes of a number, most or least significant first. */
  function Encode(big: bool, v: nat, n: nat): (s: seq<Byte>)
    ensures |s| == n
  {
    if n == 0 then []
    else if big then Encode(big, v / 256, n - 1) + [v % 256]
    else [v % 256] + Encode(big, v / 256, n - 1)
  }

  function Decode(big: bool, s: seq<Byte>): nat {
    if s == [] then 0
    else if big then 256 * Decode(big, s[..|s|-1]) + s[|s|-1]
    else s[0] + 256 * Decode(big, s[1..])
  }

  lemma {:induction false} DecodeEncode(big: bool, v: nat, n: nat)
    requires v < Power(n)
    ensures Decode(big, Encode(big, v, n)) == v
  {
    if n > 0 {
      DecodeEncode(big, v / 256, n - 1);
      var s := Encode(big, v, n);
      if big {
        assert s[..n-1] == Encode(big, v / 256, n - 1);
      } else {
        assert s[1..] == Encode(big, v / 256, n - 1);
      }
    }
  }

  /** A signed 32 bit number travels as the unsigned one with the same bits. */
  function Unsigned(i: int): nat {
    i % 0x1_0000_0000
  }

  function Signed(u: nat): int {
    if u < 0x8000_0000 then u else u - 0x1_0000_0000
  }

  lemma SignedUnsigned(i: int)
    requires -0x8000_0000 <= i < 0x8000_0000
    ensures Signed(Unsigned(i)) == i && Unsigned(i) < 0x1_0000_0000
  {
  }

  lemma Power4()
    ensures Power(4) == 0x1_0000_0000
  {
    assert Power(2) == 0x1_0000 && Power(3) == 0x100_0000;
  }

  lemma Power8()
    ensures Power(8) == 0x1_0000_0000_0000_0000
  {
    Power4();
    assert Power(5) == 0x100_0000_0000 && Power(6) == 0x1_0000_0000_0000 && Power(7) == 0x100_0000_0000_0000;
  }

  // - - -- --- ----- -------- Rows of values

  /** The bytes of a list of values. */
  function Cells(big: bool, values: seq<Pattern>): (s: seq<Byte>)
    ensures |s| == 8 * |values|
  {
    if values == [] then [] else Encode(big, values[0], 8) + Cells(big, values[1..])
  }

  lemma Assoc<T>(a: seq<T>, b: seq<T>, c: seq<T>)
    ensures a + b + c == a + (b + c)
  {
  }

  lemma CellsOf(big: bool, values: seq<Pattern>, v: Pattern, rest: seq<Pattern>)
    requires values == [v] + rest
    ensures Cells(big, values) == Encode(big, v, 8) + Cells(big, rest)
  {
    assert values[1..] == rest;
  }

  lemma {:induction false} CellsConcat(big: bool, a: seq<Pattern>, b: seq<Pattern>)
    ensures Cells(big, a + b) == Cells(big, a) + Cells(big, b)
  {
    if a == [] {
      assert a + b == b;
    } else {
      CellsConcat(big, a[1..], b);
      CellsOf(big, a, a[0], a[1..]);
      CellsOf(big, a + b, a[0], a[1..] + b);
      Assoc(Encode(big, a[0], 8), Cells(big, a[1..]), Cells(big, b));
    }
  }

  /** The bytes of some of the values are found where these are. */
  lemma CellsSlice(big: bool, values: seq<Pattern>, lo: nat, hi: nat)
    requires lo <= hi <= |values|
    ensures Cells(big, values)[8 * lo..8 * hi] == Cells(big, values[lo..hi])
  {
    assert values == values[..lo] + (values[lo..hi] + values[hi..]);
    CellsConcat(big, values[..lo], values[lo..hi] + values[hi..]);
    CellsConcat(big, values[lo..hi], values[hi..]);
  }

  /** aktive_get_float64be_n and aktive_get_float64le_n. */
  function Values(big: bool, s: seq<Byte>, pos: nat, n: nat): (values: seq<nat>)
    requires pos + 8 * n <= |s|
    ensures |values| == n
    decreases n
  {
    if n == 0 then [] else [Decode(big, s[pos..pos + 8])] + Values(big, s, pos + 8, n - 1)
  }

  lemma {:induction false} ValuesBack(big: bool, s: seq<Byte>, pos: nat, values: seq<Pattern>)
    requires pos + 8 * |values| <= |s| && s[pos..pos + 8 * |values|] == Cells(big, values)
    ensures Values(big, s, pos, |values|) == values
    decreases |values|
  {
    if values != [] {
      var all := s[pos..pos + 8 * |values|];
      assert s[pos..pos + 8] == all[..8] && all[..8] == Encode(big, values[0], 8);
      assert s[pos + 8..pos + 8 + 8 * (|values| - 1)] == all[8..] && all[8..] == Cells(big, values[1..]);
      Power8();
      DecodeEncode(big, values[0], 8);
      ValuesBack(big, s, pos + 8, values[1..]);
    }
  }
}
