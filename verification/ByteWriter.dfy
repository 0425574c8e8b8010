/** The writer into a byte array: it can be sent anywhere, also beyond what has been
    written so far, and grows as needed. */
module ByteWriter {
  import opened NumberReader

  /** The bytes of `buf` at their places from `pos` on. */
  ghost function Placed(pos: nat, buf: seq<Byte>): (m: map<nat, Byte>)
    ensures forall k :: k in m <==> pos <= k < pos + |buf|
    ensures forall k :: k in m ==> m[k] == buf[k - pos]
  {
    if buf == [] then map[] else Placed(pos, buf[..|buf|-1])[pos + |buf| - 1 := buf[|buf|-1]]
  }

  class Writer {
    var bytes: array<Byte>
    var pos: nat
    var used: nat
    ghost var written: map<nat, Byte> // what was ever put where; other bytes are arbitrary

    ghost predicate Valid()
      reads this, bytes
    {
      && used <= bytes.Length
      && forall k :: k in written ==> k < used && bytes[k] == written[k]
    }

    constructor ()
      ensures Valid() && Holds([]) && fresh(bytes)
    {
      bytes := new Byte[0];
      pos, used, written := 0, 0, map[];
    }

    /** aktive_write_goto. */
    method Goto(pos: nat)
      requires Valid()
      modifies `pos
      ensures Valid() && this.pos == pos
    {
      this.pos := pos;
    }

    /** aktive_write_here: the buffer at least doubles when it is too small. */
    method Here(buf: seq<Byte>)
      requires Valid()
      modifies this, bytes
      ensures Valid() && (bytes == old(bytes) || fresh(bytes))
      ensures pos == old(pos) + |buf| && used == (if pos > old(used) then pos else old(used))
      ensures written == old(written) + Placed(old(pos), buf)
    {
      if pos + |buf| > bytes.Length { Grow(2 * (pos + |buf|)); }
      ghost var at := pos;
      var i := 0;
      while i < |buf|
        invariant 0 <= i <= |buf| && pos == at && used == old(used) && written == old(written)
        invariant at + |buf| <= bytes.Length && used <= bytes.Length && (bytes == old(bytes) || fresh(bytes))
        invariant forall k :: k in written && !(at <= k < at + |buf|) ==> k < used && bytes[k] == written[k]
        invariant forall k :: k in written ==> k < used
        invariant forall k :: at <= k < at + i ==> bytes[k] == buf[k - at]
      {
        bytes[pos + i] := buf[i];
        i := i + 1;
      }
      pos := pos + |buf|;
      if pos > used { used := pos; }
      written := written + Placed(at, buf);
    }

    method Grow(n: nat)
      requires Valid() && n >= bytes.Length
      modifies `bytes
      ensures Valid() && fresh(bytes) && bytes.Length == n
    {
      var larger := new Byte[n];
      var i := 0;
      while i < bytes.Length
        invariant 0 <= i <= bytes.Length && Valid() && bytes == old(bytes)
        invariant forall k :: 0 <= k < i ==> larger[k] == bytes[k]
      {
        larger[i] := bytes[i];
        i := i + 1;
      }
      bytes := larger;
    }

    /** Exactly `s` was written, without a gap. */
    ghost predicate Holds(s: seq<Byte>)
      reads this
    {
      pos == used == |s| && forall k: nat :: (k in written <==> k < |s|) && (k < |s| ==> written[k] == s[k])
    }

    /** Writing on where writing ended. */
    method Append(buf: seq<Byte>, ghost s: seq<Byte>)
      requires Valid() && Holds(s)
      modifies this, bytes
      ensures Valid() && Holds(s + buf) && (bytes == old(bytes) || fresh(bytes))
    {
      Here(buf);
    }

    /** Writing a part of `file` at its place. */
    method Fill(buf: seq<Byte>, ghost file: seq<Byte>)
      requires Valid() && Agrees(file) && pos + |buf| <= |file| && file[pos..pos + |buf|] == buf
      modifies this, bytes
      ensures Valid() && Agrees(file) && (bytes == old(bytes) || fresh(bytes)) && pos == old(pos) + |buf|
      ensures forall k :: k in written <==> k in old(written) || old(pos) <= k < pos
    {
      ghost var at := pos;
      assert forall k :: at <= k < at + |buf| ==> file[k] == buf[k - at] by {
        assert forall k :: at <= k < at + |buf| ==> file[k] == file[at..at + |buf|][k - at];
      }
      Here(buf);
    }

    /** What was written so far is part of `file`. */
    ghost predicate Agrees(file: seq<Byte>)
      reads this
    {
      used <= |file| && forall k :: k in written ==> k < |file| && written[k] == file[k]
    }

    /** aktive_write_done: when every byte of `file` was written, in whatever order, and
        nothing else was, the result is `file`. */
    method Done(ghost file: seq<Byte>) returns (result: seq<Byte>)
      requires Valid() && Agrees(file) && forall k :: 0 <= k < |file| ==> k in written
      ensures result == file
    {
      assert used >= |file| by { if |file| > 0 { assert |file| - 1 in written; } }
      result := bytes[..used];
    }
  }
}
