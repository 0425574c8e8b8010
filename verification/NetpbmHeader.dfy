/** What the Netpbm header reader accepts and what it refuses, of all byte strings. */
module NetpbmHeader {
  import opened NumberReader
  import opened NetpbmText
  import opened BrokenRows

  /** A number, with white space around it, starts here. */
  ghost predicate StartsNumber(s: seq<Byte>, pos: nat) {
    exists i: nat, j: nat, next: nat :: Number(s, pos, i, j, next)
  }

  lemma PlainAccepts(s: seq<Byte>, pos: nat)
    requires pos <= |s|
    ensures Scan(s, pos, Leader, 0).ok <==> StartsNumber(s, pos)
  {
    if Scan(s, pos, Leader, 0).ok {
      var i, j := ScanReads(s, pos);
    }
    if StartsNumber(s, pos) {
      var i: nat, j: nat, next: nat :| Number(s, pos, i, j, next);
      ScanAccepts(s, pos, i, j, next);
    }
  }

  lemma SharpAccepts(s: seq<Byte>, pos: nat)
    requires pos <= |s|
    ensures ScanSharp(s, pos, Leader, 0).ok <==> Scan(s, pos, Leader, 0).ok
  {
    var i := LeaderScan(s, pos);
    LeaderSkips(s, pos, i);
    if i < |s| && IsDigit(s[i]) {
      var j := DigitsScan(s, i, i + 1, Accumulate(0, s[i]));
      SharpStops(s, i, i + 1, Accumulate(0, s[i]), j);
    }
  }

  /** Accepted are the letter P, one of the digits 2, 3, 5 and 6, two numbers that may
      have comments in and around them, and a number that may not. The last two kinds
      are binary, 2 and 5 have one band, and a maximum above 255 makes it extended.
      P7 leads beyond the tables, and everything else is rejected. */
  lemma HeaderExact(s: seq<Byte>)
    ensures HeaderOf(s) == Undefined <==> |s| >= 2 && s[0] == 80 && s[1] == 55
    ensures HeaderOf(s).Accepted? <==>
              && |s| >= 2 && s[0] == 80 && (s[1] == 50 || s[1] == 51 || s[1] == 53 || s[1] == 54)
              && Begins(Erased(s, 2, false), 2) && StartsNumber(s, AfterTwo(s))
    ensures HeaderOf(s).Accepted? ==>
              var info := HeaderOf(s).info;
              && info.depth == (if s[1] == 50 || s[1] == 53 then 1 else 3)
              && info.binary == (s[1] == 53 || s[1] == 54) && info.extended == (info.maxval > 255)
  {
    if |s| >= 2 {
      var w := ScanCom(s, 2, Leader, 0, false);
      FirstNumber(s, 2, 2);
      FirstNumber(s, w.pos, 1);
      ScanWithin(s, 2, Leader, 0, false);
      ScanWithin(s, w.pos, Leader, 0, false);
      PlainAccepts(s, AfterTwo(s));
      SharpAccepts(s, AfterTwo(s));
    }
  }

  /** Where the reader is behind width and height. */
  function AfterTwo(s: seq<Byte>): nat {
    ScanCom(s, ScanCom(s, 2, Leader, 0, false).pos, Leader, 0, false).pos
  }

  /** A bitmap is rejected: P1 2 2 1. */
  lemma BitmapRejected(s: seq<Byte>)
    requires s == [80, 49, 32, 50, 32, 50, 32, 49]
    ensures HeaderOf(s) == Rejected
  {
    HeaderExact(s);
  }
}
