/** How a block came about: from which rows, fused in which order. A worker's
    result depends on nothing but its task, so this history stands for the block
    while it travels through a batch run; what the block holds is obtained by
    replaying the history. */
module FuseTrees {

  datatype Tree = Row(y: nat) | Fused(a: Tree, b: Tree)

  /** First and last row covered: ymin and ymax of the block. */
  function Top(t: Tree): nat {
    match t case Row(y) => y case Fused(a, b) => Top(a)
  }

  function Bottom(t: Tree): nat {
    match t case Row(y) => y case Fused(a, b) => Bottom(b)
  }

  /** Only vertically adjacent blocks were fused, upper one first. */
  predicate InOrder(t: Tree) {
    match t
    case Row(y) => true
    case Fused(a, b) => InOrder(a) && InOrder(b) && Bottom(a) + 1 == Top(b)
  }

  function Fuses(t: Tree): nat {
    match t case Row(y) => 0 case Fused(a, b) => Fuses(a) + Fuses(b) + 1
  }

  /** The rows of the tree, left to right. */
  function Rows(t: Tree): seq<nat> {
    match t case Row(y) => [y] case Fused(a, b) => Rows(a) + Rows(b)
  }

  /** An in-order tree lists its rows once each, top to bottom, and has taken one
      fuse less than it has rows, whatever its shape. */
  lemma {:induction false} InOrderRows(t: Tree)
    requires InOrder(t)
    ensures Top(t) <= Bottom(t)
    ensures Fuses(t) == Bottom(t) - Top(t)
    ensures |Rows(t)| == Bottom(t) - Top(t) + 1
    ensures forall k :: 0 <= k < |Rows(t)| ==> Rows(t)[k] == Top(t) + k
  {
    match t
    case Row(y) =>
    case Fused(a, b) =>
      InOrderRows(a);
      InOrderRows(b);
  }
}
