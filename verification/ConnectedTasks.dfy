/** The callbacks of the component batch on their mutable state: what a maker,
    worker and completer call does to the controller and to the linked blocks. */
module ConnectedTasks {
  import opened Images
  import opened Components
  import opened ComponentLists
  import opened FuseTrees
  import opened Totals
  import opened UnorderedBatch
  import Connectivity
  import Fusion

  /** cc_worker on a row: scan it into a new block. */
  method WorkRow(img: Image, eight: bool, y: nat) returns (block: CcBlock)
    requires y < |img|
    ensures fresh(block.Footprint()) && block.Valid() && block.View() == ScanRow(y, img[y])
    ensures Connectivity.Correct(img, eight, block.View())
  {
    block := new CcBlock(y);
    ScanBlock(img[y], block);
    Fusion.ScanCorrect(img, eight, y);
  }

  /** cc_worker on two blocks: fuse them. Two correct blocks, one right below the
      other, become one that is correct for the rows of both. */
  method WorkFuse(img: Image, eight: bool, a: CcBlock, b: CcBlock) returns (block: CcBlock)
    requires a != b && a.Valid() && b.Valid() && Fusion.Stacked(img, eight, a.View(), b.View())
    modifies a.Footprint(), b.Footprint()
    ensures block == a && block.Valid() && block.View() == Fuse(eight, old(a.View()), old(b.View()))
    ensures block.Footprint() <= old(a.Footprint() + b.Footprint())
    ensures Connectivity.Correct(img, eight, block.View())
  {
    Fusion.StackDisjoint(img, eight, a.View(), b.View());
    Fusion.FuseCorrect(img, eight, a.View(), b.View());
    FuseBlocks(eight, a, b);
    block := a;
  }

  /** aktive_cc_batch: the state shared by the callbacks. */
  class Controller {
    var count: nat               // rows not issued yet
    var stop: bool
    const row: array<Option<Tree>>
    const maxrow: nat

    ghost predicate Valid()
      reads row
    {
      && row.Length == maxrow + 1
      && forall k :: 0 <= k < row.Length && row[k].Some? ==> Top(row[k].value) <= maxrow && Bottom(row[k].value) <= maxrow
    }

    constructor (height: nat)
      requires height >= 1
      ensures Valid() && fresh(row) && count == height && !stop
      ensures row[..] == seq(height, _ => None)
    {
      count, stop, maxrow := height, false, height - 1;
      row := new Option<Tree>[height](_ => None);
    }

    /** cc_maker: the next row, counting down; eof once the completer has raised
        the stop flag, which the call waits for. */
    method Make() returns (task: Option<Task>)
      requires count > 0 || stop
      modifies `count
      ensures old(count) > 0 ==> task == Some(RowTask(count)) && count == old(count) - 1
      ensures old(count) == 0 ==> task == None && count == 0
    {
      if count == 0 { return None; }
      count := count - 1;
      return Some(RowTask(count));
    }

    /** Enter a block at, or clear, the two end indices of it. */
    method Enter(x: Tree, entry: Option<Tree>)
      requires row.Length == maxrow + 1 && Top(x) <= maxrow && Bottom(x) <= maxrow
      modifies row
      ensures row[..] == AtEnds(old(row[..]), x, entry)
    {
      row[Top(x)] := entry;
      row[Bottom(x)] := entry;
    }

    /** cc_completer: the block of the whole image raises the stop flag, others are
        matched with their neighbours. */
    method Complete(result: Option<Tree>) returns (inject: Option<Task>)
      requires Valid() && (result.Some? ==> Top(result.value) <= Bottom(result.value) <= maxrow)
      modifies `stop, row
      ensures Valid()
      ensures result.None? ==> inject == None && stop == old(stop) && row[..] == old(row[..])
      ensures result.Some? ==>
                var v := Receive(old(row[..]), result.value);
                row[..] == v.row && inject == v.inject && stop == (old(stop) || v.stop)
    {
      inject := None;
      if result.Some? {
        if Top(result.value) == 0 && Bottom(result.value) == maxrow {
          row[0] := result;
          stop := true;
        } else {
          inject := MatchUp(result.value);
        }
      }
    }

    /** Take a neighbour out and have the two fused, or enter the block. */
    method MatchUp(block: Tree) returns (inject: Option<Task>)
      requires Valid() && Top(block) <= Bottom(block) <= maxrow && !(Top(block) == 0 && Bottom(block) == maxrow)
      modifies row
      ensures Valid() && Receive(old(row[..]), block) == Verdict(row[..], inject, false)
    {
      var ymin, ymax := Top(block), Bottom(block);
      if ymin > 0 && row[ymin - 1].Some? {
        var x := row[ymin - 1].value;
        Enter(x, None);
        return Some(FuseTask(x, block));
      }
      if ymax < maxrow && row[ymax + 1].Some? {
        var x := row[ymax + 1].value;
        Enter(x, None);
        return Some(FuseTask(block, x));
      }
      Enter(block, Some(block));
      return None;
    }
  }
}
