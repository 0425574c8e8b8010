# AKTIVE image runtime: a verified model

AKTIVE is an image processing package for Tcl with a runtime written in C. This
project models the parts of that runtime whose correctness is not visible from any
single function, and proves what they are for.

**Connected components** (`Images` .. `ComponentLists`, `ConnectedTasks`,
`ConnectedSearch`, `ConnectedPool`). Each image row is scanned into maximal foreground ranges. Blocks of
rows are then fused, whenever two vertically adjacent ones are finished, by a two-pointer
sweep over the rows that touch. `Images.Connected` is the reference: a path of adjacent
foreground pixels. `Components` holds the operations on values, `ComponentLists` the
linked records of the code and the proof that they do the same. The result of a whole
search is correct for every image and every schedule.

**Batches** (`Totals`, `FuseTrees`, `UnorderedBatch` .. `UnorderedRuns`,
`SequentialBatch`, `SequentialRuns`, `Rings`). Both coordinators are step systems: one
maker, N >= 1 workers and one completer, each ring operation one guarded atomic step. The
unordered one comes with the completer callback that fuses blocks, as the component search
and the column profile (`ColumnProfile`) use it. Blocks travel as the history of their
fuses, to be replayed by the searches. The main results are inductive invariants over
all reachable states, deadlock freedom, and bounds on the length of any run.

**Point index** (`Stretches`, `QuickSelect`, `Medians`, `PointTree`, `PointSearch`, `PolyCircle`). Quickselect in
place, the KD-tree built with it, the pruned nearest neighbour search, and the polycircle
distance computed with and without the index.

**Pixel fetch** (`Rectangles`, `Regions`). The split of a request at the border of an
image, and the result blocks of a node shared by several callers.

**Files** (`NumberReader`, `NetpbmText`, `NetpbmHeader`, `NetpbmRows`, `BrokenRows`, `VectorCache`, `CacheProgress`, `ByteWriter`,
`Encoding`, `AktiveFormat`, `AktiveFiles`). Writing and reading back text Netpbm and the
AKTIVE format, the writer with seeks, and the row cache shared by threads.

Verify everything with `dafny verify dfyconfig.toml`.

## Where the code does not do what one would expect

- The closed form for the x sum of a range divides after wrapping around at 2^32, so it is
  wrong for ranges whose sum is 2^31 or more, e.g. a full row of 65537 pixels
  (`ComponentStats.RunXSumExact` says exactly when, `RunXSumFailsWhenWide` is the example).
- With equal keys quickselect may leave a larger key left of the median
  (`QuickSelect.DuplicatesMisorder`; `Medians.HarmlessExact` says for which keys), and then
  the nearest neighbour search can miss the nearest point (`PointSearch.MisorderedMisses`).
- PPM text with a maximum above 255 is read by the getter for PGM, a third of each row at
  a time, so that what is read as row y is not that row (`NetpbmRows.FileReads`).
- The comment-skipping number reader takes a comment inside a number for nothing:
  `1#x`, newline, `2` reads as 12 (`NumberReader.CommentInNumber`, `CommentsErased`).
- The AKTIVE writer keeps the size of a row in 32 bits, and writes rows of 2^29 or more
  values over each other (`AktiveFormat.OffsetExact`). The reader multiplies the number of
  values up in 32 bits, and the length of a slice in bytes too (`AktiveFiles.HeaderBack`,
  `AktiveFiles.SliceBack`).
- A row of a text Netpbm file that fails to parse is cut short. The rows below are not empty
  for that, as long as the text goes on: the character that is no digit was taken, and the
  next row starts right behind it (`BrokenRows.RowCutShort`, `BrokenRows.BadByteSkipped`;
  the comment at `op/netpbm.c:632-634` says otherwise).

## Model

| member | source | states |
|---|---|---|
| `Runs.RunsFromExact` | op/cconn.c:446-476 | Scanning a row yields exactly its maximal foreground ranges: every pixel > 0 is in one, no other pixel is, and neighbouring ranges have at least one background pixel between them. |
| `Runs.ExactUnique` | op/cconn.c:446-476 | Exactness and spacing leave no choice: any two such range lists of a row are equal. |
| `Runs.LinkedMeansTouching` | op/cconn.c:266-332 | The 4- and 8-neighbour interval tests hold if and only if some pixel of one range is a 4- or 8-neighbour of some pixel of the other. |
| `Components.JoinOwner` | op/cconn.c:152-260 | Merging two components moves the ranges of the absorbed one to the other and changes the ownership of no other range; no range is lost or owned twice. |
| `Components.JoinSame` | op/cconn.c:152-260 | After a merge two ranges are in one component if and only if they were before, or one was with the first and the other with the second of the merged pair. |
| `Connectivity.StepLosesNothing` | op/cconn.c:348-408 | Stepping past the range that ends first skips no linked pair, 8-neighbours included; this rests on the one pixel gap between ranges. |
| `Connectivity.SweepLinks` | op/cconn.c:348-408 | After the two-pointer sweep every linked pair of ranges of the two touching rows is in one component. |
| `Connectivity.SweepCoarsens` | op/cconn.c:348-408 | The sweep only ever coarsens the partition and neither loses nor duplicates a range. |
| `Connectivity.SweepConnected` | op/cconn.c:348-408 | The sweep joins nothing that is not connected by foreground pixels of the fused rows. |
| `Fusion.ScanCorrect` | op/cconn.c:446-476 | The block of a single scanned row is correct: its ranges, partitioned as the 4- or 8-connected components of that row. |
| `Fusion.FuseCorrect` | op/cconn.c:339-441 | Fusing two correct blocks, one right below the other, gives the correct block of all their rows, for either neighbourhood. |
| `Fusion.PixelsConnected` | op/cconn.c:339-476 | In a correct block two foreground pixels are in the same component if and only if a path of adjacent foreground pixels inside the block joins them. |
| `ComponentStats.RunXSumExact` | op/cconn.c:84-112 | The closed form for the x sum of a range is exact if and only if the range is one pixel or its true sum is below 2^31 (any range that 32 bits can express). |
| `ComponentStats.RunXSumWraps` | op/cconn.c:84-112 | What the closed form yields otherwise: half of twice the true sum modulo 2^32. |
| `ComponentStats.RunXSumFailsWhenWide` | op/cconn.c:84-112 | A full row 65537 pixels wide adds up to 2147516416, but 32768 is recorded. |
| `ComponentStats.PartsSumIsRasterSum` | op/cconn.c:229-260 | Adding area or coordinates range by range equals adding them over the pixel set, raster order, of the component. |
| `ComponentStats.FuseMeasured` | op/cconn.c:339-441 | Fusing keeps area and y sum (modulo 2^32) and bounding box of every component those of its ranges, and the x sum what the closed forms of its ranges add up to. |
| `ComponentStats.ScanMeasured` | op/cconn.c:446-476 | Scanning a row, of any width that 32 bits can express, establishes them. |
| `ComponentStats.ClosedExact` | op/cconn.c:84-112 | The closed forms of any ranges add up to their true x sum, modulo 2^32, if and only if the doubled sums of ranges overflow an even number of times. |
| `ComponentStats.SumsExact` | op/cconn.c:84-112 | Area and y sum of a component equal those of its pixels modulo 2^32; the x sum does if and only if its ranges overflow an even number of times, which is never up to a width of 65536. The true sums are below 2^32 when W*H, H*W(W-1)/2, W*H(H-1)/2 are. |
| `ComponentLists.Cc.constructor` | op/cconn.c:84-112 | cc_new: a record holding one new range, linked from first to last, with the figures of that range. |
| `ComponentLists.Cc.Absorb` | op/cconn.c:229-260 | cc_merge: the range list of the absorbed record is appended, all its ranges change owner, figures are those of the merged component, the list stays well linked. |
| `ComponentLists.CcBlock.constructor` | op/cconn.c:130-150 | cc_new_block: one empty row, no component. |
| `ComponentLists.CcBlock.Unlink` | op/cconn.c:152-184 | cc_unlink: removing a record at the start, at the end, in the middle or as the only one leaves a well formed doubly linked list of exactly the others, in order. |
| `ComponentLists.ExtendBlock` | op/cconn.c:189-223 | cc_extend_block: a new range at the end of the single row, and a new component at the end of the list, nothing else changed. |
| `ComponentLists.JoinOwners` | op/cconn.c:348-354 | Unlink plus merge on the shared records of both blocks does what the merge on the partition does, wherever the two owners are. |
| `ComponentLists.SweepRows` | op/cconn.c:348-408 | The pointer sweep over two linked rows, with owners changing below it, computes the specified sweep and keeps every list and owner link sound. |
| `ComponentLists.AdoptComponents` | op/cconn.c:410-429 | The component lists of both blocks are concatenated, either of them possibly empty, and every record changes owner. |
| `ComponentLists.AppendRows` | op/cconn.c:431-441 | The rows of the lower block are linked below those of the upper one. |
| `ComponentLists.FuseBlocks` | op/cconn.c:339-441 | cc_fuse_blocks on linked records: from two sound blocks a sound one, whose value is the specified fuse of the two values. |
| `ComponentLists.ScanBlock` | op/cconn.c:446-476 | cc_scan: an empty block is filled with the specified ranges of the row, and is sound. |
| `ComponentLists.ListedOnce` | op/cconn.c:152-260 | In a sound block each range is on exactly one row list, that of its row, and on exactly one component list, that of its owner. |
| `ConnectedTasks.WorkRow` | op/cconn.c:524-574 | The worker turns a row task into the correct block of the row. |
| `ConnectedTasks.WorkFuse` | op/cconn.c:524-574 | The worker turns a fuse task on two correct stacked blocks into the correct block of both. |
| `ConnectedTasks.Controller.Make` | op/cconn.c:487-519 | The maker issues rows from the bottom up, each once, and eof only after the stop flag. |
| `ConnectedTasks.Controller.Complete` | op/cconn.c:584-681 | The completer on its array of idle blocks: array, injected fuse and stop flag are as the step system has them, and each entry stays within the image. |
| `ConnectedPool.ScanIntoPool` | op/cconn.c:524-574 | With any blocks around that share no record and are correct, a row task adds another such. |
| `ConnectedPool.FuseInPool` | op/cconn.c:524-574 | A fuse task on two of them, one right below the other, leaves the others and their values as they are, and the result shares no record with them: so in any order of tasks. |
| `ConnectedPool.Build` | op/cconn.c:524-574 | The tasks a block comes from, done on linked records, give the value that the same history gives on values. |
| `FuseTrees.InOrderRows` | op/cconn.c:339-441 | Whatever the order of fuses, a block of adjacent fuses covers each of its rows once, top to bottom, and took one fuse less than it has rows. |
| `Tiling.NeighbourAdjacent` | op/cconn.c:617-669 | An entry next to a new block in the array is always a block ending, or starting, right there. |
| `Tiling.TakeOut` | op/cconn.c:617-669 | Clearing the two end entries of a block removes exactly that block and keeps the array tidy: entries at both ends of each block, no two recorded blocks adjacent. |
| `Tiling.PutIn` | op/cconn.c:671-681 | Entering a block without recorded neighbours at its two ends adds exactly that block and keeps the array tidy. |
| `Tiling.OnlyRecordedMeansFull` | op/cconn.c:584-681 | When all rows are issued and every block is recorded, the recorded block is the whole image, in row 0. |
| `UnorderedBlocks.ReceiveEffect` | op/cconn.c:584-681 | A block without adjacent partner is recorded, nothing else in the array changes; the stop flag goes up if and only if the whole image is recorded. |
| `UnorderedBlocks.InjectEffect` | op/cconn.c:617-669 | An injected fuse is of the arriving block and a recorded one right above or below it, upper one first, and that one leaves the array. |
| `UnorderedBlocks.BlocksStep` | op/cconn.c:584-681 | Every step of every thread keeps this: blocks waiting, in work, in a result, in hand or recorded tile the rows issued so far, each row in exactly one. |
| `UnorderedBlocks.NothingFlyingMeansStop` | op/cconn.c:584-681 | Once all rows are issued and no block is under way the stop flag is up: the run cannot end up stuck with unfused blocks. |
| `UnorderedCounts.BoundedStep` | runtime/coordinator_unordered.c:133-191 | Every step keeps: priority tasks + results + workers past the empty check or holding work + the completer's hand <= 2N+1. |
| `UnorderedCounts.ConservedStep` | op/cconn.c:584-681 | Every step keeps: rows to issue + blocks under way + recorded blocks + pending fuses + fuses done == image height. |
| `UnorderedCounts.ProgressStep` | runtime/coordinator_unordered.c:123-212 | Every step but a poll of an empty ring reduces the work left; a poll of an empty ring does not add to it. |
| `UnorderedRuns.ReachableInv` | runtime/coordinator_unordered.c:72-212 | All these invariants hold in every state any interleaving of maker, workers and completer reaches, for N >= 1 workers and height >= 1. |
| `UnorderedRuns.NoDeadlock` | runtime/coordinator_unordered.c:123-212 | In every reachable state before the completer is done some useful step (not a poll of an empty ring) is possible or becomes so by polling, also with the completer blocked on a full priority ring. |
| `UnorderedRuns.Terminates` | runtime/coordinator_unordered.c:123-212 | No run takes more than 11*height + 5*N + 1 useful steps. |
| `UnorderedRuns.CanFinish` | runtime/coordinator_unordered.c:123-212 | From every reachable state some steps lead to one in which the completer is done. |
| `UnorderedRuns.CleanShutdown` | runtime/coordinator_unordered.c:105-121 | When the completer is done all workers and the maker have finished and all three rings are empty, as release asserts. |
| `UnorderedRuns.WholeImage` | op/cconn.c:584-681 | When the completer is done row 0 holds the block of the whole image, and exactly height - 1 fuses were executed. |
| `ConnectedSearch.ReplayCorrect` | op/cconn.c:524-574 | Replaying any order of adjacent fuses over scanned rows gives the correct block of the rows covered. |
| `ConnectedSearch.ComponentsFound` | op/cconn.c:688-719 | For every image and finished run two foreground pixels are in one component if and only if a 4- or 8-path of foreground pixels joins them in the image. |
| `ConnectedSearch.ForegroundFound` | op/cconn.c:688-719 | A pixel is in some component of the result if and only if it is foreground. |
| `ConnectedSearch.ScheduleIndependent` | op/cconn.c:688-719 | Any two finished runs, with any numbers of workers, yield the same partition of the pixels. |
| `ConnectedSearch.SomeRunFinishes` | op/cconn.c:688-719 | For every image and number of workers there is a finished run. |
| `ConnectedSearch.SumsFound` | op/cconn.c:688-719 | All this holds of every component found, in an image of any width. |
| `ConnectedSearch.BoxFound` | op/cconn.c:688-719 | The bounding box of every component found is the smallest one around its pixels. |
| `ColumnProfile.ScanProfile` | op/cprofile.c:121-145 | The scan writes the row number where the value is not zero, and the mark elsewhere. |
| `ColumnProfile.FuseProfile` | op/cprofile.c:82-116 | The fuse takes, per column, the larger entry for the mark -1 and the smaller one otherwise, in place. |
| `ColumnProfile.ReplayProfile` | op/cprofile.c:193-248 | Any order of adjacent fuses yields, per column, the last (first) non-zero row of the rows covered, or the mark. |
| `ColumnProfile.ProfileFound` | op/cprofile.c:363-399 | For every schedule the profile found is, per column, the last or first non-zero row of the image, or the mark if there is none. |
| `ColumnProfile.ProfileScheduleIndependent` | op/cprofile.c:363-399 | Any two finished runs find the same profile. |
| `SequentialRuns.ReachableInv` | runtime/coordinator_sequential.c:157-268 | Every interleaving keeps: what is issued to a worker and not yet collected sits in order in its task ring, hands and result ring; each worker is in one place of the idle cycle; eof goes once to each. |
| `SequentialRuns.RingsBounded` | runtime/coordinator_sequential.c:157-170 | A task ring (capacity 3) never holds more than one entry, the idle ring never more than N. |
| `SequentialRuns.InOrder` | runtime/coordinator_sequential.c:246-268 | In every run the results returned are the images of the first so many tasks, in the order the maker made them; all of them when the completer is done. None is lost or done twice. |
| `SequentialRuns.EofAfterAllWorkers` | runtime/coordinator_sequential.c:246-268 | The completer is done if and only if N null results were taken, and the first of them comes after the result of the last task. |
| `SequentialRuns.CleanRelease` | runtime/coordinator_sequential.c:127-155 | When the completer is done every ring release asserts to be empty is empty, and maker and workers have finished. |
| `SequentialRuns.NoDeadlock` | runtime/coordinator_sequential.c:157-268 | In every reachable state before the completer is done some step is possible. |
| `SequentialRuns.Terminates` | runtime/batch.c:203-293 | No run is longer than 10*(tasks + N) + 1 steps of the three thread loops. |
| `SequentialRuns.CanFinish` | runtime/batch.c:203-293 | From every reachable state some steps lead to one in which the completer is done. |
| `Rings.Ring.constructor` | runtime/ringbuffer.h:57-67 | A new ring of any capacity >= 1 is empty. |
| `Rings.Ring.Flags` | runtime/ringbuffer.h:78-141 | The flags tell the truth: isempty if and only if nothing is held, isfull if and only if capacity is. |
| `Rings.Ring.Put` | runtime/ringbuffer.h:78-98 | A put appends to the sequence held. |
| `Rings.Ring.Take` | runtime/ringbuffer.h:100-120 | A take removes and returns the oldest entry. |
| `Rings.Ring.TakeIfNotEmpty` | runtime/ringbuffer.h:122-141 | The conditional take does so too, and tells of an empty ring. |
| `QuickSelect.Partition` | runtime/kdtree.c:81-91 | One round in place computes the specified rearrangement: smaller keys, the pivot, then keys not smaller. |
| `QuickSelect.PartitionedFacts` | runtime/kdtree.c:81-91 | The rearrangement permutes its stretch, and splits it at the place returned, where the pivot is. |
| `QuickSelect.SelectedPermutes` | runtime/kdtree.c:66-100 | The selection permutes its stretch and touches nothing else, duplicates included; that it terminates is part of its definition. |
| `Medians.HarmlessExact` | runtime/kdtree.c:66-100 | Every arrangement of the points comes out with no larger key left and no smaller key right of the middle, if and only if there is no key that occurs at least twice, is not the largest, and has at most mid - start - 2 keys smaller than it. |
| `QuickSelect.DuplicatesMisorder` | runtime/kdtree.c:94 | Keys 7, 9, 5, 5 become 5, 9, 5, 7 with the second 5 as median and 9 left of it. |
| `Medians.MedianOrders` | runtime/kdtree.c:66-100 | Keys that meet that condition, different ones among them, come out ordered around the median. |
| `Medians.DocileExact` | runtime/kdtree.c:66-133 | Every stretch of every arrangement is harmless around its middle, if and only if every key occurs once, or is the largest, or it and the larger ones occur at most three times together. |
| `PointTree.DistinctDocile` | runtime/kdtree.c:105-133 | Pairwise different keys are such, and so are those of at most three points. |
| `QuickSelect.QuickSelectMedian` | runtime/kdtree.c:66-100 | The loop ends in the specified arrangement and returns the middle; no median for an empty stretch, and nothing moved in one of a single point. |
| `PointTree.MakeNode` | runtime/kdtree.c:105-133 | The recursion in place builds the specified tree and leaves the array in the specified order. |
| `PointTree.MadeIndexes` | runtime/kdtree.c:105-133 | That tree holds exactly the points of the array, as often as they occur, and is balanced, the array is permuted, and when x and y meet the condition of DocileExact every node splits its subtrees along its axis. |
| `PointTree.SortedAxes` | runtime/kdtree.c:105-133 | Such a tree is split by x at the root, by y one level below, and by x again in the next. |
| `PointSearch.Search` | runtime/kdtree.c:153-205 | The recursive search with running minimum computes the specified result. |
| `PointSearch.FoundImproves` | runtime/kdtree.c:153-205 | On a sorted tree the pruned search misses nothing: no point is nearer than the result, and the result is the old one or a nearer point of the tree. |
| `PointSearch.MisorderedMisses` | runtime/kdtree.c:105-205 | From the points (7,0), (9,0), (5,-1), (5,0) make_node builds a tree with (9,0) left of pivot (5,0), and the search for (9,0) finds (7,0), at squared distance 4. |
| `PointSearch.SameDistance` | runtime/kdtree.c:153-205 | Any two sorted trees of the same points, whatever their shapes, give the same distance. |
| `PointSearch.FindNearest` | runtime/kdtree.c:303-319 | On a sorted tree with points the one returned is in it, the distance is the sum of the squares of its differences to the target in x and y, and no point of the tree has a smaller sum. Only in an empty tree the distance is infinite. |
| `PolyCircle.Polycircle` | op/sdf.c:96-109 | The linear scan yields a number just when there are centers; with the radius added it is at most the root of the squared distance to every center, and equal for one of them. |
| `PolyCircle.NegativeInside` | op/sdf.c:96-122 | Such a number is negative if and only if the target is inside some circle. |
| `PolyCircle.OffBothAxes` | op/sdf.c:96-122 | From (4,6) to the circle of radius 1 around (1,2) it is 4. |
| `PolyCircle.RootOfNearest` | op/sdf.c:111-122 | The root of the least squared distance is the least root: taking the root last is as good. |
| `PolyCircle.PolycircleIndexed` | op/sdf.c:111-122 | Building the tree in place and searching it gives the result of the linear scan over the original centers, and so a number of that kind, if their x and their y meet the condition of DocileExact. |
| `Rectangles.IntersectExact` | runtime/rectangle.c:182-225 | A point is in the computed intersection if and only if it is in both rectangles. |
| `Rectangles.IntersectNone` | runtime/rectangle.c:190-200 | For rectangles that are not empty the result is the empty rectangle at the origin, all four fields 0, if and only if they share no point. |
| `Rectangles.SubsetExact` | runtime/rectangle.c:72-85 | For a rectangle that is not empty the corner test holds if and only if all its points are in the other. |
| `Rectangles.Outzones` | runtime/rectangle.c:231-321 | The imperative split writes exactly the specified zones, at most five of them. |
| `Rectangles.ZonesInside` | runtime/rectangle.c:231-321 | Every zone is non-empty and inside the request. |
| `Rectangles.ZonesDisjoint` | runtime/rectangle.c:231-321 | No two zones share a cell. |
| `Rectangles.ZonesCover` | runtime/rectangle.c:231-321 | Every requested cell is in a zone, and in the first one if and only if it is in the domain. |
| `Rectangles.NoZones` | runtime/rectangle.c:231-321 | There are no zones if and only if request and domain share no point. |
| `Regions.Region.constructor` | runtime/region.c:56-107 | The first caller gets a new region, which counts one result block and has none in use. |
| `Regions.Region.Reuse` | runtime/region.c:43-52 | Every other caller is counted: one possible result block per caller. |
| `Regions.Region.Fetch` | runtime/region.c:214-403 | In any sequence of fetches by the callers: the block returned shows the request, pixels inside the domain and 0 outside, also by the same-request shortcut; blocks in use never exceed the count; a caller changes its block at most once; the blocks in all other slots, and all those another caller reads, keep area and cells. |
| `Regions.Region.NextBlock` | runtime/region.c:245-268 | A caller that finds another one's block gets a new one of its own, and never had one before. |
| `Regions.FillBlock` | runtime/region.c:285-403 | Inside, outside and mixed requests all leave every requested cell right. |
| `Regions.ChangedUnderneath` | runtime/region.c:214-403 | A caller that was given the block of another one, for the same request, finds it changed once that one asks for something else. |
| `NumberReader.GetUintStr` | runtime/reader.c:657-720 | The reading loop computes the specified automaton: result, value, and position. |
| `NumberReader.Characters` | runtime/reader.c:657-720 | White space are tab, line feed, vertical tab, form feed, carriage return and blank, digits are the ten codes from 48 on. |
| `NumberReader.LineEndSkipped` | runtime/reader.c:657-720 | After a number carriage return and line feed are skipped. |
| `NumberReader.ScanAccepts` | runtime/reader.c:657-720 | White space, digits, then white space up to the next other byte or the end, is accepted with the decimal value modulo 2^32. |
| `NumberReader.ScanReads` | runtime/reader.c:657-720 | Nothing else is accepted: what is accepted has that form, with that value and stop position. |
| `NumberReader.GetUintStrsharp` | runtime/reader.c:722-792 | The single-separator variant computes its automaton. |
| `NumberReader.SharpReads` | runtime/reader.c:722-792 | It reads the same numbers, but stops right after one white space. |
| `NumberReader.GetUintStrcom` | runtime/reader.c:794-882 | The comment-skipping variant computes its automaton. |
| `NumberReader.CommentsErased` | runtime/reader.c:794-882 | On any bytes it accepts a value if and only if the plain reader accepts it on the input with every stretch from # to newline erased, even inside a number, and its stop position corresponds under the erasure. |
| `NumberReader.CommentInNumber` | runtime/reader.c:794-882 | The text 1#x, newline, 2 reads as 12. |
| `NetpbmText.Sink.WriteHeader` | op/netpbm.c:241-265 | The header printed at the front of a file reads back with all its fields, whatever values follow it, and the column it leaves is the offset at which the header reader puts these. |
| `NetpbmText.Sink.WriteValues` | op/netpbm.c:287-333 | The values of a block are printed as decimals, each followed by a blank or, past the column limit, a newline. |
| `NetpbmText.LinesBroken` | op/netpbm.c:287-333 | A newline ends exactly those values with which the line reaches 70 characters, a blank all others. |
| `NetpbmText.TextConcat` | op/netpbm.c:287-333 | Printing block after block is printing everything at once: the text does not depend on how the values are divided into blocks. |
| `NetpbmText.PrintedReads` | runtime/reader.c:657-720 | A printed number, with its separator, reads back as itself. |
| `NetpbmText.GetHeader` | op/netpbm.c:557-606 | The header reader accepts with the specified fields, rejects, or, for code 7, goes beyond the end of its tables. |
| `NetpbmHeader.HeaderExact` | op/netpbm.c:557-606 | Of all byte strings exactly those are accepted that begin with P and 2, 3, 5 or 6, two numbers with or without comments, and a number without; bands, binary and extended follow from the digit and the maximum. P7 leads beyond the tables, all else is rejected. |
| `NetpbmHeader.BitmapRejected` | op/netpbm.c:557-606 | A bitmap header is rejected. |
| `NetpbmText.HeaderReads` | op/netpbm.c:557-606 | A printed header reads back: width, height, maxval, depth 1 or 3, text, and the offset of the values. |
| `NetpbmText.FillRow` | op/netpbm.c:620-640 | The row filler computes the specified row: values scaled, cut short at the first one that fails, and the next position. |
| `BrokenRows.RowFull` | op/netpbm.c:620-640 | A row is read in full if and only if the text from its start on, without comments, begins with as many numbers. |
| `BrokenRows.RowCutShort` | op/netpbm.c:620-640 | After a row cut short reading goes on at the end of the text, if only white space was left behind the numbers read, and otherwise one past the first character in the place of a number that is no digit. |
| `BrokenRows.RowBelow` | op/netpbm.c:620-640 | The row below one cut short is read in full if and only if enough numbers follow that character. |
| `BrokenRows.NothingBelow` | op/netpbm.c:620-640 | Once a row has come to the end of the text all rows below are empty. |
| `BrokenRows.BadByteSkipped` | op/netpbm.c:620-640 | Of the text x 5 7, with one value in a row, the first row is empty, the second is 5 and the third 7. |
| `NetpbmText.TextReads` | op/netpbm.c:620-640 | Where printed values start, the filler reads them back, wherever the lines were broken, and stops where the next value starts. |
| `NetpbmRows.FileHeader` | op/netpbm.c:557-606 | The header of a whole written file reads back, and its offset is where the text of the rows starts. |
| `NetpbmRows.RowWritten` | op/netpbm.c:620-640 | Row y of the sequential parse is the row y that was written, scaled. |
| `NetpbmRows.PartsRead` | op/netpbm.c:673-730 | Whatever rows any threads ask for in any order, a thread that asked for row y of a written PGM or PPM text file is given the values from y row lengths on, divided by maxval, the row length being that of the getter chosen by the header: width for PGM and for PPM with a maximum above 255, three times width for other PPM. |
| `NetpbmRows.FileReads` | op/netpbm.c:673-730 | A thread that asked for row y is given the values of row y as written, each divided by maxval, if and only if the file is not PPM with a maximum above 255, or has no columns. |
| `NetpbmRows.ExtendedReadsShort` | op/netpbm.c:727-730 | Of a PPM image of one pixel with maximum 256 only the first of three values is read. |
| `VectorCache.InvStep` | runtime/veccache.c:111-162 | Every step of every thread keeps: filled entries hold the row of the sequential parse, known offsets are the right ones, and each lock is held by the thread working on that entry. |
| `VectorCache.GetsRow` | runtime/veccache.c:111-162 | In every run, the last index a thread asked for is that of its outermost call while this is under way, and afterwards it has been given that index and the row with that index of the plain sequential parse. |
| `VectorCache.FilledOnce` | runtime/veccache.c:111-162 | The filler runs at most once per row. |
| `VectorCache.FilledAt` | runtime/veccache.c:131-155 | When a thread is about to fill a row, the offset it is going to use is the right one. |
| `VectorCache.NeverTwoLocks` | runtime/veccache.c:111-162 | No thread ever holds two row locks. |
| `CacheProgress.NoDeadlock` | runtime/veccache.c:111-162 | While any get is unfinished some thread can take a useful step, at once or after one in vain (asking again for a row that is there while the next offset is not seen yet). |
| `CacheProgress.Terminates` | runtime/veccache.c:111-162 | No run takes more than 8i + 7 useful steps for each get of an index i. |
| `ByteWriter.Writer.Here` | runtime/writer.c:436-490 | Writing puts the bytes at the position, also beyond what was used, keeps all others through growth, and moves the position. |
| `ByteWriter.Writer.Done` | runtime/writer.c:436-490 | When every byte of a file was written, in whatever order, and nothing else, the result is the file. |
| `Encoding.DecodeEncode` | runtime/writer.c:177-337 | A number written with n bytes, either byte order, reads back if it fits. |
| `Encoding.ValuesBack` | runtime/reader.c:1141-1160 | Values written one after the other with 8 bytes each are read back by the array getter. |
| `AktiveFormat.Sink.WriteHeader` | op/aktive.c:382-418 | The header is written as specified for either byte order, and the start offset computed beside it, in 32 bits, is its length. |
| `AktiveFormat.Sink.WriteBlock` | op/aktive.c:420-458 | The rows of a block go to their places in the file, each byte with the value it has there, and nothing else is written. |
| `AktiveFormat.OffsetExact` | op/aktive.c:432-437 | The offset computed with 32 bit pixel and row sizes is the right one for every pixel of the image if and only if a pixel (with more than one in a row) and a row (with more than one) are below 2^32 bytes. |
| `AktiveFormat.WideRowsCollide` | op/aktive.c:403-437 | Two rows of 2^29 values: the row size comes out as 0, and both are written to the same place. |
| `AktiveFiles.WriteImage` | op/aktive.c:382-536 | Header and then the blocks of any tiling in any order make one and the same file of geometry, meta data and values, for either byte order and every geometry whose header and sizes fit in 32 bits. |
| `AktiveFiles.HeaderExact` | op/aktive.c:90-127 | Of all byte strings exactly these are accepted: magic and version, six words for x, y, width, height, depth and size of the meta data in the byte order, as many bytes of meta data, the second magic, and 8 bytes for each value counted in 32 bits, with nothing behind; the fields returned are those. |
| `AktiveFiles.HeaderBack` | op/aktive.c:90-127 | The header reader accepts a written file with the original fields, if and only if it holds less than 2^32 values. |
| `AktiveFiles.LargeSquareRefused` | op/aktive.c:254-279 | The file of any image of 65536 by 65536 values is refused. |
| `AktiveFiles.CountOf` | op/aktive.c:254-279 | The number of values, multiplied up in 32 bits for the size check, is the true one if and only if that fits. |
| `AktiveFiles.SliceBack` | op/aktive.c:141-151 | Of an accepted file any number of values within a row, from any place of the image on, read back as they were written, if and only if less than 2^29 are asked for. |
| `AktiveFiles.WideRowReadsEmpty` | runtime/reader.c:1141-1160 | Of a row of 2^29 values, when all are asked for, none is read. |

## Left out

- Tcl objects and channels, file and channel I/O, the image object type, Tk code, images as Tcl dictionaries, the freeing of memory, and tracing.
- Threads: each ring operation and each access to a shared cache entry is one atomic step, memory is sequentially consistent, no wakeup is lost. The maker's decrement of its row count and the put of the row task are one step. Creating and joining threads is not modelled.
- Fairness: a worker of the unordered coordinator polls in a loop; the bound on the length of a run counts all steps but polls of an empty ring, and assumes nothing about how long those go on.
- Workers return a result for every task, as both searches do; a worker callback returning null early is not part of this model.
- Images of height 0 in the two searches: maxrow wraps around there, and no block ever arrives.
- UnorderedRuns.ReachableInv: the step system carries blocks as histories of their fuses, not as records. What workers do to the records of all blocks at once is ConnectedPool, where each task is done as a whole, and any order of tasks may be taken; two threads at work at the same instant are on different blocks.
- ComponentLists.FuseBlocks: requires that no range value is in components of both blocks, which holds of any two blocks with different rows.
- PointTree.MadeIndexes: the condition makes every stretch that could come up harmless; of other points, a grid for one, the tree may be sorted or not, depending on their order.
- PolyCircle.PolycircleIndexed: exact reals, and any monotone function in the place of the square root; rounding of doubles is not modelled.
- The KD-tree range search: its prune compares a squared distance with a radius that is not squared, so it is exact for a radius of at most 1 only.
- Regions.Region.Fetch: every caller is an input of another region; the null caller of a sink is not modelled, nor is exporting a result block. The fetch callback of an operator and the generated blits mean "write these pixels there". All regions are set up before the first fetch. Two inputs of one region from the same node share a block; what the earlier of two fetches returned is then overwritten, and only the later is claimed.
- Rectangles and geometry use unbounded integers; coordinates near the limits of 32 bits are not modelled.
- VectorCache.GetsRow: assumes that no row starts at offset 0, as there always is a header; offsets are unbounded while the code's are 32 bits.
- CacheProgress.NoDeadlock: some thread can always do something useful; that every get ends also takes a fair scheduling of the waiting loop, which is not modelled.
- NetpbmText.Sink.WriteValues: takes quantized values; the quantization of pixels and the generated tables are decimal printing here.
- NetpbmRows.FileHeader: width and height below 2^31, as the header is printed with a signed format.
- NetpbmText.GetHeader: what a header with code 7 leads to depends on memory beyond the tables and is left open.
- Binary Netpbm, and the readers from channels. Of the getters for text, the copying of some columns out of the cached row is left out.
- AktiveFiles.WriteImage: requires a header below 2^32 bytes and sizes that fit, see OffsetExact; the final comparison of values written and values expected is left out.
- ByteWriter.Writer.Here: "goto end" is left out, nothing in these formats uses it.
- The LRU cache, the queue, the matrix, lookup table, interpolation, color, statistics and SDF shape code, dotproduct, the simplifier: straight-line arithmetic or no caller.
