# Net: a verified model of the game core

Net is a rotation puzzle on a grid of tiles. Each tile carries up to four
connectors: right, up, left and down. The player turns tiles until every
tile is connected to the centre tile. This project models the core of
`net.c` in Dafny and proves what that code promises:

- **Direction arithmetic.** The bitfield macros that rotate, flip and
  count connectors, the `OFFSET` step to a neighbour, the `index` layout
  and the `xyd_cmp` order. These are in modules `Directions`, `Grid` and
  `Xyd`.
- **Board generation.** `new_game` appears twice. The value-level phases
  are in `Growth`, `GrowthTree` and `Layout`. `Generator` holds the
  imperative version, which works in place on the state's two byte
  arrays and is proved to compute those phases. The phases are:
  - the border barriers;
  - the randomised spanning-tree growth from the centre;
  - the list of barrier candidates;
  - the shuffle;
  - the barrier placement.
- **Reachability.** `compute_active` is a work-list search over the
  state's arrays. It is proved to mark exactly the tiles reachable from
  the centre over matched, unbarriered connectors. This is module
  `Active`.
- **Moves.** `make_move` turns, locks or refuses a mouse click, and
  completion is checked after every turn. `dup_game` copies a state.
  These are in modules `Move` and `State`. The click test is modelled
  as written, with its misplaced margin test (see "## Findings").

The game state is a class. Its fields `width`, `height`, `wrapping`,
`completed`, `tiles` and `barriers` are those of `game_state`. Both
arrays are `array<bv8>` of length width*height, laid out row by row.

Most specification functions work on `seq<bv8>` snapshots of those
arrays, through `Grid.At` and `Grid.Set` on a cell. The tree234 sets
(`possibilities`, `barriers`, `todo`) are strictly sorted sequences of
`(x, y, direction)` triples under `xyd_cmp`. The seeded random source is
an oracle, `draw`. It answers each `random_upto(rs, n)` from the list of
bounds requested so far.

The main results:

- **The grown tree** (`GrowthTree.GrownIsTree`):
  - connectors match on both sides of every edge;
  - no tile is a four-way cross;
  - the centre is connected;
  - the connector count is exactly twice (connected tiles - 1);
  - there is no closed loop;
  - every connected tile is joined to the centre by a path
    (`GrowthTree.GrownReachesCentre`).
- **Termination of the growth loop.** Every iteration fills at least one
  blank tile.
- **The assertions in the growth loop hold.** The target of every
  connection is blank (net.c:235). No possibility is left when the loop
  ends (net.c:322).
- **The barriers** (`Generator.GameBarriersFacts`):
  - they contain the border exactly as the code writes it, whose U and D
    barriers cover the top and bottom rows of a non-wrapping grid;
  - the drawn barriers on their own are symmetric;
  - they block each of the `nbarriers` distinct drawn candidates from
    both ends.
  The border's L and R writes are misplaced (see "## Findings"), so the
  border on its own is neither symmetric nor closed on the left and right
  edges (`Layout.BorderAsWrittenNotSymmetric`,
  `Layout.BorderAsWrittenMissesSides`).
- **Raising the barrier ratio** with the same seed yields a superset of
  the barriers (`Generator.BarriersGrowWithRatio`). This is the design
  note at net.c:351-363.
- **Reachability.** `compute_active` marks exactly the reachable tiles.
- **Completion.** A turn sets `completed` exactly when the turned board
  has every tile reachable, and never clears it.

## Model

| member | source | states |
|---|---|---|
| Directions.A | net.c:21 | the result is a 4-bit mask whose U, L, D and R bits are the argument's R, U, L and D bits: an anticlockwise quarter turn |
| Directions.C | net.c:22 | the result is a 4-bit mask whose D, R, U and L bits are the argument's R, U, L and D bits: a clockwise quarter turn |
| Directions.F | net.c:23 | the result is a 4-bit mask with R and L swapped and U and D swapped |
| Directions.X | net.c:29 | the horizontal displacement is +1 exactly for R, -1 exactly for L, otherwise 0 |
| Directions.Y | net.c:30 | the vertical displacement is +1 exactly for D, -1 exactly for U, otherwise 0 |
| Directions.Count | net.c:33-34 | COUNT is the number of the four connector bits that are set; it is 4 exactly when all are set and 0 exactly when none is |
| Directions.RotationInverses | net.c:21-23 | on a 4-bit mask, C undoes A and A undoes C, F is its own inverse, and F equals two A turns |
| Directions.Rot | net.c:24-26 | ROT(x, n) keeps the connector count, and turns a 4-bit mask into a 4-bit mask |
| Directions.RotComposes | net.c:24-26 | ROT(x, 1), ROT(x, 2), ROT(x, 3) are A, F, C; rotating by m then n is rotating by m + n (turns add modulo 4) |
| Directions.RotationKeepsCount | net.c:21-34 | A, C, F and every ROT keep COUNT, and ROT of a 4-bit mask is a 4-bit mask |
| Directions.FlipIsOpposite | net.c:23-30 | F maps each direction to its opposite direction, with the opposite X and Y displacement |
| Directions.CountAddBit | net.c:33-34 | or-ing in a connector the tile lacks raises COUNT by exactly one |
| Directions.FourthDirection | net.c:242-247 | on a tile with three connectors, `0x0F ^ tile` is the one missing direction |
| Grid.CRem | net.c:54-55 | C's `%`: a non-negative dividend gives a remainder in [0, b) equal to the Euclidean one; a negative dividend gives one in (-b, 0] |
| Grid.Offset | net.c:53-55 | OFFSET maps an in-grid cell to an in-grid cell |
| Grid.OffsetStep | net.c:53-55 | OFFSET moves one step in the direction's displacement, wrapping to the opposite edge at every border whether or not the game wraps |
| Grid.OffsetRoundTrip | net.c:53-55 | OFFSET by d followed by OFFSET by F(d) comes back to the start |
| Grid.OffsetMoves | net.c:53-55 | an OFFSET step never stays on its cell, and distinct directions lead to distinct cells |
| Grid.Slot | net.c:57 | `index` of an in-grid cell is y*w + x and lies below w*h |
| Grid.SlotInjective | net.c:57 | distinct in-grid cells have distinct `index` positions |
| Grid.SlotOfIndex | net.c:57 | every position below w*h is the `index` of the cell (i % w, i / w) |
| Grid.Set | net.c:57-59 | assigning through `index` sets that cell and leaves every other cell unchanged |
| Grid.Zeros | net.c:136-139 | memset 0 of n bytes: length n, every byte 0 |
| Xyd.XydCmp | net.c:65-81 | xyd_cmp returns -1, 0 or +1; it returns 0 exactly for equal triples and a negative value exactly when the first is lexicographically smaller on (x, y, direction) |
| Xyd.XydCmpIsStrictOrder | net.c:65-81 | xyd_cmp is irreflexive, transitive, total and antisymmetric |
| Tree234.Add | net.c:203-206 | add234 keeps the set sorted; it adds e, or leaves the set unchanged when e is already there |
| Tree234.Find | net.c:249 | find234 with an exact key succeeds exactly when the key is in the set |
| Tree234.Del | net.c:256 | del234 keeps the set sorted and removes exactly e |
| Tree234.DelPos | net.c:216-217 | delpos234(t, i) in range returns the element of rank i (exactly i elements are smaller) and removes only it; out of range it returns null and changes nothing |
| Random.Draw | net.c:216 | random_upto(rs, n) answers below n |
| Random.RandomState.constructor | net.c:158 | random_init starts with no calls made |
| Random.RandomState.Upto | net.c:216 | random_upto returns the oracle's answer for the calls so far and records the bound n |
| State.GameState.constructor | net.c:131-139 | a fresh state with the given shape, completed false, and two distinct fresh zeroed width*height arrays |
| State.DupGame | net.c:411-426 | dup_game returns a fresh state with equal fields and fresh copies of both arrays |
| Growth.Picked | net.c:216-220 | the possibility extracted at rank random_upto(rs, count) is in the set and pending: it leads from a tree tile into a blank tile that is not the centre |
| Growth.Connect | net.c:223-236 | the source tile gains bit d1, the target tile gains bit F(d1), and every other tile is unchanged |
| Growth.TPiece | net.c:242-259 | the set stays sorted; a tile with three connectors loses exactly the possibility (x1, y1, 0x0F ^ tile), any other tile loses nothing |
| Growth.AvoidLoops | net.c:265-286 | the possibilities stay a sorted set (which ones remain: Growth.AvoidLoopsMembers) |
| Growth.AddFrontier | net.c:292-319 | the possibilities stay a sorted set (which ones are added: Growth.AddFrontierMembers) |
| Growth.GrowStep | net.c:209-320 | one iteration makes one random_upto call with the set's count as bound, and connects the picked possibility: its source gets d1, its target F(d1), and no other tile changes |
| Growth.EnteredIsTarget | net.c:265-276 | the four triples probed around the new tile are exactly the possibilities whose target is the new tile |
| Growth.AvoidLoopsMembers | net.c:265-286 | loop avoidance keeps exactly the possibilities that do not enter the new tile |
| Growth.AddFrontierMembers | net.c:292-319 | the new-frontier pass adds exactly the possibilities out of the new tile that are not d2, do not cross a non-wrapping border, and lead into a blank tile |
| Growth.ConnectFacts | net.c:223-236 | making the connection sets d1 on the source and F(d1) on the blank target, touches no other tile, keeps every connected tile non-blank, and lowers the blank count by one, or by two for the blank centre |
| Growth.ConnectShrinks | net.c:234-236 | the two writes lower the blank count by one, plus one when the source was blank |
| Growth.SurvivorPending | net.c:265-286 | a possibility not pointing at the new tile is still pending after the connection |
| Growth.FrontierPending | net.c:292-319 | every new frontier possibility is pending after the connection |
| Growth.GrowStepKeepsInv | net.c:209-320 | one iteration keeps the loop invariant (all possibilities sorted and pending; the target of the connection is blank, net.c:235) and strictly lowers the number of blank tiles |
| Growth.Grow | net.c:208-322 | the growth loop terminates with its invariant and no possibility left (net.c:322) |
| GrowthTree.StartPossMembers | net.c:202-206 | the initial set is the four directions out of the centre, sorted |
| GrowthTree.StartInv | net.c:202-206 | the loop starts with its invariant: blank tiles and four pending possibilities |
| GrowthTree.StartTree | net.c:202-206 | the loop starts in a state that satisfies the tree invariant |
| GrowthTree.StepFilled | net.c:234-236 | a connection adds one connected tile, or two when the source is the blank centre |
| GrowthTree.StepLinks | net.c:234-236 | after a connection every connector is still matched by the opposite connector across its edge |
| GrowthTree.StepParents | net.c:223-236 | after a connection every connected non-centre tile has exactly one connector to a lower rank: the one it was entered through |
| GrowthTree.StepRanked | net.c:223-236 | the centre keeps rank 0 and no connected tile ranks above the number of connected tiles |
| GrowthTree.StepNoCross | net.c:242-259 | because the T-piece rule drops the fourth possibility, no connection makes a four-way cross |
| GrowthTree.StepEdgeCount | net.c:234-236 | the connector total stays twice (connected tiles - 1) |
| GrowthTree.StepPendingTied | net.c:242-319 | after an iteration every pending possibility adds a connector its source lacks, to a source with at most two |
| GrowthTree.GrowStepKeepsTree | net.c:209-320 | one iteration keeps the whole tree invariant |
| GrowthTree.GrowKeepsTree | net.c:208-320 | the loop keeps the tree invariant to the end |
| GrowthTree.NoCycle | net.c:195-200 | under the link and parent invariants there is no closed loop of connectors |
| GrowthTree.Grown | net.c:160-322 | the tiles new_game has when the growth loop exits; the centre is not blank |
| GrowthTree.GrownIsTree | net.c:160-322 | the grown grid has matched connectors, no four-way cross, a connected centre, connectors = 2 * (connected tiles - 1), and no closed loop |
| GrowthTree.GrownReachesCentre | net.c:160-322 | every connected tile of the grown grid is joined to the centre by a path of connectors |
| Layout.BorderAsWritten | net.c:144-153 | the border exactly as written, defined when the writes stay in the array (wrapping, or width <= height) |
| Layout.BorderWritesInBounds | net.c:149-152 | the as-written R writes stay inside the array exactly when width <= height |
| Layout.BorderAsWrittenTopBottom | net.c:145-148 | the as-written U and D loop blocks exactly the top of row 0 and the bottom of row h-1 |
| Layout.BorderAsWrittenMissesSides | net.c:149-152 | as written, tile (0, h-1) has no L barrier and tile (w-1, 1) no R barrier, where the corrected border has both |
| Layout.BorderAsWrittenNotSymmetric | net.c:149-152 | as written, tile (1, 0) gets an L barrier that its left neighbour does not match |
| Layout.Border | net.c:144-153 | corrected border (used only by the corrected half of the border finding): fits the grid; what it blocks is Layout.BorderIsOuterEdge |
| Layout.BorderIsOuterEdge | net.c:144-153 | corrected border: a cell has each side's barrier exactly when the game does not wrap and the cell is on that outer edge |
| Layout.BorderSymmetric | net.c:144-153 | corrected border: every barrier bit is matched by the opposite bit on the neighbour |
| Layout.Candidates | net.c:325-337 | the candidate tree is a sorted set (its members: Layout.CandidatesMembers) |
| Layout.CandCell | net.c:332-335 | the candidates of one tile are added in order: its R and D sides without a connector |
| Layout.CandRowMembers | net.c:330-336 | a row adds exactly the candidates of its visited tiles |
| Layout.CandRowsMembers | net.c:329-337 | the rows from y on add exactly the candidates of those rows |
| Layout.CandidatesMembers | net.c:325-337 | the candidate set is exactly the R and D sides without a connector of the tiles the loops visit (not the last row and column of a non-wrapping grid) |
| Layout.Shuffle | net.c:339-349 | the shuffled tiles fit the grid (what the shuffle keeps: Layout.ShuffleFacts) |
| Layout.ShuffleRowHistory | net.c:343-347 | shuffling a row calls random_upto(rs, 4) once per visited tile |
| Layout.ShuffleRowKept | net.c:343-347 | shuffling a row keeps each tile's connector count and mask |
| Layout.ShuffleRowsHistory | net.c:342-348 | the shuffle calls random_upto(rs, 4) exactly Rows*Cols times, whatever the tiles |
| Layout.ShuffleFacts | net.c:339-349 | the shuffle keeps each tile's count and mask, leaves the last row and column of a non-wrapping grid alone, and makes Rows*Cols draws with bound 4 |
| Layout.Picks | net.c:367-378 | the placement loop draws n candidates |
| Layout.PicksDistinct | net.c:367-378 | the n drawn candidates are distinct members of the candidate set |
| Layout.CandidatePicks | net.c:367-378 | each drawn barrier is a candidate: an R or D side of an in-grid tile |
| Layout.PicksPrefix | net.c:351-363 | drawing m >= n barriers from the same state starts with the same n draws |
| Layout.PlaceOne | net.c:380-389 | one placed barrier: the picked side of x1, y1 gets d1, the neighbour across that side gets F(d1), and no other tile changes |
| Layout.PlaceAll | net.c:367-392 | all placed barriers fit the grid (what they add: Layout.PlaceAllHas) |
| Layout.OrAtHas | net.c:388-389 | or-ing direction d into a tile adds exactly side d on that tile and changes no other side |
| Layout.PlaceAllHas | net.c:385-389 | placement only adds barrier sides, and each drawn edge ends up blocked from both ends |
| Layout.PlaceAllAppend | net.c:367-392 | placing zs then ys is placing zs + ys |
| Layout.PlaceMorePicks | net.c:351-363 | more draws from the same state place a superset of the barriers |
| Layout.PlaceOneSymmetric | net.c:385-389 | placing one barrier keeps the barrier map symmetric |
| Layout.PlaceAllSymmetric | net.c:367-392 | placing any drawn barriers keeps the barrier map symmetric |
| Generator.BarrierCount | net.c:364-365 | nbarriers is the product ratio * count truncated: n <= count and n*den <= num*count < (n+1)*den |
| Generator.GameTiles | net.c:202-349 | the new game's tiles keep the connector count of each tile of the grown tree |
| Generator.GamePicks | net.c:364-391 | the new game's barriers are BarrierCount distinct candidates of the unshuffled tree |
| Generator.GameBarriers | net.c:144-391 | the new game's barriers contain the as-written border |
| Generator.OrInto | net.c:234 | or-assigning v into cell c in place: the array becomes OrAt of its old contents |
| Generator.SetBorder | net.c:144-153 | the border loops, with their L and R writes at flat positions y and (w-1)*w + y, leave exactly BorderAsWritten |
| Generator.RemoveEntering | net.c:265-286 | the loop-avoidance pass computes AvoidLoops |
| Generator.AddExits | net.c:292-319 | the new-frontier pass computes AddFrontier |
| Generator.UpdatePossibilities | net.c:242-319 | T-piece removal, then loop avoidance, then new frontier |
| Generator.GrowIteration | net.c:209-320 | one iteration updates tiles, possibilities and random state exactly as GrowStep |
| Generator.GrowTree | net.c:202-322 | the growth loop leaves the tiles Grown and the random state GrownHistory |
| Generator.CellCandidates | net.c:332-335 | the candidate tests of one tile compute CandCell |
| Generator.CandidateRow | net.c:330-336 | one row of the candidate loop computes CandRow |
| Generator.BuildCandidates | net.c:325-337 | the candidate loops compute Candidates of the unshuffled tiles |
| Generator.ShuffleRowTiles | net.c:343-347 | one row of the shuffle computes ShuffleRow on tiles and random state |
| Generator.ShuffleTiles | net.c:339-349 | the shuffle loops compute Shuffle on tiles and random state |
| Generator.PlaceDrawn | net.c:373-389 | one placement iteration draws rank random_upto(rs, count), removes that candidate and places its barrier |
| Generator.PlaceBarriers | net.c:367-392 | the placement loop places PlaceAll of the Picks and leaves the random state as Picks says |
| Generator.MakeTiles | net.c:202-349 | the tile phases leave GameTiles, and they return the candidates of the unshuffled tree |
| Generator.MakeBarriers | net.c:364-392 | the barrier phase draws BarrierCount candidates and places them |
| Generator.NewGame | net.c:118-409 | new_game returns a fresh valid state of the requested shape, not completed, with tiles GameTiles and barriers GameBarriers of the seed's stream |
| Generator.GameTilesFacts | net.c:339-349 | the shuffled tiles keep the tree's connector counts, are 4-bit masks with at most three connectors, and the centre is not blank |
| Generator.BarrierCountMono | net.c:364 | a higher barrier ratio never gives fewer barriers |
| Generator.BarriersGrowWithRatio | net.c:351-363 | with the same seed, a higher ratio keeps every barrier of a lower one |
| Generator.GameBarriersFacts | net.c:144-391 | the new game's barriers include the as-written border, so the top of row 0 and the bottom of row h-1 of a non-wrapping grid are blocked; the drawn barriers alone are symmetric; each drawn edge is blocked from both ends |
| Generator.TopBottomBlocked | net.c:145-148 | any barrier map that holds the as-written border blocks the top of row 0 and the bottom of row h-1 of a non-wrapping grid |
| Generator.CorrectedBarriersFacts | net.c:144-391 | corrected: with Layout.Border as the border, the new game's barriers would be symmetric and contain the whole outer edge |
| Active.Linked | net.c:479-482 | a link from c in direction d leads to an in-grid neighbour that carries F(d) and from which F(d) leads back to c |
| Active.Reachable | net.c:446-493 | only in-grid tiles are reachable |
| Active.PathExtend | net.c:479-484 | a path followed by one more link is a path ending at the neighbour |
| Active.ReachStep | net.c:479-484 | a link out of the centre or out of a reachable tile makes the neighbour reachable |
| Active.ReachableUnfold | net.c:462-487 | a tile is reachable exactly when it is one link away from the centre or from a reachable tile |
| Active.PathFirstStep | net.c:479-482 | a non-empty path starts with a link out of its start |
| Active.BlankCentreReachesNothing | net.c:460-487 | a centre without connectors leaves every tile inactive, the centre included |
| Active.ReachIgnoresLocked | net.c:479-481 | reachability depends only on the four connector bits, so LOCKED never matters |
| Active.ClosedMarksReachable | net.c:462-487 | a marking closed under links from the centre and from marked tiles covers every reachable tile |
| Active.VisitNeighbours | net.c:469-486 | the direction loop marks exactly the unmarked linked neighbours and adds exactly them to todo, without growing unmarked tiles + todo |
| Active.ComputeActive | net.c:446-493 | compute_active returns a fresh array holding 1 on exactly the tiles reachable from the centre, 0 elsewhere |
| Move.ClickedTileAsWritten | net.c:513-524 | the click test as written only ever yields in-grid tiles |
| Move.ClickedTileAsWrittenIsSlot | net.c:513-524 | as written, a click hits tile c exactly when c is in the grid, the click falls in c's 32-pixel slot (border line included), and neither c.x nor c.y leaves remainder 31 modulo 32 |
| Move.ClickedTileAsWrittenIgnoresGap | net.c:522-523 | as written, on grids under 31 tiles a side, a click hits tile c exactly when it falls in c's 32-pixel slot, border line included |
| Move.ClickedTile | net.c:513-524 | the corrected click test only ever yields in-grid tiles |
| Move.ClickedTileIsSquare | net.c:513-524 | corrected: a click hits tile c exactly when c is in the grid and the pixel is inside c's square, not on its 1-pixel border line |
| Move.MarginTestCounterexamples | net.c:522-523 | concrete clicks where the as-written and corrected tests disagree, on each side |
| Move.Move | net.c:498-583 | make_move on values, with the click test as written: a taken move had a button other than OtherButton and a tile under the click, and keeps completed once set |
| Move.AllActive | net.c:564-574 | the completion scan answers true exactly when every tile is active |
| Move.ToggleLock | net.c:536-540 | a middle click returns a fresh copy with only LOCKED toggled on the tile, completed kept |
| Move.TurnedCopy | net.c:553-558 | a fresh copy with the tile turned by A (left) or C (right), nothing else changed |
| Move.IsComplete | net.c:563-580 | the completion check answers true exactly when every tile is reachable from the centre |
| Move.TurnTile | net.c:553-580 | a turn returns a fresh copy with the tile turned, and completed becomes old completed or all tiles reachable |
| Move.MakeMove | net.c:498-583 | make_move returns null exactly when Move refuses the click, and otherwise a fresh valid state with the same barriers whose tiles and flag are what Move gives |
| Move.MoveEffect | net.c:498-583 | a taken move changes only the clicked tile and keeps its count; middle toggles LOCKED and keeps completed; left is A and right is C on an unlocked tile; completed is then set exactly when all is reachable, and never cleared |
| Move.LockedRefusesTurns | net.c:536-547 | left and right clicks are refused exactly on locked tiles; a middle click on a tile is always taken |
| Move.LockTwiceRestores | net.c:536-540 | two middle clicks on the same spot restore the tiles and the flag |
| Move.LockKeepsReachable | net.c:536-540 | locking or unlocking a tile never changes which tiles are reachable |
| Move.TurnBackRestores | net.c:553-558 | a left click then a right click on the same spot, or the other way round, restores the tiles |

## Where the model follows the code over the documented behaviour

- **Completion only ever gets set.** `make_move` sets `completed` to TRUE
  when a turn completes the grid and never resets it. `dup_game` copies
  the flag. So a later turn that breaks a connection leaves the game
  marked completed (`Move.MoveEffect`: completed implies completed').
- **Only the moving tile's barrier is checked.** The reachability test
  looks at the barrier on the side of the tile the search moves from, not
  at the neighbour's opposite barrier (`Active.Linked`). The placed
  barriers come in matched pairs, but the border does not
  (`Layout.BorderAsWrittenNotSymmetric`). On a 3x3 non-wrapping grid,
  tile (1, 0) has an L barrier while tile (0, 0) has no R barrier. So a
  link from (0, 0) to the right is followed, while the link back from
  (1, 0) to the left is not.
- **OFFSET always wraps.** It wraps modulo width and height whatever
  `wrapping` says. Non-wrapping games rely on the border barriers and on
  the growth loop's explicit edge tests instead.
- **The centre is not pre-marked.** The reachability search starts with
  the centre in `todo` but does not mark it. The centre becomes active only
  through a walk of at least one link that comes back to it. A centre with
  no connector therefore leaves the whole grid inactive
  (`Active.BlankCentreReachesNothing`).
- **Raising the ratio gives a superset, not a strict one.** The
  superset property holds, but two ratios can truncate to the same count
  (`Generator.BarriersGrowWithRatio` proves the inclusion).

## Left out

- GrowthTree.GrownIsTree: it does not prove that the tree reaches every
  tile, which the comment at net.c:171-200 argues informally. The model
  proves the other parts: connectivity of every connected tile to the
  centre, no cross, no loop, and the edge count.
- Generator.BarrierCount: `barrier_probability` is a C float. The model
  holds it as an exact ratio num/den with 0 <= num <= den. Float rounding
  of the product is not modelled.
- Layout.BorderAsWritten: defined only when the grid wraps or width <=
  height. For a non-wrapping grid wider than tall, the source writes past
  the end of the barrier array, which is undefined behaviour in C.
- Generator.NewGame: requires the grid to wrap or width <= height, and
  so do `Generator.SetBorder` and `Generator.GameBarriers`. Otherwise
  the border loop at net.c:151 writes past the end of the barrier array,
  and C gives that no meaning to model.
- Move.TurnBackRestores: it requires the clicked tile to be a plain
  connector mask. A and C drop any other bit. On a tile that can be
  turned, LOCKED is clear, so tiles built by `new_game` meet the
  requirement.
- Random number generation: `random_init`, `random_upto` and
  `random_free` are replaced by the oracle `draw`, which is a parameter
  standing for the stream the seed selects. The generator algorithm
  itself is not modelled.
- tree234 internals: `newtree234`, `freetree234` and the balanced-tree
  code are not modelled, only the sorted set of triples. `count234` is
  the sequence length.
- Memory management: `snew`, `sfree`, `free_game`, and the draining and
  freeing of the barrier list (net.c:394-404) have no observable effect
  on the state and are left out.
- `new_game_seed` (net.c:96-112) reads the C library's `rand()` and
  formats it. It is I/O-like and left out.
- `main` (net.c:591-622) and the drawing code print to a terminal. The
  DEBUG `printf`s print too. All of these are left out.
- Button codes: `LEFT_BUTTON`, `MIDDLE_BUTTON` and `RIGHT_BUTTON` come
  from `puzzles.h`, which is not part of this model. Buttons are a
  datatype, and every other code is `OtherButton`.
- Integer width: C `int` overflow of width*height or of pixel
  coordinates is not modelled. Dafny integers are unbounded.
- The final `assert(count234(todo) == 0)` (net.c:489) is the exit
  condition of the search loop. It is not a separate contract.

## Findings

| source | as written | input that shows it | evidently intended | confidence | as-written member | corrected member |
|---|---|---|---|---|---|---|
| net.c:149-152 | the L and R writes of the border loop pass the row y as the x coordinate, so L lands on the first h bytes and R on bytes (w-1)*w .. (w-1)*w+h-1 | any non-wrapping 3x3 grid: tile (0, 2) gets no L barrier, tile (1, 0) gets an unmatched L barrier; with width > height (e.g. 4x3) the last R write is past the end of the array | pass y as the row: block the left edge (column 0) and the right edge (column w-1) of every row | high (not executed) | Layout.BorderAsWritten, Generator.SetBorder, Layout.BorderAsWrittenMissesSides, Layout.BorderAsWrittenNotSymmetric, Layout.BorderWritesInBounds | Layout.Border, Layout.BorderIsOuterEdge, Layout.BorderSymmetric, Generator.CorrectedBarriersFacts |
| net.c:522-523 | the margin test takes `tx % TILE_SIZE` and `ty % TILE_SIZE`, the tile numbers, instead of the pixel offsets `x % TILE_SIZE`, `y % TILE_SIZE` | 3x3 grid, click at pixel (47, 20): it lands on the border line of tile (0, 0) and is taken; 32x3 grid, click at (1013, 20): inside tile (31, 0), refused | refuse clicks on the 1-pixel line between tiles, using the pixel offset within the tile | high (not executed) | Move.ClickedTileAsWritten, Move.MakeMove, Move.ClickedTileAsWrittenIsSlot, Move.ClickedTileAsWrittenIgnoresGap, Move.MarginTestCounterexamples | Move.ClickedTile, Move.ClickedTileIsSquare |
