# 2048 in pygame: the board and its moves, in Dafny

A model of the game logic of a small 2048 clone written in Python with
pygame (`main.py`). The board is a dict from a cell key to a `Tile`. Each
tile has a value, a grid cell (`row`, `col`) and a pixel position (`x`,
`y`) on an 800×800 window split into 4×4 cells of 200 pixels. An arrow key
runs `move_tiles`, which animates the move one frame at a time:

- it sorts the tiles so that the ones nearest the target edge come first;
- each tile then stays, slides `MOVE_VEL` = 20 pixels, or merges into the
  equal neighbour ahead of it;
- the dict is rebuilt from the sorted list;
- this repeats until a frame changes nothing.

After that, `end_move` spawns a 2 or a 4 on a free cell. `generate_tiles`
starts the game with two 2s.

The project has two layers.

- The value layer describes one frame as functions over the tiles' fields.
  Tiles are identified by reference and their fields live in a
  `map<Tile, TState>`. This layer includes one tile's step (`Decide`), the
  pass over the sorted list (`Pass`), the dict rebuild (`Rebuild`), a whole
  frame (`Frame`) and the whole gesture (`SettleWithin`, `Settle`).
- The heap layer has a `Tile` class and a `Board` class, which owns the
  dict. Their methods change the objects in place, as the source does, and
  each is proved to do exactly what the value layer says.

These quirks of the source are reproduced on purpose:

- Neighbours are looked up in the dict as it was at the start of the frame.
  Values and pixel positions are read live.
- `sorted_tiles.pop(i)` inside `enumerate` means the tile after a merged one
  is not visited in that frame (`SkipAfterPop`).
- The popped tile still gets `set_pos`.
- Only the absorbing tile joins `blocks`.
- When two tiles share a cell during the rebuild, the later one overwrites
  the earlier one, under the key's first position (`RebuildLastWins`).
  This happens in real play and loses a tile that never merged: moving
  the row 4, 2, 2 (columns 1 to 3, aligned on their cells) left, the first
  2 waits one frame because `move_check` is strict, the second 2 closes up
  to 180 pixels behind it, and at the end of the tenth frame both 2s round
  up into column 2. The dict keeps only the second, and the first is gone
  from the board for good (`TileLoss.OvertakeLosesTile`). No merge takes
  place, so the skip after a pop plays no part in it.

Modules:

- `tile.dfy` (`Tiles`): the constants and the `Tile` class (constructor,
  `get_colour`, `move`, `set_pos`), together with the rounding and
  power-of-two facts they rely on.
- `direction.dfy` (`Directions`): the four rule sets of `move_tiles`
  (boundary, neighbour key, `merge_check`, `move_check`, sort key, rounding
  mode) and the facts about a single slide.
- `sorting.dfy` (`Sorting`): Python's stable `sorted`, with `reverse=True`
  modelled as an ascending stable sort on the negated key.
- `frame.dfy` (`Frames`): the dict as an insertion-ordered map, one tile's
  step, one pass, `update_tiles`, and one frame.
- `settle.dfy` (`Gestures`): the `while updated` loop. It proves the loop
  ends, that it ends settled, and that values only double.
- `tileloss.dfy` (`TileLoss`): the row above, frame by frame, down to the
  settled board that has lost a tile.
- `board.dfy` (`Boards`): the `Board` class with `get_random_pos`,
  `end_move`, `update_tiles`, `generate_tiles` and `move_tiles`, each
  proved against the value layer.

## Model

| member | source | states |
|---|---|---|
| Tiles.CellIndex | main.py:69-75 | `math.ceil`/`math.floor` of p / size: with ceil, size·c − size < p ≤ size·c; with floor, size·c ≤ p < size·c + size |
| Tiles.CellIndexUnique | main.py:69-75 | the bracket above determines the cell index, so any c in the bracket is the one `set_pos` computes |
| Tiles.SnapOnCell | main.py:69-75 | a tile exactly on its cell's corner keeps its cell under either rounding |
| Tiles.Log2Floor | main.py:53 | `int(math.log2(n))` for n ≥ 1 is the k with 2^k ≤ n < 2^(k+1) |
| Tiles.ColourOf | main.py:52-54 | a colour exists (no exception) exactly for 1 ≤ value < 1024, and it is a palette entry |
| Tiles.ColourOfPow2 | main.py:52-54 | value 2^k takes palette slot k − 1, which exists exactly for 2 ≤ value ≤ 512; value 1 wraps to the last slot |
| Tiles.Tile.constructor | main.py:45-50 | the new tile has the given value and cell, and its pixel position is that cell's corner |
| Tiles.Tile.Colour | main.py:52-54 | `get_colour` succeeds exactly for 1 ≤ value < 1024 |
| Tiles.Tile.Move | main.py:77-81 | `move` adds the velocity to x and y; value, row and col are untouched |
| Tiles.Tile.SetPos | main.py:69-75 | `set_pos` recomputes row and col from y and x with the chosen rounding; everything else is untouched |
| Directions.Delta | main.py:127-154 | `delta` points at the target edge: a move by it takes exactly MOVE_VEL off the distance left to travel and leaves the other coordinate alone |
| Directions.Slid | main.py:172-189 | `tile.move(delta)` then `set_pos(ceil)` keeps the value and the coordinate across the direction of travel, takes exactly MOVE_VEL off the distance left to travel, and leaves a tile that a further `set_pos` does not change |
| Directions.RankByDistance | main.py:125-153 | `sort_func` with `reverse=ascending_order` ranks tiles by how many cells separate them from the target edge, and a tile in the grid meets `boundary_check` exactly at distance 0 |
| Directions.NextCell | main.py:129-156 | `get_next_tile`'s key is the neighbouring cell one step in the direction of travel |
| Directions.AtBoundary | main.py:128-155 | for a cell in the grid, `boundary_check` holds exactly when the neighbouring cell is off the grid |
| Directions.ChecksMeasureGap | main.py:130-157 | `merge_check` holds exactly when the gap to the neighbour exceeds MOVE_VEL; `move_check` holds exactly when it exceeds one cell plus MOVE_VEL; `move_check` implies `merge_check` |
| Directions.NeighbourRanksFirst | main.py:124-164 | the neighbour a tile looks up sorts strictly before it, because `sort_func` and `ascending_order` put the target edge first |
| Directions.SlideStep | main.py:170-189 | a tile off the target edge that moves and is re-snapped keeps the gesture invariant and its value, and has exactly MOVE_VEL less left to travel |
| Directions.SlideKeepsCellUntilLanding | main.py:77-79 | a tile sliding from a cell corner keeps its cell for 9 steps and lands exactly on the next cell after 10 |
| Sorting.StableSort | main.py:164 | `sorted` returns a permutation of the dict's values |
| Sorting.SortIsSorted | main.py:164 | the result is ordered by sort key, in the direction that `reverse=ascending_order` gives |
| Sorting.SortIsStable | main.py:164 | tiles with equal keys keep their order from `tiles.values()` |
| Sorting.SortOfSorted | main.py:164 | sorting a list that is already in order returns it unchanged |
| Sorting.SortCongruent | main.py:164 | the order depends on nothing but the tiles' sort keys |
| Sorting.SortDistinct | main.py:164 | a list without repeats sorts to a list without repeats |
| Frames.Values | main.py:164 | `tiles.values()` lists the entries in key insertion order |
| Frames.ValuesAreEntries | main.py:164 | `tiles.values()` holds exactly the tiles the dict maps some key to |
| Frames.Put | main.py:208 | `tiles[k] = v` sets the entry; a new key goes last, an existing key keeps its place; a well-formed dict stays well formed |
| Frames.Rebuild | main.py:205-208 | `update_tiles` leaves a well-formed dict with no more keys than listed tiles; each entry is a listed tile under its own cell, and every listed tile's cell is a key |
| Frames.RebuildLastWins | main.py:207-208 | the entry at a cell is the last listed tile on that cell |
| Frames.RebuildDistinctCells | main.py:205-208 | when the listed tiles are on pairwise different cells, the rebuilt dict's values are exactly the list, in order |
| Frames.Decide | main.py:167-189 | a tile is absorbed only into the tile the frame-start dict holds at its neighbouring cell, of equal value, with neither of them in `blocks` |
| Frames.DecideRules | main.py:167-190 | a tile on the edge stays; with no neighbour it slides one step; next to an unequal or already merged neighbour it slides exactly while the gap is more than a cell plus MOVE_VEL, and stays otherwise; next to an equal unmerged one it slides exactly while the gap is more than MOVE_VEL, and is absorbed into it otherwise |
| Frames.Pass | main.py:166-190 | the pass changes no tile set, only adds to `blocks`, never grows the list, and keeps `updated` once set |
| Frames.PassValues | main.py:174-183 | after a pass a tile's value is doubled exactly when the pass added it to `blocks`; otherwise it is unchanged |
| Frames.PassUnvisited | main.py:166-190 | a tile the pass does not reach keeps its place and stays in the list |
| Frames.PassVisited | main.py:166-190 | a visited tile left in the list has stayed or slid exactly one step; a popped tile keeps its pixel position |
| Frames.SkipAfterPop | main.py:166-183 | after a merge pops tile i, the tile after it is skipped in that pass and stays where it was |
| Frames.PassIdle | main.py:163-190 | a pass that leaves `updated` false changes no tile, no list entry and no `blocks` |
| Frames.PassProgress | main.py:166-190 | a pass that sets `updated` has popped a tile, or slid one from off the target edge |
| Frames.Frame | main.py:161-192 | one frame keeps the dict consistent (each tile under its own cell), keeps the set of tiles, does not grow the number of keys, and only adds to `blocks` |
| Gestures.FrameProgress | main.py:161-192 | a frame keeps the gesture invariant, puts no new tile on the board and never increases the distance left to travel; a frame with `updated` strictly decreases it |
| Gestures.SettleWithin | main.py:161-192 | the `while updated` loop terminates, measured by that distance, and ends in a state satisfying the gesture invariant |
| Gestures.Settle | main.py:161-192 | the loop run from `blocks = set()` ends in a state satisfying the gesture invariant, on which one more frame would change nothing, and whose board holds only tiles that were on it before |
| Gestures.FrameIdle | main.py:161-192 | a frame that reports no change keeps every tile, `blocks` and the dict's entries, and a further frame changes nothing |
| Gestures.SettleStable | main.py:161-192 | the loop stops only when one more frame would change nothing |
| Gestures.FrameValues | main.py:174-183 | one frame doubles exactly the values of the tiles it adds to `blocks` |
| Gestures.SettleValues | main.py:161-192 | over a whole gesture each tile doubles at most once: exactly the new members of `blocks` double, and all other values are unchanged |
| Gestures.SettleShrinks | main.py:161-192 | a gesture never puts a new tile on the board and never grows the dict |
| Gestures.SettlePowersOfTwo | main.py:161-192 | if every tile on the board is a power of two before a gesture, every tile is one after it |
| TileLoss.TrioFrame | main.py:161-192 | for the row 4, 2, 2 moving left, one frame moves the 4 and the second 2 by MOVE_VEL, moves the first 2 only when it is more than a cell and a step behind the 4, and merges nothing |
| TileLoss.TrioStep | main.py:161-192 | with the 2s 220 and 400 pixels behind the 4 and the 4 at some x with 20 < x ≤ 180, one frame moves all three tiles by MOVE_VEL and hands the same gesture on |
| TileLoss.TrioGlides | main.py:161-192 | frames 2 to 9 of the gesture move the row unchanged, MOVE_VEL per frame, from the 4 at x = 180 to the 4 at x = 20 |
| TileLoss.TrioCollide | main.py:161-208 | the next frame rounds both 2s into column 2, and `update_tiles` keeps only the second one under that key |
| TileLoss.OvertakeLosesTile | main.py:161-208 | moving the aligned row 4, 2, 2 left from columns 1 to 3 ends with a board that no longer holds the first 2, although the board held all three tiles before |
| Boards.KeysFit | main.py:196-201 | distinct keys inside the grid number at most 16, and below 16 a free cell exists |
| Boards.Board.Set | main.py:208 | the object's assignment `tiles[k] = t` is Put |
| Boards.Board.GetRandomPos | main.py:108-116 | `get_random_pos` returns a cell inside the grid that has no tile |
| Boards.Board.EndMove | main.py:196-202 | with 16 tiles it answers "lost" and changes nothing; otherwise it appends one new key for a free grid cell, holding a freshly allocated tile of value 2 or 4 on that cell's corner, and answers "continue" |
| Boards.Board.UpdateTiles | main.py:205-210 | `update_tiles` leaves the dict equal to Rebuild of the list |
| Boards.Board.Generate | main.py:213-219 | `generate_tiles` gives two new tiles of value 2 on two different grid cells, each on its cell's corner, under its cell's key |
| Boards.Board.ValidGame | main.py:45-50 | a dict of tiles on their cells' corners inside the grid is a state a gesture in any direction may start from |
| Boards.Visit | main.py:167-190 | the loop body on the tile objects picks the step Decide picks, and leaves the tiles' fields as that step prescribes |
| Boards.Apply | main.py:171-189 | a slide moves the tile, a merge doubles the neighbour, and then the tile is re-snapped |
| Boards.RunPass | main.py:166-190 | the `for` loop returns the list, `blocks` and `updated` that Pass computes, and leaves the tiles' fields as Pass says |
| Boards.Board.SortTiles | main.py:164 | the `sorted` call on the live tiles is StableSort of the dict's values by their current fields |
| Boards.Board.RunFrame | main.py:162-192 | one iteration of the loop on the objects is exactly Frame |
| Boards.Board.Animate | main.py:161-192 | the whole loop on the objects ends in exactly the state Settle computes |
| Boards.Board.MoveTiles | main.py:119-193 | `move_tiles` leaves the old tiles as Settle says; on a full board the dict is the settled one, otherwise `end_move` has added one freshly allocated tile of value 2 or 4 on a free cell |

## Left out

- Drawing, fonts, the window, `clock.tick` and `draw_grid` are not modelled. The frame rate has no effect on the logic.
- `game_loop` (the event loop that calls `move_tiles` for each arrow key, and `pygame.quit`) is not modelled.
- Randomness is not modelled. `random.randrange` and `random.choice([2, 4])` become nondeterministic choices (`:|`).
- The retry loop of `get_random_pos` becomes one choice among the free cells. It would not end on a full board, so `GetRandomPos` requires fewer than 16 keys.
- Boards.Board.GetRandomPos: does not state that every free cell can come up; the distribution is not modelled.
- Floating point is not modelled. `math.ceil`/`math.floor` of `y / RECT_HEIGHT` become exact integer division, which agrees because all positions are integers. `int(math.log2(v))` becomes `Log2Floor`, which agrees for powers of two, the only values the game produces.
- `get_colour` raising an exception is modelled as `None`. The RGB values are copied, but nothing about their meaning is stated.
- String keys `f"{row}{col}"` are modelled as `(row, col)` pairs. Two cells could share a string key only if a coordinate had two digits, which cannot happen on a 4×4 grid.
- `RECT_HEIGHT` and `RECT_WIDTH` are the literal 200. `Tiles.CellSize` states that this is `HEIGHT // ROWS` and `WIDTH // COLS`.
- `sorted` is modelled by an insertion sort. A stable sort's result is unique, so it agrees with Python's Timsort.
- Boards.Visit: makes the chosen move after the chain of checks rather than inside it. The checks read the tile and its neighbour before either one changes, so the final fields are the same.
- Boards.Board.MoveTiles: requires every tile to be inside the grid and, along the direction of travel, within the span that rounds to its cell. That rounding span is the gesture invariant `GestureOk`, which `ValidGame` proves for tiles aligned on their cells. The source states no precondition.
- Boards.Board.MoveTiles: does not state that tiles end a gesture aligned on their cell corners again. Without that, the model does not show that the next gesture's precondition holds.
- The loss of a tile through two tiles rounding into one cell is reproduced, not corrected. The fix the authors intended is not evident from the source: the no-skip variant of the pass would not prevent it, since no merge takes place in `TileLoss.OvertakeLosesTile`.
- There is no game-over state beyond `end_move`'s "lost" answer, which the source discards, as the model does.
