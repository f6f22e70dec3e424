// The four rule sets `move_tiles` chooses between (main.py:124-159), one
// function per rule, plus the per-direction facts the frame loop relies on.

module Directions {
  import opened Tiles

  datatype Direction = Left | Right | Up | Down

  predicate Horizontal(d: Direction) {
    d == Left || d == Right
  }

  /**
   * `delta`: one frame's displacement, MOVE_VEL pixels toward the target
   * edge along the travel axis and nothing across it.
   */
  function Delta(d: Direction): (v: Vec)
    ensures forall s :: Progress(d, Moved(s, v)) == Progress(d, s) - MOVE_VEL
    ensures if Horizontal(d) then v.dy == 0 else v.dx == 0
  {
    match d
    case Left => Vec(-MOVE_VEL, 0)
    case Right => Vec(MOVE_VEL, 0)
    case Up => Vec(0, -MOVE_VEL)
    case Down => Vec(0, MOVE_VEL)
  }

  /** `get_next_tile`'s key: the neighbouring cell toward the target edge. */
  function NextCell(d: Direction, row: int, col: int): (c: Cell)
    ensures MOVE_VEL * (c.0 - row) == Delta(d).dy
    ensures MOVE_VEL * (c.1 - col) == Delta(d).dx
  {
    match d
    case Left => (row, col - 1)
    case Right => (row, col + 1)
    case Up => (row - 1, col)
    case Down => (row + 1, col)
  }

  /** `boundary_check`: the tile's cell is on the target edge. */
  function AtBoundary(d: Direction, row: int, col: int): (b: bool)
    ensures InGrid((row, col)) ==> (b <==> !InGrid(NextCell(d, row, col)))
  {
    match d
    case Left => col == 0
    case Right => col == COLS - 1
    case Up => row == 0
    case Down => row == ROWS - 1
  }

  /** Pixel distance from the tile forward to its neighbour, along the direction of travel. */
  function Gap(d: Direction, t: TState, n: TState): int {
    match d
    case Left => t.x - n.x
    case Right => n.x - t.x
    case Up => t.y - n.y
    case Down => n.y - t.y
  }

  /** The extent of one cell along the direction of travel. */
  function CellSpan(d: Direction): int {
    if Horizontal(d) then RECT_WIDTH else RECT_HEIGHT
  }

  /** `merge_check`: the tile is still more than one step from its equal neighbour. */
  function MergeCheck(d: Direction, t: TState, n: TState): bool {
    match d
    case Left => t.x > n.x + MOVE_VEL
    case Right => t.x < n.x - MOVE_VEL
    case Up => t.y > n.y + MOVE_VEL
    case Down => t.y < n.y - MOVE_VEL
  }

  /** `move_check`: the tile can advance a step without reaching its neighbour's cell. */
  function MoveCheck(d: Direction, t: TState, n: TState): bool {
    match d
    case Left => t.x > n.x + RECT_WIDTH + MOVE_VEL
    case Right => t.x < n.x - RECT_WIDTH - MOVE_VEL
    case Up => t.y > n.y + RECT_HEIGHT + MOVE_VEL
    case Down => t.y < n.y - RECT_HEIGHT - MOVE_VEL
  }

  /**
   * What the two checks measure: the gap to the neighbour along the
   * direction of travel; a tile free to move is also far from merging.
   */
  lemma ChecksMeasureGap(d: Direction, t: TState, n: TState)
    ensures MergeCheck(d, t, n) <==> Gap(d, t, n) > MOVE_VEL
    ensures MoveCheck(d, t, n) <==> Gap(d, t, n) > CellSpan(d) + MOVE_VEL
    ensures MoveCheck(d, t, n) ==> MergeCheck(d, t, n)
  {
  }

  /** `ceil`: the rounding `set_pos` uses. */
  function Ceil(d: Direction): bool {
    d == Left || d == Up
  }

  /** `sort_func`: the field the frame list is sorted by. */
  function SortField(d: Direction, s: TState): int {
    if Horizontal(d) then s.col else s.row
  }

  /** `ascending_order`, which the source passes as `reverse`. */
  function Reverse(d: Direction): bool {
    d == Right || d == Down
  }

  /**
   * The rank the stable sort orders by: `sorted(..., reverse=True)` keeps
   * equal elements in their original order, as an ascending stable sort on
   * the negated key does.
   */
  function Rank(d: Direction, s: TState): int {
    if Reverse(d) then -SortField(d, s) else SortField(d, s)
  }

  /** How many cells separate a tile's cell from the target edge. */
  function CellsToEdge(d: Direction, s: TState): int {
    match d
    case Left => s.col
    case Right => COLS - 1 - s.col
    case Up => s.row
    case Down => ROWS - 1 - s.row
  }

  /**
   * `sort_func` with `reverse=ascending_order` ranks tiles by how far their
   * cell is from the target edge, so the sort puts the tiles nearest that
   * edge first; a tile in the grid is on the edge exactly at distance 0.
   */
  lemma RankByDistance(d: Direction, a: TState, b: TState)
    ensures Rank(d, a) - Rank(d, b) == CellsToEdge(d, a) - CellsToEdge(d, b)
    ensures InGrid(CellOfState(a)) ==> (AtBoundary(d, a.row, a.col) <==> CellsToEdge(d, a) == 0)
  {
  }

  /** The neighbour a tile looks up always sorts before it: tiles nearest the target edge go first. */
  lemma NeighbourRanksFirst(d: Direction, t: TState, n: TState)
    requires CellOfState(n) == NextCell(d, t.row, t.col)
    ensures Rank(d, n) < Rank(d, t)
  {
  }

  /**
   * What holds of every tile on the board during a gesture in direction d:
   * inside the grid, aligned on the cross axis, and on the travel axis
   * inside the span that `set_pos`'s rounding maps to its cell.
   */
  predicate TileInv(d: Direction, s: TState) {
    InGrid(CellOfState(s)) &&
    match d
    case Left => s.y == s.row * RECT_HEIGHT && s.col * RECT_WIDTH - RECT_WIDTH < s.x <= s.col * RECT_WIDTH
    case Right => s.y == s.row * RECT_HEIGHT && s.col * RECT_WIDTH <= s.x < s.col * RECT_WIDTH + RECT_WIDTH
    case Up => s.x == s.col * RECT_WIDTH && s.row * RECT_HEIGHT - RECT_HEIGHT < s.y <= s.row * RECT_HEIGHT
    case Down => s.x == s.col * RECT_WIDTH && s.row * RECT_HEIGHT <= s.y < s.row * RECT_HEIGHT + RECT_HEIGHT
  }

  /** Pixels left before the tile would pass the target edge's far side. */
  function Progress(d: Direction, s: TState): int {
    match d
    case Left => s.x + RECT_WIDTH
    case Right => WIDTH - s.x
    case Up => s.y + RECT_HEIGHT
    case Down => HEIGHT - s.y
  }

  /**
   * One slide step as the frame loop performs it: move, then recompute the
   * cell. The value and the cross-axis position stay, the tile comes one
   * step closer to the target edge, and its cell is the one `set_pos`
   * computes for its new position.
   */
  function Slid(d: Direction, s: TState): (r: TState)
    ensures r.value == s.value
    ensures if Horizontal(d) then r.y == s.y else r.x == s.x
    ensures Progress(d, r) == Progress(d, s) - MOVE_VEL
    ensures Snapped(r, Ceil(d)) == r
  {
    Snapped(Moved(s, Delta(d)), Ceil(d))
  }

  lemma OnCellTileInv(d: Direction, s: TState)
    requires OnCell(s) && InGrid(CellOfState(s))
    ensures TileInv(d, s)
  {
  }

  lemma ProgressPositive(d: Direction, s: TState)
    requires TileInv(d, s)
    ensures Progress(d, s) > 0
  {
  }

  /**
   * A tile off the target edge that slides one step stays inside the
   * invariant, keeps its value, and loses exactly one step of progress.
   */
  lemma SlideStep(d: Direction, s: TState)
    requires TileInv(d, s) && !AtBoundary(d, s.row, s.col)
    ensures TileInv(d, Slid(d, s))
    ensures Slid(d, s).value == s.value
    ensures Progress(d, Slid(d, s)) == Progress(d, s) - MOVE_VEL
  {
    match d
    case Left => SlideLeft(s);
    case Right => SlideRight(s);
    case Up => SlideUp(s);
    case Down => SlideDown(s);
  }

  lemma SlideLeft(s: TState)
    requires TileInv(Left, s) && !AtBoundary(Left, s.row, s.col)
    ensures TileInv(Left, Slid(Left, s))
    ensures Progress(Left, Slid(Left, s)) == Progress(Left, s) - MOVE_VEL
  {
    assert RECT_WIDTH == 200 && RECT_HEIGHT == 200;
    var m := Moved(s, Delta(Left));
    CellIndexUnique(m.y, RECT_HEIGHT, true, s.row);
    var c := CellIndex(m.x, RECT_WIDTH, true);
    assert 200 * c - 200 < s.x - 20 <= 200 * c;
  }

  lemma SlideRight(s: TState)
    requires TileInv(Right, s) && !AtBoundary(Right, s.row, s.col)
    ensures TileInv(Right, Slid(Right, s))
    ensures Progress(Right, Slid(Right, s)) == Progress(Right, s) - MOVE_VEL
  {
    assert RECT_WIDTH == 200 && RECT_HEIGHT == 200;
    var m := Moved(s, Delta(Right));
    CellIndexUnique(m.y, RECT_HEIGHT, false, s.row);
    var c := CellIndex(m.x, RECT_WIDTH, false);
    assert 200 * c <= s.x + 20 < 200 * c + 200;
  }

  lemma SlideUp(s: TState)
    requires TileInv(Up, s) && !AtBoundary(Up, s.row, s.col)
    ensures TileInv(Up, Slid(Up, s))
    ensures Progress(Up, Slid(Up, s)) == Progress(Up, s) - MOVE_VEL
  {
    assert RECT_WIDTH == 200 && RECT_HEIGHT == 200;
    var m := Moved(s, Delta(Up));
    CellIndexUnique(m.x, RECT_WIDTH, true, s.col);
    var c := CellIndex(m.y, RECT_HEIGHT, true);
    assert 200 * c - 200 < s.y - 20 <= 200 * c;
  }

  lemma SlideDown(s: TState)
    requires TileInv(Down, s) && !AtBoundary(Down, s.row, s.col)
    ensures TileInv(Down, Slid(Down, s))
    ensures Progress(Down, Slid(Down, s)) == Progress(Down, s) - MOVE_VEL
  {
    assert RECT_WIDTH == 200 && RECT_HEIGHT == 200;
    var m := Moved(s, Delta(Down));
    CellIndexUnique(m.x, RECT_WIDTH, false, s.col);
    var c := CellIndex(m.y, RECT_HEIGHT, false);
    assert 200 * c <= s.y + 20 < 200 * c + 200;
  }

  /**
   * A tile sliding from a cell corner keeps its old cell until it lands
   * exactly on the next cell, ten steps later.
   */
  lemma SlideKeepsCellUntilLanding(d: Direction, s: TState, k: int)
    requires OnCell(s) && 0 <= k <= RECT_WIDTH / MOVE_VEL
    ensures var p := Snapped(s.(x := s.x + k * Delta(d).dx, y := s.y + k * Delta(d).dy), Ceil(d));
            CellOfState(p) == if k == RECT_WIDTH / MOVE_VEL then NextCell(d, s.row, s.col) else CellOfState(s)
  {
    assert RECT_WIDTH == 200 && RECT_HEIGHT == 200;
    var ceil := Ceil(d);
    var n := if k == RECT_WIDTH / MOVE_VEL then NextCell(d, s.row, s.col) else CellOfState(s);
    var q := s.(x := s.x + k * Delta(d).dx, y := s.y + k * Delta(d).dy);
    CellIndexUnique(q.y, RECT_HEIGHT, ceil, n.0);
    CellIndexUnique(q.x, RECT_WIDTH, ceil, n.1);
  }
}
