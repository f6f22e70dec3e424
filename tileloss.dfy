// Two boards on which `move_tiles` (main.py:161-192) loses a tile that never
// merged: two tiles end a frame on one cell and `update_tiles`
// (main.py:205-208) keeps only the later one. Both start from tiles
// aligned on their cells, as `generate_tiles` and `end_move` leave them.

module TileLoss {
  import opened Tiles
  import opened Directions
  import opened Sorting
  import opened Frames
  import opened Gestures

  /** A tile of the given value on row `row`, cell column `col`, at pixel x. */
  function OnRow(value: int, row: int, col: int, x: int): TState {
    TState(value, row, col, x, row * RECT_HEIGHT)
  }

  /** A left slide moves the tile 20 pixels and rounds x up to its new column. */
  lemma SlideLeftTo(value: int, row: int, col: int, x: int, col': int)
    requires RECT_WIDTH * col' - RECT_WIDTH < x - MOVE_VEL <= RECT_WIDTH * col'
    ensures Slid(Left, OnRow(value, row, col, x)) == OnRow(value, row, col', x - MOVE_VEL)
  {
    CellIndexUnique(row * RECT_HEIGHT, RECT_HEIGHT, true, row);
    CellIndexUnique(x - MOVE_VEL, RECT_WIDTH, true, col');
  }

  /** The fields of three distinct tiles. */
  function Fields(f: Tile, a: Tile, b: Tile, sf: TState, sa: TState, sb: TState): map<Tile, TState> {
    map[f := sf, a := sa, b := sb]
  }

  lemma FieldsUpdate(f: Tile, a: Tile, b: Tile, sf: TState, sa: TState, sb: TState, s: TState)
    requires f != a && a != b && f != b
    ensures Fields(f, a, b, sf, sa, sb)[f := s] == Fields(f, a, b, s, sa, sb)
    ensures Fields(f, a, b, sf, sa, sb)[a := s] == Fields(f, a, b, sf, s, sb)
    ensures Fields(f, a, b, sf, sa, sb)[b := s] == Fields(f, a, b, sf, sa, s)
  {
  }

  // ---------------------------------------------------------------------
  // Row 0 holds 4, 2, 2 in columns 1, 2, 3, moved left. No tile merges
  // before the loss, so the skip after a pop plays no part in it: the
  // first 2 waits one frame behind the moving 4 (`move_check` is strict),
  // the second 2 closes up to 180 pixels behind it, and at the end of the
  // tenth frame both 2s round up into column 2.
  // ---------------------------------------------------------------------

  /** The board keying the three tiles on columns 1, 2 and 3 of row 0. */
  function Slots(f: Tile, a: Tile, b: Tile): Dict {
    Dict([(0, 1), (0, 2), (0, 3)], Snap(f, a, b))
  }

  /** The cells of that board, as the frame's snapshot sees them. */
  function Snap(f: Tile, a: Tile, b: Tile): map<Cell, Tile> {
    map[(0, 1) := f, (0, 2) := a, (0, 3) := b]
  }

  /** The row with the 4 at x = fx, the first 2 at ax and the second 2 at bx. */
  function Trio(f: Tile, a: Tile, b: Tile, fx: int, ax: int, bx: int): Game {
    Game(Slots(f, a, b),
         Fields(f, a, b, OnRow(4, 0, 1, fx), OnRow(2, 0, 2, ax), OnRow(2, 0, 3, bx)))
  }

  lemma TrioOk(f: Tile, a: Tile, b: Tile, fx: int, ax: int, bx: int)
    requires f != a && a != b && f != b
    requires 0 < fx <= 200 && 200 < ax <= 400 && 400 < bx <= 600
    ensures GestureOk(Left, Trio(f, a, b, fx, ax, bx))
    ensures Values(Trio(f, a, b, fx, ax, bx).board) == [f, a, b]
    ensures Covers([f, a, b], Trio(f, a, b, fx, ax, bx))
  {
    var g := Trio(f, a, b, fx, ax, bx);
    assert Values(g.board) == [f, a, b];
  }

  /** The order of the row needs no sorting. */
  lemma TrioSorted(f: Tile, a: Tile, b: Tile, fx: int, ax: int, bx: int)
    requires f != a && a != b && f != b
    ensures StableSort(Left, [f, a, b], Trio(f, a, b, fx, ax, bx).tiles) == [f, a, b]
  {
    var st := Trio(f, a, b, fx, ax, bx).tiles;
    assert Sorted(Left, st, [f, a, b]);
    SortOfSorted(Left, [f, a, b], st);
  }

  /** The 4, with no tile to its left, slides into column `fc`. */
  lemma FourSlides(f: Tile, a: Tile, b: Tile, fx: int, fc: int, fx': int, sa: TState, sb: TState)
    requires f != a && a != b && f != b
    requires fx' == fx - MOVE_VEL && RECT_WIDTH * fc - RECT_WIDTH < fx' <= RECT_WIDTH * fc
    ensures var snap, st, st' := Snap(f, a, b), Fields(f, a, b, OnRow(4, 0, 1, fx), sa, sb), Fields(f, a, b, OnRow(4, 0, fc, fx'), sa, sb);
      Backed(snap, st) && Known([f, a, b], st) && Backed(snap, st') && Known([f, a, b], st') &&
      Pass(Left, snap, [f, a, b], 0, st, {}, false) == Pass(Left, snap, [f, a, b], 1, st', {}, true)
  {
    var snap, sf, sf' := Snap(f, a, b), OnRow(4, 0, 1, fx), OnRow(4, 0, fc, fx');
    SlideLeftTo(4, 0, 1, fx, fc);
    FieldsUpdate(f, a, b, sf, sa, sb, sf');
    PassSlide(Left, snap, [f, a, b], 0, Fields(f, a, b, sf, sa, sb), {}, false);
  }

  /**
   * The first 2, behind the 4 of another value, slides only when more than
   * a cell and a step behind it, and stays in column 2.
   */
  lemma FirstTwoFollows(f: Tile, a: Tile, b: Tile, sf: TState, ax: int, ax': int, sb: TState)
    requires f != a && a != b && f != b
    requires sf.value == 4 && ax' == (if ax > sf.x + 220 then ax - MOVE_VEL else ax) && 200 < ax' <= 400
    ensures var snap, st, st' := Snap(f, a, b), Fields(f, a, b, sf, OnRow(2, 0, 2, ax), sb), Fields(f, a, b, sf, OnRow(2, 0, 2, ax'), sb);
      Backed(snap, st) && Known([f, a, b], st) && Backed(snap, st') && Known([f, a, b], st') &&
      Pass(Left, snap, [f, a, b], 1, st, {}, true) == Pass(Left, snap, [f, a, b], 2, st', {}, true)
  {
    var snap, sa, sa' := Snap(f, a, b), OnRow(2, 0, 2, ax), OnRow(2, 0, 2, ax');
    FieldsUpdate(f, a, b, sf, sa, sb, sa');
    if ax > sf.x + 220 {
      SlideLeftTo(2, 0, 2, ax, 2);
      PassSlide(Left, snap, [f, a, b], 1, Fields(f, a, b, sf, sa, sb), {}, true);
    } else {
      PassStay(Left, snap, [f, a, b], 1, Fields(f, a, b, sf, sa, sb), {}, true);
    }
  }

  /** The second 2, more than a step behind the equal first 2, slides into column `bc`. */
  lemma SecondTwoSlides(f: Tile, a: Tile, b: Tile, sf: TState, ax: int, bx: int, bc: int, bx': int)
    requires f != a && a != b && f != b
    requires bx > ax + MOVE_VEL && bx' == bx - MOVE_VEL && RECT_WIDTH * bc - RECT_WIDTH < bx' <= RECT_WIDTH * bc
    ensures var snap, st, st' := Snap(f, a, b), Fields(f, a, b, sf, OnRow(2, 0, 2, ax), OnRow(2, 0, 3, bx)),
                                 Fields(f, a, b, sf, OnRow(2, 0, 2, ax), OnRow(2, 0, bc, bx'));
      Backed(snap, st) && Known([f, a, b], st) && Backed(snap, st') && Known([f, a, b], st') &&
      Pass(Left, snap, [f, a, b], 2, st, {}, true) == Pass(Left, snap, [f, a, b], 3, st', {}, true)
  {
    var snap, sa, sb, sb' := Snap(f, a, b), OnRow(2, 0, 2, ax), OnRow(2, 0, 3, bx), OnRow(2, 0, bc, bx');
    SlideLeftTo(2, 0, 3, bx, bc);
    FieldsUpdate(f, a, b, sf, sa, sb, sb');
    PassSlide(Left, snap, [f, a, b], 2, Fields(f, a, b, sf, sa, sb), {}, true);
  }

  /**
   * One pass over the row, in its sorted order: the 4 slides, into column
   * `fc`; the first 2 slides only when more than a cell and a step behind
   * the 4's new position (it stays in column 2); the second 2, more than a
   * step behind the first, slides, into column `bc`.
   */
  lemma TrioPass(f: Tile, a: Tile, b: Tile, fx: int, ax: int, bx: int, fc: int, bc: int, fx': int, ax': int, bx': int)
    requires f != a && a != b && f != b
    requires fx' == fx - MOVE_VEL && ax' == (if ax > fx + 200 then ax - MOVE_VEL else ax) && bx' == bx - MOVE_VEL
    requires RECT_WIDTH * fc - RECT_WIDTH < fx' <= RECT_WIDTH * fc
    requires 200 < ax' <= 400 && bx > ax' + 20 && RECT_WIDTH * bc - RECT_WIDTH < bx' <= RECT_WIDTH * bc
    ensures var g := Trio(f, a, b, fx, ax, bx);
      Pass(Left, g.board.entries, [f, a, b], 0, g.tiles, {}, false) ==
      PassResult([f, a, b], Fields(f, a, b, OnRow(4, 0, fc, fx'), OnRow(2, 0, 2, ax'), OnRow(2, 0, bc, bx')), {}, true)
  {
    var sf', sb := OnRow(4, 0, fc, fx'), OnRow(2, 0, 3, bx);
    FourSlides(f, a, b, fx, fc, fx', OnRow(2, 0, 2, ax), sb);
    FirstTwoFollows(f, a, b, sf', ax, ax', sb);
    SecondTwoSlides(f, a, b, sf', ax', bx, bc, bx');
  }

  /** The sort leaves the row as it is, and the pass then goes as TrioPass says. */
  lemma TrioSortPass(f: Tile, a: Tile, b: Tile, fx: int, ax: int, bx: int, fc: int, bc: int, fx': int, ax': int, bx': int)
    requires f != a && a != b && f != b
    requires 0 < fx <= 200 && 200 < ax <= 400 && 400 < bx <= 600
    requires fx' == fx - MOVE_VEL && ax' == (if ax > fx + 200 then ax - MOVE_VEL else ax) && bx' == bx - MOVE_VEL
    requires RECT_WIDTH * fc - RECT_WIDTH < fx' <= RECT_WIDTH * fc
    requires 200 < ax' <= 400 && bx > ax' + 20 && RECT_WIDTH * bc - RECT_WIDTH < bx' <= RECT_WIDTH * bc
    ensures var g := Trio(f, a, b, fx, ax, bx);
      GameOk(g) &&
      Pass(Left, g.board.entries, StableSort(Left, Values(g.board), g.tiles), 0, g.tiles, {}, false) ==
      PassResult([f, a, b], Fields(f, a, b, OnRow(4, 0, fc, fx'), OnRow(2, 0, 2, ax'), OnRow(2, 0, bc, bx')), {}, true)
  {
    var g := Trio(f, a, b, fx, ax, bx);
    assert GameOk(g) && Values(g.board) == [f, a, b] by {
      TrioOk(f, a, b, fx, ax, bx);
    }
    assert StableSort(Left, [f, a, b], g.tiles) == [f, a, b] by {
      TrioSorted(f, a, b, fx, ax, bx);
    }
    TrioPass(f, a, b, fx, ax, bx, fc, bc, fx', ax', bx');
  }

  lemma Appends<T>(x: T, y: T, z: T)
    ensures [] + [x] == [x] && [x] + [y] == [x, y] && [x, y] + [z] == [x, y, z]
  {
  }

  /** `update_tiles` over three tiles: three writes in list order. */
  lemma RebuildThree(x: Tile, y: Tile, z: Tile, st: map<Tile, TState>)
    requires x in st && y in st && z in st
    ensures Rebuild([x, y, z], st) ==
      Put(Put(Put(Dict([], map[]), CellOfState(st[x]), x), CellOfState(st[y]), y), CellOfState(st[z]), z)
  {
    Appends(x, y, z);
    RebuildSnoc([], x, st);
    RebuildSnoc([x], y, st);
    RebuildSnoc([x, y], z, st);
  }

  /** Three writes to distinct cells of an empty dict. */
  lemma PutThree(k1: Cell, k2: Cell, k3: Cell, x: Tile, y: Tile, z: Tile)
    requires k1 != k2 && k2 != k3 && k1 != k3
    ensures Put(Put(Put(Dict([], map[]), k1, x), k2, y), k3, z) == Dict([k1, k2, k3], map[k1 := x, k2 := y, k3 := z])
  {
  }

  /** Three writes to an empty dict whose last two share a cell: the third overwrites the second. */
  lemma PutOver(k1: Cell, k2: Cell, x: Tile, y: Tile, z: Tile)
    requires k1 != k2
    ensures Put(Put(Put(Dict([], map[]), k1, x), k2, y), k2, z) == Dict([k1, k2], map[k1 := x, k2 := z])
  {
  }

  /** `update_tiles` keys the three tiles back on columns 1, 2 and 3. */
  lemma RebuildSlots(f: Tile, a: Tile, b: Tile, sf: TState, sa: TState, sb: TState)
    requires f != a && a != b && f != b
    requires CellOfState(sf) == (0, 1) && CellOfState(sa) == (0, 2) && CellOfState(sb) == (0, 3)
    ensures Rebuild([f, a, b], Fields(f, a, b, sf, sa, sb)) == Slots(f, a, b)
  {
    RebuildThree(f, a, b, Fields(f, a, b, sf, sa, sb));
    PutThree((0, 1), (0, 2), (0, 3), f, a, b);
  }

  /** A frame whose sort and pass keep the order and merge nothing. */
  lemma FrameOfPass(d: Direction, g: Game, order: seq<Tile>, st: map<Tile, TState>, b: Dict)
    requires GameOk(g)
    requires Pass(d, g.board.entries, StableSort(d, Values(g.board), g.tiles), 0, g.tiles, {}, false) == PassResult(order, st, {}, true)
    requires Rebuild(order, st) == b
    ensures Frame(d, g, {}) == FrameResult(Game(b, st), {}, true)
  {
  }

  /** One frame while all three stay in their columns. */
  lemma TrioFrame(f: Tile, a: Tile, b: Tile, fx: int, ax: int, bx: int, fx': int, ax': int, bx': int)
    requires f != a && a != b && f != b
    requires 20 < fx <= 200 && 200 < ax <= 400 && 420 < bx <= 600
    requires fx' == fx - MOVE_VEL && ax' == (if ax > fx + 200 then ax - MOVE_VEL else ax) && bx' == bx - MOVE_VEL
    requires 200 < ax' && bx > ax' + 20
    ensures GameOk(Trio(f, a, b, fx, ax, bx))
    ensures Frame(Left, Trio(f, a, b, fx, ax, bx), {}) == FrameResult(Trio(f, a, b, fx', ax', bx'), {}, true)
  {
    var sf, sa, sb := OnRow(4, 0, 1, fx'), OnRow(2, 0, 2, ax'), OnRow(2, 0, 3, bx');
    TrioSortPass(f, a, b, fx, ax, bx, 1, 3, fx', ax', bx');
    RebuildSlots(f, a, b, sf, sa, sb);
    FrameOfPass(Left, Trio(f, a, b, fx, ax, bx), [f, a, b], Fields(f, a, b, sf, sa, sb), Slots(f, a, b));
  }

  /** The fields at the end of the tenth frame. */
  function Collided(f: Tile, a: Tile, b: Tile): map<Tile, TState> {
    Fields(f, a, b, OnRow(4, 0, 0, 0), OnRow(2, 0, 2, 220), OnRow(2, 0, 2, 400))
  }

  /** The board at the end of the tenth frame: the second 2 holds the cell of the first. */
  function CollidedBoard(f: Tile, b: Tile): Dict {
    Dict([(0, 0), (0, 2)], map[(0, 0) := f, (0, 2) := b])
  }

  /** `update_tiles` writes the second 2 over the first. */
  lemma RebuildCollided(f: Tile, a: Tile, b: Tile)
    requires f != a && a != b && f != b
    ensures Rebuild([f, a, b], Collided(f, a, b)) == CollidedBoard(f, b)
  {
    RebuildThree(f, a, b, Collided(f, a, b));
    PutOver((0, 0), (0, 2), f, a, b);
  }

  lemma CollidedValues(f: Tile, b: Tile)
    ensures Values(CollidedBoard(f, b)) == [f, b]
  {
    assert Values(CollidedBoard(f, b)) == [f, b];
  }

  /**
   * The tenth frame: the 4 reaches column 0; the first 2, more than a cell
   * and a step behind it, slides to x = 220; the second 2, more than a step
   * behind the first, slides to x = 400; both round up to column 2, and the
   * board keeps only the second.
   */
  lemma TrioCollide(f: Tile, a: Tile, b: Tile)
    requires f != a && a != b && f != b
    ensures GameOk(Trio(f, a, b, 20, 240, 420))
    ensures Frame(Left, Trio(f, a, b, 20, 240, 420), {}) == FrameResult(Game(CollidedBoard(f, b), Collided(f, a, b)), {}, true)
  {
    TrioSortPass(f, a, b, 20, 240, 420, 0, 2, 0, 220, 400);
    RebuildCollided(f, a, b);
    FrameOfPass(Left, Trio(f, a, b, 20, 240, 420), [f, a, b], Collided(f, a, b), CollidedBoard(f, b));
  }

  /** A frame that moves something hands the gesture on to the frame after it. */
  lemma SettleStep(d: Direction, g: Game, U: seq<Tile>, g2: Game)
    requires GestureOk(d, g) && Covers(U, g)
    requires Frame(d, g, {}) == FrameResult(g2, {}, true)
    ensures GestureOk(d, g2) && Covers(U, g2)
    ensures SettleWithin(d, g, {}, U) == SettleWithin(d, g2, {}, U)
  {
    FrameProgress(d, g, {}, U);
  }

  /** The gesture played out from the row. */
  ghost function SettleTrio(f: Tile, a: Tile, b: Tile, fx: int, ax: int, bx: int): Settled
    requires f != a && a != b && f != b
    requires 0 < fx <= 200 && 200 < ax <= 400 && 400 < bx <= 600
  {
    TrioOk(f, a, b, fx, ax, bx);
    SettleWithin(Left, Trio(f, a, b, fx, ax, bx), {}, [f, a, b])
  }

  /** One frame of the row 4, 2, 2 with the 4 at x = c moves all three by 20. */
  lemma TrioStep(f: Tile, a: Tile, b: Tile, c: int, c': int)
    requires f != a && a != b && f != b
    requires 20 < c <= 180 && c' == c - 20
    ensures SettleTrio(f, a, b, c, c + 220, c + 400) == SettleTrio(f, a, b, c', c' + 220, c' + 400)
  {
    var g, g' := Trio(f, a, b, c, c + 220, c + 400), Trio(f, a, b, c', c' + 220, c' + 400);
    TrioOk(f, a, b, c, c + 220, c + 400);
    TrioOk(f, a, b, c', c' + 220, c' + 400);
    TrioFrame(f, a, b, c, c + 220, c + 400, c', c' + 220, c' + 400);
    SettleStep(Left, g, [f, a, b], g');
  }

  /** Frames 2 to 9: each moves all three tiles by MOVE_VEL, the 4 from x = 180 down to x = 20. */
  lemma TrioGlides(f: Tile, a: Tile, b: Tile)
    requires f != a && a != b && f != b
    ensures SettleTrio(f, a, b, 180, 400, 580) == SettleTrio(f, a, b, 20, 240, 420)
  {
    TrioStep(f, a, b, 180, 160);
    TrioStep(f, a, b, 160, 140);
    TrioStep(f, a, b, 140, 120);
    TrioStep(f, a, b, 120, 100);
    TrioStep(f, a, b, 100, 80);
    TrioStep(f, a, b, 80, 60);
    TrioStep(f, a, b, 60, 40);
    TrioStep(f, a, b, 40, 20);
  }

  /**
   * Moving the row 4, 2, 2 (columns 1 to 3, on their cells' corners) left
   * loses the first 2: it is on no cell of the settled board, although it
   * never merged.
   */
  lemma OvertakeLosesTile(f: Tile, a: Tile, b: Tile)
    requires f != a && a != b && f != b
    ensures var g := Trio(f, a, b, 200, 400, 600);
      GestureOk(Left, g) && Values(g.board) == [f, a, b] &&
      a !in Values(Settle(Left, g).game.board)
  {
    var g1, g9 := Trio(f, a, b, 180, 400, 580), Trio(f, a, b, 20, 240, 420);
    var g10 := Game(CollidedBoard(f, b), Collided(f, a, b));
    TrioOk(f, a, b, 200, 400, 600);
    TrioFrame(f, a, b, 200, 400, 600, 180, 400, 580);
    SettleStep(Left, Trio(f, a, b, 200, 400, 600), [f, a, b], g1);
    TrioGlides(f, a, b);
    TrioOk(f, a, b, 20, 240, 420);
    TrioCollide(f, a, b);
    SettleStep(Left, g9, [f, a, b], g10);
    SettleShrinks(Left, g10, {}, [f, a, b]);
    CollidedValues(f, b);
  }
}
