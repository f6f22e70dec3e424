// The game's fixed geometry and the Tile record of main.py: a value with a
// discrete grid cell (row, col) and a pixel position (x, y).

module Tiles {

  const WIDTH := 800
  const HEIGHT := 800
  const ROWS := 4
  const COLS := 4
  /** `HEIGHT // ROWS` and `WIDTH // COLS`, written out (CellSize). */
  const RECT_HEIGHT := 200
  const RECT_WIDTH := 200
  /** Pixels a tile travels per animation frame. */
  const MOVE_VEL := 20

  lemma CellSize()
    ensures RECT_HEIGHT == HEIGHT / ROWS && RECT_WIDTH == WIDTH / COLS
  {
  }

  /** A grid coordinate, (row, col). */
  type Cell = (int, int)

  /** A velocity vector in pixels. */
  datatype Vec = Vec(dx: int, dy: int)

  /** The fields of a Tile at one instant. */
  datatype TState = TState(value: int, row: int, col: int, x: int, y: int)

  datatype Option<T> = None | Some(value: T)

  /** An RGB colour. */
  type Rgb = (int, int, int)

  predicate InGrid(c: Cell) {
    0 <= c.0 < ROWS && 0 <= c.1 < COLS
  }

  /** All cells of the board. */
  const GRID: set<Cell> := {
    (0, 0), (0, 1), (0, 2), (0, 3),
    (1, 0), (1, 1), (1, 2), (1, 3),
    (2, 0), (2, 1), (2, 2), (2, 3),
    (3, 0), (3, 1), (3, 2), (3, 3)
  }

  lemma GridIsTheBoard()
    ensures forall c :: c in GRID <==> InGrid(c)
  {
  }

  lemma GridSize()
    ensures |GRID| == ROWS * COLS
  {
  }

  /** The cell a tile occupies. */
  function CellOfState(s: TState): Cell {
    (s.row, s.col)
  }

  /** A tile whose pixel position is exactly the corner of its cell. */
  predicate OnCell(s: TState) {
    s.x == s.col * RECT_WIDTH && s.y == s.row * RECT_HEIGHT
  }

  /**
   * Pixel coordinate to cell index, `math.ceil(p / size)` or
   * `math.floor(p / size)`: the cell is the one whose span, closed on the
   * rounding side, contains p.
   */
  function CellIndex(p: int, size: int, ceil: bool): (c: int)
    requires size > 0
    ensures ceil ==> size * c - size < p <= size * c
    ensures !ceil ==> size * c <= p < size * c + size
  {
    if ceil then -((-p) / size) else p / size
  }

  /** The bracket property of CellIndex determines it. */
  lemma CellIndexUnique(p: int, size: int, ceil: bool, c: int)
    requires size > 0
    requires ceil ==> size * c - size < p <= size * c
    requires !ceil ==> size * c <= p < size * c + size
    ensures CellIndex(p, size, ceil) == c
  {
    var r := CellIndex(p, size, ceil);
    if r < c {
      MulMono(size, r + 1, c);
    } else if r > c {
      MulMono(size, c + 1, r);
    }
  }

  lemma MulMono(size: int, a: int, b: int)
    requires size > 0 && a <= b
    ensures size * a <= size * b
  {
  }

  /** `Tile.move`: add the velocity to the pixel position. */
  function Moved(s: TState, delta: Vec): TState {
    s.(x := s.x + delta.dx, y := s.y + delta.dy)
  }

  /** `Tile.set_pos`: recompute the cell from the pixel position. */
  function Snapped(s: TState, ceil: bool): TState {
    s.(row := CellIndex(s.y, RECT_HEIGHT, ceil), col := CellIndex(s.x, RECT_WIDTH, ceil))
  }

  /** On a cell-aligned position both roundings give back the tile's own cell. */
  lemma SnapOnCell(s: TState, ceil: bool)
    requires OnCell(s)
    ensures Snapped(s, ceil) == s
  {
    CellIndexUnique(s.y, RECT_HEIGHT, ceil, s.row);
    CellIndexUnique(s.x, RECT_WIDTH, ceil, s.col);
  }

  function Pow2(k: nat): (r: int)
    ensures r >= 1
  {
    if k == 0 then 1 else 2 * Pow2(k - 1)
  }

  ghost predicate IsPow2(v: int) {
    exists k: nat :: Pow2(k) == v
  }

  /** `int(math.log2(n))` for n >= 1. */
  function Log2Floor(n: int): (k: nat)
    requires n >= 1
    ensures Pow2(k) <= n < 2 * Pow2(k)
  {
    if n == 1 then 0 else 1 + Log2Floor(n / 2)
  }

  lemma {:induction false} Log2OfPow2(k: nat)
    ensures Log2Floor(Pow2(k)) == k
  {
    if k > 0 {
      assert Pow2(k) / 2 == Pow2(k - 1);
      Log2OfPow2(k - 1);
    }
  }

  lemma {:induction false} Pow2Mono(j: nat, k: nat)
    requires j <= k
    ensures Pow2(j) <= Pow2(k)
  {
    if j < k {
      Pow2Mono(j, k - 1);
    }
  }

  /** `Tile.COLORS`. */
  const PALETTE: seq<Rgb> := [
    (237, 229, 218),
    (238, 225, 201),
    (243, 178, 122),
    (246, 150, 101),
    (247, 124, 95),
    (247, 95, 59),
    (237, 208, 115),
    (237, 204, 99),
    (236, 202, 80)
  ]

  /**
   * `Tile.get_colour`: palette slot `int(log2(value)) - 1`. None stands for
   * the exceptions Python raises: `math.log2` of a non-positive value, and
   * an index past the end of the palette. Index -1 (value 1) reads the last
   * entry, as Python's negative indexing does.
   */
  function ColourOf(value: int): (c: Option<Rgb>)
    ensures c.Some? <==> 1 <= value < Pow2(|PALETTE| + 1)
    ensures c.Some? ==> c.value in PALETTE
  {
    if value <= 0 then None
    else
      var i := Log2Floor(value) - 1;
      if i < 0 then Some(PALETTE[|PALETTE| + i])
      else if i < |PALETTE| then
        Pow2Mono(i + 2, |PALETTE| + 1);
        Some(PALETTE[i])
      else
        Pow2Mono(|PALETTE| + 1, i + 1);
        None
  }

  /**
   * Value 2^k takes palette slot k - 1, which exists exactly for
   * 2 <= value <= 512; value 1 wraps to the last slot.
   */
  lemma ColourOfPow2(k: nat)
    ensures ColourOf(Pow2(k)) ==
      if k == 0 then Some(PALETTE[|PALETTE| - 1])
      else if k <= |PALETTE| then Some(PALETTE[k - 1])
      else None
    ensures 1 <= k <= |PALETTE| <==> 2 <= Pow2(k) <= 512
  {
    Log2OfPow2(k);
    assert Pow2(9) == 512;
    if k < 1 {
    } else if k <= 9 {
      Pow2Mono(1, k);
      Pow2Mono(k, 9);
    } else {
      Pow2Mono(10, k);
    }
  }

  class Tile {
    var value: int
    var row: int
    var col: int
    var x: int
    var y: int

    /** `Tile(value, row, col)` starts on the corner of its cell. */
    constructor (value: int, row: int, col: int)
      ensures State() == TState(value, row, col, col * RECT_WIDTH, row * RECT_HEIGHT)
      ensures OnCell(State())
    {
      this.value := value;
      this.row := row;
      this.col := col;
      this.x := col * RECT_WIDTH;
      this.y := row * RECT_HEIGHT;
    }

    function State(): TState
      reads this
    {
      TState(value, row, col, x, y)
    }

    function Colour(): (c: Option<Rgb>)
      reads this
      ensures c.Some? <==> 1 <= value < 1024
    {
      assert Pow2(10) == 1024;
      ColourOf(value)
    }

    /** Adds the velocity to the pixel position; value and cell stay. */
    method Move(delta: Vec)
      modifies this
      ensures State() == Moved(old(State()), delta)
    {
      x := x + delta.dx;
      y := y + delta.dy;
    }

    /** Recomputes the cell from the pixel position. */
    method SetPos(ceil: bool)
      modifies this
      ensures State() == Snapped(old(State()), ceil)
    {
      if ceil {
        row := -((-y) / RECT_HEIGHT);
        col := -((-x) / RECT_WIDTH);
      } else {
        row := y / RECT_HEIGHT;
        col := x / RECT_WIDTH;
      }
    }
  }
}
