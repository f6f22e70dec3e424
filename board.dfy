// The `tiles` dict of main.py as an object that the game's functions update
// in place (main.py:108-219), each method proved against the value-level
// model of frames.dfy and settle.dfy.

module Boards {
  import opened Tiles
  import opened Directions
  import opened Sorting
  import opened Frames
  import opened Gestures

  /** What `end_move` returns. */
  datatype Outcome = Lost | Continue

  /** The fields of the tiles in ts, as the value-level model sees them. */
  function States(ts: set<Tile>): (m: map<Tile, TState>)
    reads ts
    ensures m.Keys == ts
  {
    map t | t in ts :: t.State()
  }

  /** Distinct keys inside the grid leave a free cell unless all sixteen are taken. */
  lemma KeysFit(b: Dict)
    requires DictOk(b) && forall k :: k in b.entries ==> InGrid(k)
    ensures |b.keys| <= ROWS * COLS
    ensures |b.keys| < ROWS * COLS ==> exists c :: c in GRID && c !in b.entries
  {
    var used := set k | k in b.keys;
    DistinctCard(b.keys);
    GridIsTheBoard();
    GridSize();
    assert used <= GRID;
    SubsetCard(used, GRID);
    if |b.keys| < ROWS * COLS {
      assert |GRID - used| > 0;
      var c :| c in GRID - used;
      assert c !in b.entries;
    }
  }

  lemma {:induction false} DistinctCard(s: seq<Cell>)
    requires Distinct(s)
    ensures |set k | k in s| == |s|
  {
    if s != [] {
      var rest := s[1..];
      DistinctCard(rest);
      assert (set k | k in s) == (set k | k in rest) + {s[0]};
      assert s[0] !in rest;
    }
  }

  lemma SubsetCard(a: set<Cell>, b: set<Cell>)
    requires a <= b
    ensures |a| <= |b| && |b - a| == |b| - |a|
  {
    assert b == a + (b - a);
  }

  lemma StatesAre(U: set<Tile>, st: map<Tile, TState>)
    requires st.Keys == U && forall u :: u in U ==> u.State() == st[u]
    ensures States(U) == st
  {
  }

  /**
   * The body of the frame's `for` loop for tile t (main.py:167-190) on the
   * tile objects: the source's chain of checks picks the step, then the
   * step is made. The checks read t and its neighbour before either is
   * changed, so making the move after the chain rather than inside it
   * changes nothing.
   */
  method Visit(d: Direction, snap: map<Cell, Tile>, t: Tile, blocks: set<Tile>, ghost U: set<Tile>)
    returns (step: Step)
    requires t in U && forall k :: k in snap ==> snap[k] in U
    modifies U
    ensures step == Decide(d, snap, old(States(U)), blocks, t)
    ensures States(U) == After(d, old(States(U)), t, step)
  {
    if AtBoundary(d, t.row, t.col) {
      return Stay;
    }
    var k := NextCell(d, t.row, t.col);
    if k !in snap {
      step := Slide;
    } else {
      var n := snap[k];
      if t.value == n.value && t !in blocks && n !in blocks {
        if MergeCheck(d, t.State(), n.State()) {
          step := Slide;
        } else {
          step := Absorb(n);
        }
      } else if MoveCheck(d, t.State(), n.State()) {
        step := Slide;
      } else {
        return Stay;
      }
    }
    Apply(d, t, step, U);
  }

  /**
   * A step other than Stay: `tile.move(delta)` for a slide, `next_tile.value
   * *= 2` for a merge, then `tile.set_pos(ceil)` either way.
   */
  method Apply(d: Direction, t: Tile, step: Step, ghost U: set<Tile>)
    requires t in U && step != Stay && (step.Absorb? ==> step.into in U)
    modifies U
    ensures States(U) == After(d, old(States(U)), t, step)
  {
    ghost var st := States(U);
    if step.Absorb? {
      step.into.value := step.into.value * 2;
    } else {
      t.Move(Delta(d));
    }
    t.SetPos(Ceil(d));
    StatesAre(U, After(d, st, t, step));
  }

  /**
   * The `for i, tile in enumerate(sorted_tiles)` loop of one frame on the
   * tile objects. Neighbours come from `snap`, the dict as it was when the
   * frame began; a merge pops the current tile from the list while the
   * index still advances. It does on the heap exactly what Pass describes.
   */
  method RunPass(d: Direction, snap: map<Cell, Tile>, sorted: seq<Tile>, blocks0: set<Tile>, ghost U: set<Tile>)
    returns (list: seq<Tile>, blocks: set<Tile>, updated: bool)
    requires forall k :: k in snap ==> snap[k] in U
    requires forall j :: 0 <= j < |sorted| ==> sorted[j] in U
    modifies U
    ensures var r := Pass(d, snap, sorted, 0, old(States(U)), blocks0, false);
      list == r.frame && blocks == r.blocks && updated == r.updated && States(U) == r.tiles
  {
    ghost var target := Pass(d, snap, sorted, 0, States(U), blocks0, false);
    list, blocks, updated := sorted, blocks0, false;
    var i := 0;
    while i < |list|
      invariant States(U).Keys == U && Backed(snap, States(U)) && Known(list, States(U))
      invariant Pass(d, snap, list, i, States(U), blocks, updated) == target
      decreases |list| - i
    {
      var t := list[i];
      PassVisit(d, snap, list, i, States(U), blocks, updated);
      var step := Visit(d, snap, t, blocks, U);
      list := Popped(list, i, step);
      if step.Absorb? {
        blocks := blocks + {step.into};
      }
      updated := updated || step != Stay;
      i := i + 1;
    }
  }

  /** One frame of SettleWithin, with the facts that keep the loop going. */
  lemma SettleUnfold(d: Direction, g: Game, blocks: set<Tile>, us: seq<Tile>)
    requires GestureOk(d, g) && Covers(us, g)
    ensures var r := Frame(d, g, blocks);
      GestureOk(d, r.game) && Covers(us, r.game) &&
      Sum(d, r.game, us) <= Sum(d, g, us) && (r.updated ==> Sum(d, r.game, us) < Sum(d, g, us)) &&
      SettleWithin(d, g, blocks, us) ==
        if r.updated then SettleWithin(d, r.game, r.blocks, us) else Settled(r.game, r.blocks)
  {
    FrameProgress(d, g, blocks, us);
  }

  /** During a gesture every key still names a cell of the grid. */
  lemma SettledInGrid(d: Direction, g: Game)
    requires GestureOk(d, g)
    ensures forall k :: k in g.board.entries ==> InGrid(k)
  {
    forall k | k in g.board.entries ensures InGrid(k) {
      var i :| 0 <= i < |g.board.keys| && g.board.keys[i] == k;
      assert TileInv(d, g.tiles[Values(g.board)[i]]);
    }
  }

  class Board {
    /** The dict's keys in insertion order. */
    var keys: seq<Cell>
    /** The dict's entries. */
    var entries: map<Cell, Tile>

    function Contents(): Dict
      reads this
    {
      Dict(keys, entries)
    }

    /** The dict together with the fields of the tiles it holds. */
    ghost function Model(): Game
      reads this, entries.Values
    {
      Game(Contents(), States(entries.Values))
    }

    /** The dict is well formed and every key is a cell of the grid. */
    ghost predicate InGridDict()
      reads this
    {
      DictOk(Contents()) && forall k :: k in entries ==> InGrid(k)
    }

    /**
     * Between moves: every tile sits exactly on the corner of its cell,
     * inside the grid, under that cell's key.
     */
    ghost predicate Valid()
      reads this, entries.Values
    {
      InGridDict() &&
      forall k :: k in entries ==> CellOfState(entries[k].State()) == k && OnCell(entries[k].State())
    }

    /** A valid dict is a consistent game that a gesture in any direction may start from. */
    lemma ValidGame(d: Direction)
      requires Valid()
      ensures GameOk(Model()) && GestureOk(d, Model())
    {
      var g := Model();
      forall i | 0 <= i < |g.board.keys| ensures TileInv(d, g.tiles[Values(g.board)[i]]) {
        var k := keys[i];
        OnCellTileInv(d, entries[k].State());
      }
    }

    /** `tiles[k] = t`: a new key goes to the end, an existing one keeps its place. */
    method Set(k: Cell, t: Tile)
      modifies this
      ensures Contents() == Put(old(Contents()), k, t)
    {
      if k !in entries {
        keys := keys + [k];
      }
      entries := entries[k := t];
    }

    /**
     * `get_random_pos`: a cell of the grid with no tile. The source draws
     * cells at random until one is free; the draw is a nondeterministic
     * choice here, and a free cell must exist for the draw to end.
     */
    method GetRandomPos() returns (c: Cell)
      requires InGridDict() && |keys| < ROWS * COLS
      ensures InGrid(c) && c !in entries
    {
      KeysFit(Contents());
      c :| c in GRID && c !in entries;
      GridIsTheBoard();
    }

    /**
     * `end_move`: a full board is lost and left alone; otherwise a new tile
     * of value 2 or 4 appears on a free cell, under a new key at the end.
     */
    method EndMove() returns (outcome: Outcome)
      requires InGridDict()
      modifies this
      ensures InGridDict()
      ensures |old(keys)| == ROWS * COLS ==> outcome == Lost && Contents() == old(Contents())
      ensures |old(keys)| != ROWS * COLS ==>
        outcome == Continue && Spawned(old(Contents())) && fresh(entries[keys[|old(keys)|]])
    {
      if |keys| == ROWS * COLS {
        return Lost;
      }
      KeysFit(Contents());
      var c := GetRandomPos();
      var v :| v in [2, 4];
      var t := new Tile(v, c.0, c.1);
      Set(c, t);
      return Continue;
    }

    /**
     * The dict is `before` plus one new tile of value 2 or 4, on the corner
     * of a grid cell that was free, under a key appended at the end.
     */
    ghost predicate Spawned(before: Dict)
      reads this, entries.Values
    {
      |keys| == |before.keys| + 1 && keys[..|before.keys|] == before.keys &&
      var c := keys[|before.keys|];
      InGrid(c) && c !in before.entries && c in entries &&
      entries == before.entries[c := entries[c]] &&
      entries[c].value in {2, 4} && OnCell(entries[c].State()) && CellOfState(entries[c].State()) == c
    }

    /**
     * `update_tiles`: empty the dict, then key every tile of the list by its
     * own cell, in list order.
     */
    method UpdateTiles(list: seq<Tile>, ghost st: map<Tile, TState>)
      requires forall j :: 0 <= j < |list| ==> list[j] in st && list[j].State() == st[list[j]]
      modifies this
      ensures Contents() == Rebuild(list, st)
    {
      keys := [];
      entries := map[];
      for j := 0 to |list|
        invariant Contents() == Rebuild(list[..j], st)
      {
        var t := list[j];
        assert list[..j + 1][..j] == list[..j];
        Set((t.row, t.col), t);
      }
      assert list[..|list|] == list;
    }

    /**
     * One iteration of `while updated` (main.py:162-192): sort the dict's
     * tiles, run the pass over them with the dict as it was, then rebuild
     * the dict from the pass's list. It does exactly what Frame describes.
     */
    method RunFrame(d: Direction, blocks: set<Tile>, ghost U: set<Tile>) returns (newBlocks: set<Tile>, updated: bool)
      requires GameOk(Game(Contents(), States(U)))
      modifies this, U
      ensures Frame(d, old(Game(Contents(), States(U))), blocks) ==
        FrameResult(Game(Contents(), States(U)), newBlocks, updated)
    {
      var sortedTiles := SortTiles(d, U);
      var list;
      list, newBlocks, updated := RunPass(d, entries, sortedTiles, blocks, U);
      UpdateTiles(list, States(U));
    }

    /**
     * `sorted(tiles.values(), key=sort_func, reverse=ascending_order)`, on
     * the tiles' fields as they are now.
     */
    method SortTiles(d: Direction, ghost U: set<Tile>) returns (sorted: seq<Tile>)
      requires GameOk(Game(Contents(), States(U)))
      ensures Known(Values(Contents()), States(U))
      ensures sorted == StableSort(d, Values(Contents()), States(U))
    {
      var vals := Values(Contents());
      var now := map t | t in vals :: t.State();
      sorted := StableSort(d, vals, now);
      SortCongruent(d, vals, now, States(U));
    }

    /**
     * `move_tiles`: the frames of the gesture, then `end_move`, whose answer
     * the source discards. The tiles start inside the grid, each within the
     * span that rounds to its cell (ValidGame: aligned tiles are).
     */
    method MoveTiles(d: Direction)
      requires GestureOk(d, Model())
      modifies this, entries.Values
      ensures var s := Settle(d, old(Model())).game;
        States(old(entries.Values)) == s.tiles && InGridDict() &&
        if |s.board.keys| == ROWS * COLS then Contents() == s.board
        else Spawned(s.board) && fresh(entries[keys[|s.board.keys|]])
    {
      ghost var U := entries.Values;
      Animate(d);
      ghost var g := Game(Contents(), States(U));
      SettledInGrid(d, g);
      var _ := EndMove();
      StatesAre(U, g.tiles);
    }

    /**
     * The `while updated` loop of `move_tiles` (main.py:161-192): frames of
     * sort, pass and rebuild until a frame moves nothing, exactly as Settle
     * describes them.
     */
    method Animate(d: Direction)
      requires GestureOk(d, Model())
      modifies this, entries.Values
      ensures var s := Settle(d, old(Model())).game;
        GestureOk(d, s) && s == Game(Contents(), States(old(entries.Values)))
    {
      ghost var U := entries.Values;
      ghost var g0 := Model();
      ghost var us := Values(g0.board);
      ghost var g := g0;
      var updated := true;
      var blocks: set<Tile> := {};
      while updated
        invariant g == Game(Contents(), States(U)) && GestureOk(d, g) && Covers(us, g)
        invariant updated ==> SettleWithin(d, g, blocks, us) == Settle(d, g0)
        invariant !updated ==> Settled(g, blocks) == Settle(d, g0)
        decreases Sum(d, g, us) + if updated then 1 else 0
      {
        SettleUnfold(d, g, blocks, us);
        blocks, updated := RunFrame(d, blocks, U);
        g := Game(Contents(), States(U));
      }
    }

    /**
     * `generate_tiles`: two tiles of value 2 on two different free cells,
     * each on the corner of its cell.
     */
    constructor Generate()
      ensures Valid() && |keys| == 2
      ensures forall k :: k in entries ==> fresh(entries[k]) && entries[k].value == 2
    {
      keys := [];
      entries := map[];
      new;
      for n := 0 to 2
        invariant Valid() && |keys| == n
        invariant forall k :: k in entries ==> fresh(entries[k]) && entries[k].value == 2
      {
        var c := GetRandomPos();
        var t := new Tile(2, c.0, c.1);
        Set(c, t);
      }
    }
  }
}
