// The `while updated` loop of `move_tiles` (main.py:161-192): frames are
// repeated until one of them changes nothing. The loop ends because every
// tile on the board has finitely many pixels left to travel toward the
// target edge, and a frame that reports a change either advances a tile a
// step or removes one from the board.

module Gestures {
  import opened Tiles
  import opened Directions
  import opened Sorting
  import opened Frames

  /**
   * Between the frames of a gesture in direction d: the dict keys every
   * tile by its own cell, and every tile on it is in the grid and on the
   * line it travels along.
   */
  ghost predicate GestureOk(d: Direction, g: Game) {
    GameOk(g) && forall i :: 0 <= i < |g.board.keys| ==> TileInv(d, g.tiles[Values(g.board)[i]])
  }

  /** Every tile on the board is one of U. */
  ghost predicate Covers(U: seq<Tile>, g: Game)
    requires GameOk(g)
  {
    forall u :: u in Values(g.board) ==> u in U
  }

  /** Pixels a tile on the board may still travel; nothing for a tile off it. */
  ghost function Weight(d: Direction, g: Game, u: Tile): nat
    requires GameOk(g)
  {
    if u in Values(g.board) && u in g.tiles && Progress(d, g.tiles[u]) > 0 then Progress(d, g.tiles[u]) else 0
  }

  ghost function Sum(d: Direction, g: Game, U: seq<Tile>): nat
    requires GameOk(g)
  {
    if U == [] then 0 else Weight(d, g, U[0]) + Sum(d, g, U[1..])
  }

  lemma {:induction false} SumLe(d: Direction, g1: Game, g2: Game, U: seq<Tile>)
    requires GameOk(g1) && GameOk(g2)
    requires forall u :: Weight(d, g2, u) <= Weight(d, g1, u)
    ensures Sum(d, g2, U) <= Sum(d, g1, U)
  {
    if U != [] {
      SumLe(d, g1, g2, U[1..]);
    }
  }

  lemma {:induction false} SumLt(d: Direction, g1: Game, g2: Game, U: seq<Tile>, u: Tile)
    requires GameOk(g1) && GameOk(g2)
    requires forall v :: Weight(d, g2, v) <= Weight(d, g1, v)
    requires u in U && Weight(d, g2, u) < Weight(d, g1, u)
    ensures Sum(d, g2, U) < Sum(d, g1, U)
  {
    if U[0] == u {
      SumLe(d, g1, g2, U[1..]);
    } else {
      SumLt(d, g1, g2, U[1..], u);
    }
  }

  /** No two places in the dict hold the same tile. */
  lemma ValuesDistinct(g: Game)
    requires GameOk(g)
    ensures Distinct(Values(g.board))
  {
    var vs := Values(g.board);
    forall i, j | 0 <= i < j < |vs| ensures vs[i] != vs[j] {
      assert g.board.keys[i] != g.board.keys[j];
    }
  }

  lemma BoardTile(d: Direction, g: Game, u: Tile)
    requires GestureOk(d, g) && u in Values(g.board)
    ensures u in g.tiles && TileInv(d, g.tiles[u])
    ensures Weight(d, g, u) == Progress(d, g.tiles[u]) > 0
  {
    var i :| 0 <= i < |Values(g.board)| && Values(g.board)[i] == u;
    ProgressPositive(d, g.tiles[u]);
  }

  lemma ByPlace(d: Direction, a: TState, b: TState)
    requires SamePlace(a, b)
    ensures TileInv(d, a) == TileInv(d, b) && Progress(d, a) == Progress(d, b)
  {
  }

  /** A tile on the board after a frame is one the pass kept in its list, and was on the board before. */
  lemma FrameBoardInList(d: Direction, g: Game, blocks: set<Tile>, u: Tile)
    requires GameOk(g)
    requires u in Values(Frame(d, g, blocks).game.board)
    ensures var order := StableSort(d, Values(g.board), g.tiles);
      u in Pass(d, g.board.entries, order, 0, g.tiles, blocks, false).frame && u in order
    ensures u in Values(g.board)
  {
    var order := StableSort(d, Values(g.board), g.tiles);
    var p := Pass(d, g.board.entries, order, 0, g.tiles, blocks, false);
    var b := Rebuild(p.frame, p.tiles);
    var i :| 0 <= i < |Values(b)| && Values(b)[i] == u;
    assert u == b.entries[b.keys[i]];
    var j :| 0 <= j < |p.frame| && p.frame[j] == u;
    assert u in multiset(order);
  }

  /**
   * A tile on the board after a frame was on it before, is still in the
   * grid and on its line, and has no further to travel than before.
   */
  lemma FrameTile(d: Direction, g: Game, blocks: set<Tile>, u: Tile)
    requires GestureOk(d, g)
    requires u in Values(Frame(d, g, blocks).game.board)
    ensures u in Values(g.board) && u in g.tiles
    ensures TileInv(d, Frame(d, g, blocks).game.tiles[u])
    ensures Progress(d, Frame(d, g, blocks).game.tiles[u]) <= Progress(d, g.tiles[u])
  {
    var order := StableSort(d, Values(g.board), g.tiles);
    var p := Pass(d, g.board.entries, order, 0, g.tiles, blocks, false);
    FrameBoardInList(d, g, blocks, u);
    BoardTile(d, g, u);
    ValuesDistinct(g);
    SortDistinct(d, Values(g.board), g.tiles);
    assert order[0..] == order;
    PassVisited(d, g.board.entries, order, 0, g.tiles, blocks, false, u);
    if SamePlace(p.tiles[u], g.tiles[u]) {
      ByPlace(d, p.tiles[u], g.tiles[u]);
    } else {
      SlideStep(d, g.tiles[u]);
      ByPlace(d, p.tiles[u], Slid(d, g.tiles[u]));
    }
  }

  /** One frame keeps the gesture's invariant and never adds a tile to the board. */
  lemma FrameKeeps(d: Direction, g: Game, blocks: set<Tile>)
    requires GestureOk(d, g)
    ensures var r := Frame(d, g, blocks);
      GestureOk(d, r.game) && forall u :: u in Values(r.game.board) ==> u in Values(g.board)
  {
    var r := Frame(d, g, blocks);
    forall u | u in Values(r.game.board)
      ensures u in Values(g.board) && TileInv(d, r.game.tiles[u])
    {
      FrameTile(d, g, blocks, u);
    }
  }

  /** No tile has further to travel after a frame than before it. */
  lemma FrameWeights(d: Direction, g: Game, blocks: set<Tile>)
    requires GestureOk(d, g)
    ensures forall u :: Weight(d, Frame(d, g, blocks).game, u) <= Weight(d, g, u)
  {
    var r := Frame(d, g, blocks);
    forall u ensures Weight(d, r.game, u) <= Weight(d, g, u) {
      if u in Values(r.game.board) {
        FrameTile(d, g, blocks, u);
        BoardTile(d, g, u);
      }
    }
  }

  /** A frame that reports a change has a tile on the board with less left to travel. */
  lemma FrameStrict(d: Direction, g: Game, blocks: set<Tile>) returns (u: Tile)
    requires GestureOk(d, g) && Frame(d, g, blocks).updated
    ensures u in Values(g.board)
    ensures Weight(d, Frame(d, g, blocks).game, u) < Weight(d, g, u)
  {
    u := FrameMover(d, g, blocks);
    BoardTile(d, g, u);
    WeightLess(d, g, Frame(d, g, blocks).game, u);
  }

  /** The tile the frame moved or popped: if it is still on the board, it slid one step. */
  lemma FrameMover(d: Direction, g: Game, blocks: set<Tile>) returns (u: Tile)
    requires GestureOk(d, g) && Frame(d, g, blocks).updated
    ensures u in Values(g.board) && u in g.tiles
    ensures var r := Frame(d, g, blocks);
      u in Values(r.game.board) ==> u in r.game.tiles && Progress(d, r.game.tiles[u]) < Progress(d, g.tiles[u])
  {
    u := PassMover(d, g, StableSort(d, Values(g.board), g.tiles), blocks);
    if u in Values(Frame(d, g, blocks).game.board) {
      FrameBoardInList(d, g, blocks, u);
    }
  }

  /** The tile a pass over the board's tiles moved or popped. */
  lemma PassMover(d: Direction, g: Game, order: seq<Tile>, blocks: set<Tile>) returns (u: Tile)
    requires GestureOk(d, g) && order == StableSort(d, Values(g.board), g.tiles)
    requires Pass(d, g.board.entries, order, 0, g.tiles, blocks, false).updated
    ensures u in Values(g.board) && u in g.tiles
    ensures var p := Pass(d, g.board.entries, order, 0, g.tiles, blocks, false);
      u in p.frame ==> Progress(d, p.tiles[u]) < Progress(d, g.tiles[u])
  {
    var p := Pass(d, g.board.entries, order, 0, g.tiles, blocks, false);
    ValuesDistinct(g);
    SortDistinct(d, Values(g.board), g.tiles);
    u := PassProgress(d, g.board.entries, order, 0, g.tiles, blocks);
    assert order[0..] == order;
    assert u in multiset(Values(g.board));
    BoardTile(d, g, u);
    if u in p.frame {
      SlideLess(d, g.tiles[u], p.tiles[u]);
    }
  }

  lemma SlideLess(d: Direction, s: TState, s': TState)
    requires TileInv(d, s) && !AtBoundary(d, s.row, s.col) && SamePlace(s', Slid(d, s))
    ensures Progress(d, s') < Progress(d, s)
  {
    SlideStep(d, s);
    ByPlace(d, s', Slid(d, s));
  }

  lemma WeightLess(d: Direction, g1: Game, g2: Game, u: Tile)
    requires GameOk(g1) && GameOk(g2)
    requires u in Values(g1.board) && u in g1.tiles && Progress(d, g1.tiles[u]) > 0
    requires u in Values(g2.board) ==> u in g2.tiles && Progress(d, g2.tiles[u]) < Progress(d, g1.tiles[u])
    ensures Weight(d, g2, u) < Weight(d, g1, u)
  {
  }

  /**
   * One frame keeps the gesture's invariant, never adds a tile to the
   * board, and never increases the distance left to travel; a frame that
   * reports a change strictly decreases it.
   */
  lemma FrameProgress(d: Direction, g: Game, blocks: set<Tile>, U: seq<Tile>)
    requires GestureOk(d, g) && Covers(U, g)
    ensures var r := Frame(d, g, blocks);
      GestureOk(d, r.game) && Covers(U, r.game) &&
      (forall u :: u in Values(r.game.board) ==> u in Values(g.board)) &&
      Sum(d, r.game, U) <= Sum(d, g, U) &&
      (r.updated ==> Sum(d, r.game, U) < Sum(d, g, U))
  {
    var r := Frame(d, g, blocks);
    FrameKeeps(d, g, blocks);
    FrameWeights(d, g, blocks);
    SumLe(d, g, r.game, U);
    if r.updated {
      var u := FrameStrict(d, g, blocks);
      SumLt(d, g, r.game, U, u);
    }
  }

  /** The state the loop ends in: the dict and tiles, and the tiles that absorbed another. */
  datatype Settled = Settled(game: Game, blocks: set<Tile>)

  /** Frames from g on, with `blocks` carried from frame to frame, up to the first that changes nothing. */
  ghost function SettleWithin(d: Direction, g: Game, blocks: set<Tile>, U: seq<Tile>): (s: Settled)
    requires GestureOk(d, g) && Covers(U, g)
    ensures GestureOk(d, s.game)
    decreases Sum(d, g, U)
  {
    FrameProgress(d, g, blocks, U);
    var r := Frame(d, g, blocks);
    if r.updated then SettleWithin(d, r.game, r.blocks, U) else Settled(r.game, r.blocks)
  }

  /**
   * The whole `while updated` loop of one gesture, starting with no tile in
   * `blocks`: it ends where one more frame would change nothing, with no
   * tile on the board that was not on it before.
   */
  ghost function Settle(d: Direction, g: Game): (s: Settled)
    requires GestureOk(d, g)
    ensures GestureOk(d, s.game)
    ensures Frame(d, s.game, s.blocks) == FrameResult(s.game, s.blocks, false)
    ensures forall u :: u in Values(s.game.board) ==> u in Values(g.board)
  {
    SettleStable(d, g, {}, Values(g.board));
    SettleShrinks(d, g, {}, Values(g.board));
    SettleWithin(d, g, {}, Values(g.board))
  }

  /** The dict's tiles sit on pairwise different cells, in any order they are listed in. */
  lemma PermutedCellsDistinct(s: seq<Tile>, g: Game)
    requires GameOk(g) && Known(s, g.tiles) && Distinct(s)
    requires multiset(s) == multiset(Values(g.board))
    ensures DistinctCells(s, g.tiles)
  {
    var vs := Values(g.board);
    forall i, j | 0 <= i < j < |s|
      ensures CellOfState(g.tiles[s[i]]) != CellOfState(g.tiles[s[j]])
    {
      assert s[i] in multiset(vs) && s[j] in multiset(vs);
      var a :| 0 <= a < |vs| && vs[a] == s[i];
      var b :| 0 <= b < |vs| && vs[b] == s[j];
      assert g.board.keys[a] != g.board.keys[b];
    }
  }

  /**
   * A frame that reports no change leaves every tile and `blocks` as they
   * were, and the dict holds the same entries, now in sorted order; a
   * further frame then changes nothing at all.
   */
  lemma FrameIdle(d: Direction, g: Game, blocks: set<Tile>)
    requires GameOk(g) && !Frame(d, g, blocks).updated
    ensures var r := Frame(d, g, blocks);
      r.game.tiles == g.tiles && r.blocks == blocks && r.game.board.entries == g.board.entries &&
      Frame(d, r.game, blocks) == FrameResult(r.game, blocks, false)
  {
    var vs := Values(g.board);
    var order := StableSort(d, vs, g.tiles);
    PassIdle(d, g.board.entries, order, 0, g.tiles, blocks);
    ValuesDistinct(g);
    SortDistinct(d, vs, g.tiles);
    RebuildSameEntries(order, g);
    SortIsSorted(d, vs, g.tiles);
    SortOfSorted(d, order, g.tiles);
  }

  /** Rebuilding the dict from a reordering of its own tiles gives the same entries, in the new order. */
  lemma RebuildSameEntries(order: seq<Tile>, g: Game)
    requires GameOk(g) && Known(order, g.tiles) && Distinct(order)
    requires multiset(order) == multiset(Values(g.board))
    ensures Rebuild(order, g.tiles).entries == g.board.entries
    ensures Values(Rebuild(order, g.tiles)) == order
  {
    var b := Rebuild(order, g.tiles);
    PermutedCellsDistinct(order, g);
    RebuildDistinctCells(order, g.tiles);
    SameMembers(order, Values(g.board));
    var g1 := Game(b, g.tiles);
    assert GameOk(g1);
    EntriesWithin(g1, g);
    EntriesWithin(g, g1);
    SameMap(b.entries, g.board.entries);
  }

  lemma SameMap(m1: map<Cell, Tile>, m2: map<Cell, Tile>)
    requires forall k :: k in m1 ==> k in m2 && m2[k] == m1[k]
    requires forall k :: k in m2 ==> k in m1
    ensures m1 == m2
  {
  }

  lemma SameMembers(s1: seq<Tile>, s2: seq<Tile>)
    requires multiset(s1) == multiset(s2)
    ensures forall u :: u in s1 <==> u in s2
  {
    forall u ensures u in s1 <==> u in s2 {
      assert u in s1 <==> u in multiset(s1);
      assert u in s2 <==> u in multiset(s2);
    }
  }

  /**
   * Two dicts that key each tile by its cell and hold the same tiles agree:
   * every entry of the first is an entry of the second.
   */
  lemma EntriesWithin(g1: Game, g2: Game)
    requires GameOk(g1) && GameOk(g2) && g1.tiles == g2.tiles
    requires forall u :: u in Values(g1.board) ==> u in Values(g2.board)
    ensures forall k :: k in g1.board.entries ==> k in g2.board.entries && g2.board.entries[k] == g1.board.entries[k]
  {
    forall k | k in g1.board.entries
      ensures k in g2.board.entries && g2.board.entries[k] == g1.board.entries[k]
    {
      var i :| 0 <= i < |g1.board.keys| && g1.board.keys[i] == k;
      var t := g1.board.entries[k];
      assert Values(g1.board)[i] == t;
      assert t in Values(g2.board);
      var j :| 0 <= j < |g2.board.keys| && Values(g2.board)[j] == t;
      assert g2.board.entries[g2.board.keys[j]] == t;
    }
  }

  /** The loop ends in a state where one more frame would change nothing: it has settled. */
  lemma {:induction false} SettleStable(d: Direction, g: Game, blocks: set<Tile>, U: seq<Tile>)
    requires GestureOk(d, g) && Covers(U, g)
    ensures var s := SettleWithin(d, g, blocks, U);
      GameOk(s.game) && Frame(d, s.game, s.blocks) == FrameResult(s.game, s.blocks, false)
    decreases Sum(d, g, U)
  {
    FrameProgress(d, g, blocks, U);
    var r := Frame(d, g, blocks);
    if r.updated {
      SettleStable(d, r.game, r.blocks, U);
    } else {
      FrameIdle(d, g, blocks);
    }
  }

  /** A frame doubles exactly the values of the tiles it adds to `blocks`. */
  lemma FrameValues(d: Direction, g: Game, blocks: set<Tile>)
    requires GameOk(g)
    ensures var r := Frame(d, g, blocks);
      forall u :: u in g.tiles ==>
        r.game.tiles[u].value == if u in r.blocks - blocks then 2 * g.tiles[u].value else g.tiles[u].value
  {
    var order := StableSort(d, Values(g.board), g.tiles);
    forall u | u in g.tiles {
      PassValues(d, g.board.entries, order, 0, g.tiles, blocks, false, u);
    }
  }

  /**
   * Over the whole loop each tile's value is doubled at most once: exactly
   * the tiles that end up in `blocks` and were not in it at the start
   * double, and every other value is unchanged.
   */
  lemma {:induction false} SettleValues(d: Direction, g: Game, blocks: set<Tile>, U: seq<Tile>)
    requires GestureOk(d, g) && Covers(U, g)
    ensures var s := SettleWithin(d, g, blocks, U);
      s.game.tiles.Keys == g.tiles.Keys && blocks <= s.blocks &&
      forall u :: u in g.tiles ==>
        s.game.tiles[u].value == if u in s.blocks - blocks then 2 * g.tiles[u].value else g.tiles[u].value
    decreases Sum(d, g, U)
  {
    FrameProgress(d, g, blocks, U);
    FrameValues(d, g, blocks);
    var r := Frame(d, g, blocks);
    if r.updated {
      SettleValues(d, r.game, r.blocks, U);
    } else {
      FrameIdle(d, g, blocks);
    }
  }

  /** The loop never puts a tile on the board that was not there, and never grows the dict. */
  lemma {:induction false} SettleShrinks(d: Direction, g: Game, blocks: set<Tile>, U: seq<Tile>)
    requires GestureOk(d, g) && Covers(U, g)
    ensures var s := SettleWithin(d, g, blocks, U);
      (forall u :: u in Values(s.game.board) ==> u in Values(g.board)) &&
      |s.game.board.keys| <= |g.board.keys|
    decreases Sum(d, g, U)
  {
    FrameProgress(d, g, blocks, U);
    var r := Frame(d, g, blocks);
    if r.updated {
      SettleShrinks(d, r.game, r.blocks, U);
    }
  }

  lemma Pow2Double(v: int)
    requires IsPow2(v)
    ensures IsPow2(2 * v)
  {
    var k: nat :| Pow2(k) == v;
    assert Pow2(k + 1) == 2 * v;
  }

  /** If every tile on the board holds a power of two before a gesture, so does every tile after it. */
  lemma SettlePowersOfTwo(d: Direction, g: Game)
    requires GestureOk(d, g)
    requires forall u :: u in Values(g.board) ==> u in g.tiles && IsPow2(g.tiles[u].value)
    ensures var s := Settle(d, g);
      forall u :: u in Values(s.game.board) ==> u in s.game.tiles && IsPow2(s.game.tiles[u].value)
  {
    var s := Settle(d, g);
    SettleValues(d, g, {}, Values(g.board));
    SettleShrinks(d, g, {}, Values(g.board));
    forall u | u in Values(s.game.board)
      ensures u in s.game.tiles && IsPow2(s.game.tiles[u].value)
    {
      if u in s.blocks {
        Pow2Double(g.tiles[u].value);
      }
    }
  }
}
