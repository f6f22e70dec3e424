// One animation frame of `move_tiles` (main.py:161-192) as a specification
// over values: tiles are named by their references and their fields are
// looked up in a map, so nothing here reads the heap. The Board class in
// board.dfy runs the same frame on real Tile objects and is proved equal to it.

module Frames {
  import opened Tiles
  import opened Directions
  import opened Sorting

  /** The `tiles` dict: its keys in insertion order, and its entries. */
  datatype Dict = Dict(keys: seq<Cell>, entries: map<Cell, Tile>)

  ghost predicate DictOk(b: Dict) {
    Distinct(b.keys) &&
    (forall i :: 0 <= i < |b.keys| ==> b.keys[i] in b.entries) &&
    (forall k :: k in b.entries ==> k in b.keys)
  }

  /** `tiles.values()`, in insertion order. */
  function Values(b: Dict): (vs: seq<Tile>)
    requires forall i :: 0 <= i < |b.keys| ==> b.keys[i] in b.entries
    ensures |vs| == |b.keys|
    ensures forall i :: 0 <= i < |vs| ==> vs[i] == b.entries[b.keys[i]]
  {
    seq(|b.keys|, i requires 0 <= i < |b.keys| => b.entries[b.keys[i]])
  }

  /** The values are exactly the tiles the dict holds. */
  lemma ValuesAreEntries(b: Dict)
    requires DictOk(b)
    ensures forall t :: t in Values(b) <==> t in b.entries.Values
  {
    forall t | t in b.entries.Values ensures t in Values(b) {
      var k :| k in b.entries && b.entries[k] == t;
      var i :| 0 <= i < |b.keys| && b.keys[i] == k;
      assert Values(b)[i] == t;
    }
  }

  /** `tiles[k] = v`: a new key goes to the end, an existing one keeps its place. */
  function Put(b: Dict, k: Cell, v: Tile): (r: Dict)
    ensures r.entries == b.entries[k := v]
    ensures k in b.entries ==> r.keys == b.keys
    ensures k !in b.entries ==> r.keys == b.keys + [k]
    ensures DictOk(b) ==> DictOk(r)
  {
    if k in b.entries then Dict(b.keys, b.entries[k := v]) else Dict(b.keys + [k], b.entries[k := v])
  }

  /** The snapshot map names only tiles whose state is known. */
  predicate Backed(snap: map<Cell, Tile>, st: map<Tile, TState>) {
    forall k :: k in snap ==> snap[k] in st
  }

  /**
   * `update_tiles` (main.py:205-208): clear the dict, then key every tile
   * of the frame list by its own current cell, in list order, so that a
   * later tile on the same cell overwrites an earlier one.
   */
  function Rebuild(frame: seq<Tile>, st: map<Tile, TState>): (r: Dict)
    requires Known(frame, st)
    ensures DictOk(r)
    ensures |r.keys| <= |frame|
    ensures forall k :: k in r.entries ==> r.entries[k] in frame && CellOfState(st[r.entries[k]]) == k
    ensures forall t :: t in frame ==> CellOfState(st[t]) in r.entries
  {
    if frame == [] then Dict([], map[])
    else
      var init := frame[..|frame| - 1];
      var last := frame[|frame| - 1];
      assert frame == init + [last];
      Put(Rebuild(init, st), CellOfState(st[last]), last)
  }

  /** Rebuilding with one more tile at the end writes that tile last. */
  lemma RebuildSnoc(frame: seq<Tile>, t: Tile, st: map<Tile, TState>)
    requires Known(frame, st) && t in st
    ensures Known(frame + [t], st)
    ensures Rebuild(frame + [t], st) == Put(Rebuild(frame, st), CellOfState(st[t]), t)
  {
    assert (frame + [t])[..|frame|] == frame;
  }

  /**
   * A tile that no later tile of the list shares a cell with is the entry at
   * its cell: of the tiles on one cell, the last one wins.
   */
  lemma {:induction false} RebuildLastWins(frame: seq<Tile>, st: map<Tile, TState>, i: int)
    requires Known(frame, st) && 0 <= i < |frame|
    requires forall j :: i < j < |frame| ==> CellOfState(st[frame[j]]) != CellOfState(st[frame[i]])
    ensures Rebuild(frame, st).entries[CellOfState(st[frame[i]])] == frame[i]
  {
    var init := frame[..|frame| - 1];
    if i < |frame| - 1 {
      assert init[i] == frame[i];
      RebuildLastWins(init, st, i);
    }
  }

  predicate DistinctCells(frame: seq<Tile>, st: map<Tile, TState>)
    requires Known(frame, st)
  {
    forall i, j :: 0 <= i < j < |frame| ==> CellOfState(st[frame[i]]) != CellOfState(st[frame[j]])
  }

  /** When no two tiles share a cell, rebuilding loses nothing and keeps the list order. */
  lemma {:induction false} RebuildDistinctCells(frame: seq<Tile>, st: map<Tile, TState>)
    requires Known(frame, st) && DistinctCells(frame, st)
    ensures Values(Rebuild(frame, st)) == frame
  {
    if frame != [] {
      var init := frame[..|frame| - 1];
      var last := frame[|frame| - 1];
      assert frame == init + [last];
      RebuildDistinctCells(init, st);
      RebuildAvoids(init, st, CellOfState(st[last]));
      ValuesPutNew(Rebuild(init, st), CellOfState(st[last]), last);
    }
  }

  /** A cell no tile of the list is on gets no entry. */
  lemma RebuildAvoids(frame: seq<Tile>, st: map<Tile, TState>, c: Cell)
    requires Known(frame, st)
    requires forall j :: 0 <= j < |frame| ==> CellOfState(st[frame[j]]) != c
    ensures c !in Rebuild(frame, st).entries
  {
  }

  lemma ValuesPutNew(b: Dict, c: Cell, v: Tile)
    requires forall i :: 0 <= i < |b.keys| ==> b.keys[i] in b.entries
    requires c !in b.entries
    ensures Values(Put(b, c, v)) == Values(b) + [v]
  {
    assert forall j :: 0 <= j < |b.keys| ==> b.keys[j] != c;
  }

  /** What one tile does in one pass. */
  datatype Step = Stay | Slide | Absorb(into: Tile)

  /**
   * The body of the `for` loop (main.py:167-190) for tile t: boundary
   * check, then the neighbour looked up in the start-of-frame map `snap`,
   * with values and pixel positions read live from `st`. A merge only ever
   * absorbs t into the tile the snapshot holds on the next cell, holding
   * t's value, when neither has merged yet in this gesture.
   */
  function Decide(d: Direction, snap: map<Cell, Tile>, st: map<Tile, TState>, blocks: set<Tile>, t: Tile): (step: Step)
    requires t in st && Backed(snap, st)
    ensures step.Absorb? ==>
      var k := NextCell(d, st[t].row, st[t].col);
      k in snap && snap[k] == step.into && step.into in st && st[step.into].value == st[t].value &&
      t !in blocks && step.into !in blocks
  {
    var s := st[t];
    if AtBoundary(d, s.row, s.col) then Stay
    else
      var k := NextCell(d, s.row, s.col);
      if k !in snap then Slide
      else
        var n := snap[k];
        if s.value == st[n].value && t !in blocks && n !in blocks then
          if MergeCheck(d, s, st[n]) then Slide else Absorb(n)
        else if MoveCheck(d, s, st[n]) then Slide
        else Stay
  }

  /**
   * The rules of one tile's step: a tile on the target edge stays; with no
   * neighbour it slides; next to an equal unmerged neighbour it slides while
   * more than one step away and is absorbed into it within one step; next
   * to an unequal or already merged one it slides exactly while more than a
   * cell and a step away, and stays otherwise.
   */
  lemma DecideRules(d: Direction, snap: map<Cell, Tile>, st: map<Tile, TState>, blocks: set<Tile>, t: Tile)
    requires t in st && Backed(snap, st)
    ensures var step, s, k := Decide(d, snap, st, blocks, t), st[t], NextCell(d, st[t].row, st[t].col);
      (AtBoundary(d, s.row, s.col) ==> step == Stay) &&
      (!AtBoundary(d, s.row, s.col) && k !in snap ==> step == Slide) &&
      (!AtBoundary(d, s.row, s.col) && k in snap ==>
        var n := st[snap[k]];
        if n.value == s.value && t !in blocks && snap[k] !in blocks then
          step == if Gap(d, s, n) > MOVE_VEL then Slide else Absorb(snap[k])
        else
          step == if Gap(d, s, n) > CellSpan(d) + MOVE_VEL then Slide else Stay)
  {
    var k := NextCell(d, st[t].row, st[t].col);
    if k in snap {
      ChecksMeasureGap(d, st[t], st[snap[k]]);
    }
  }

  datatype PassResult = PassResult(frame: seq<Tile>, tiles: map<Tile, TState>, blocks: set<Tile>, updated: bool)

  /**
   * The `for i, tile in enumerate(sorted_tiles)` loop from index i on. A
   * merge pops the current tile and the index still advances, so the tile
   * after it is not visited in this pass; the popped tile still gets
   * `set_pos`, and only the absorbing tile joins `blocks`.
   */
  function Pass(d: Direction, snap: map<Cell, Tile>, frame: seq<Tile>, i: nat,
                st: map<Tile, TState>, blocks: set<Tile>, updated: bool): (r: PassResult)
    requires Backed(snap, st) && Known(frame, st)
    ensures r.tiles.Keys == st.Keys
    ensures Known(r.frame, r.tiles)
    ensures blocks <= r.blocks
    ensures |r.frame| <= |frame|
    ensures forall j :: 0 <= j < |r.frame| ==> r.frame[j] in frame
    ensures updated ==> r.updated
    decreases |frame| - i
  {
    if i >= |frame| then PassResult(frame, st, blocks, updated)
    else
      var t := frame[i];
      match Decide(d, snap, st, blocks, t)
      case Stay => Pass(d, snap, frame, i + 1, st, blocks, updated)
      case Slide => Pass(d, snap, frame, i + 1, st[t := Slid(d, st[t])], blocks, true)
      case Absorb(n) =>
        var st1 := st[n := st[n].(value := 2 * st[n].value)];
        var rest := frame[..i] + frame[i + 1..];
        assert forall j :: 0 <= j < |rest| ==> rest[j] in frame;
        Pass(d, snap, rest, i + 1, st1[t := Snapped(st1[t], Ceil(d))], blocks + {n}, true)
  }

  /** The fields after one visit of tile t has taken `step`. */
  function After(d: Direction, st: map<Tile, TState>, t: Tile, step: Step): (r: map<Tile, TState>)
    requires t in st && (step.Absorb? ==> step.into in st)
    ensures r.Keys == st.Keys
  {
    match step
    case Stay => st
    case Slide => st[t := Slid(d, st[t])]
    case Absorb(n) =>
      var st1 := st[n := st[n].(value := 2 * st[n].value)];
      st1[t := Snapped(st1[t], Ceil(d))]
  }

  /** The list after visiting index i: a tile that merges is popped from it. */
  function Popped(frame: seq<Tile>, i: nat, step: Step): (r: seq<Tile>)
    requires i < |frame|
    ensures forall j :: 0 <= j < |r| ==> r[j] in frame
  {
    if step.Absorb? then frame[..i] + frame[i + 1..] else frame
  }

  /** One unfolding of Pass at a tile it visits, whatever step Decide picks. */
  lemma PassVisit(d: Direction, snap: map<Cell, Tile>, frame: seq<Tile>, i: nat,
                  st: map<Tile, TState>, blocks: set<Tile>, updated: bool)
    requires Backed(snap, st) && Known(frame, st) && i < |frame|
    ensures var step := Decide(d, snap, st, blocks, frame[i]);
      (step.Absorb? ==> step.into in st) &&
      var st' := After(d, st, frame[i], step);
      var frame' := Popped(frame, i, step);
      Backed(snap, st') && Known(frame', st') &&
      Pass(d, snap, frame, i, st, blocks, updated) ==
      Pass(d, snap, frame', i + 1, st', if step.Absorb? then blocks + {step.into} else blocks, updated || step != Stay)
  {
  }

  /** The part of the list the pass has yet to visit. */
  function Ahead(frame: seq<Tile>, i: int): seq<Tile> {
    if 0 <= i <= |frame| then frame[i..] else []
  }

  /** Same cell and same pixel position. */
  predicate SamePlace(a: TState, b: TState) {
    a.row == b.row && a.col == b.col && a.x == b.x && a.y == b.y
  }

  /**
   * A pass changes a tile's value only by doubling it, and exactly for the
   * tiles that absorb a neighbour, which are the ones it adds to `blocks`.
   */
  lemma {:induction false} PassValues(d: Direction, snap: map<Cell, Tile>, frame: seq<Tile>, i: nat,
                                      st: map<Tile, TState>, blocks: set<Tile>, updated: bool, u: Tile)
    requires Backed(snap, st) && Known(frame, st) && u in st
    ensures var r := Pass(d, snap, frame, i, st, blocks, updated);
      r.tiles[u].value == if u in r.blocks - blocks then 2 * st[u].value else st[u].value
    decreases |frame| - i
  {
    if i < |frame| {
      var t := frame[i];
      match Decide(d, snap, st, blocks, t)
      case Stay => PassValues(d, snap, frame, i + 1, st, blocks, updated, u);
      case Slide =>
        PassValues(d, snap, frame, i + 1, st[t := Slid(d, st[t])], blocks, true, u);
      case Absorb(n) =>
        var st1 := st[n := st[n].(value := 2 * st[n].value)];
        var rest := frame[..i] + frame[i + 1..];
        assert forall j :: 0 <= j < |rest| ==> rest[j] in frame;
        PassValues(d, snap, rest, i + 1, st1[t := Snapped(st1[t], Ceil(d))], blocks + {n}, true, u);
    }
  }

  /** A tile the pass does not visit stays where it was, and stays in the list. */
  lemma {:induction false} PassUnvisited(d: Direction, snap: map<Cell, Tile>, frame: seq<Tile>, i: nat,
                                         st: map<Tile, TState>, blocks: set<Tile>, updated: bool, u: Tile)
    requires Backed(snap, st) && Known(frame, st) && Distinct(frame) && u in st
    requires u !in Ahead(frame, i)
    ensures var r := Pass(d, snap, frame, i, st, blocks, updated);
      SamePlace(r.tiles[u], st[u]) && (u in frame ==> u in r.frame)
    decreases |frame| - i
  {
    if i < |frame| {
      var t := frame[i];
      var step := Decide(d, snap, st, blocks, t);
      PassVisit(d, snap, frame, i, st, blocks, updated);
      PoppedAhead(frame, i, step, u);
      PassUnvisited(d, snap, Popped(frame, i, step), i + 1, After(d, st, t, step),
                    if step.Absorb? then blocks + {step.into} else blocks, updated || step != Stay, u);
    }
  }

  /** A tile not ahead of the visit is not ahead of the next one either, and stays in the list. */
  lemma PoppedAhead(frame: seq<Tile>, i: nat, step: Step, u: Tile)
    requires Distinct(frame) && i < |frame| && u !in Ahead(frame, i)
    ensures u != frame[i] && Distinct(Popped(frame, i, step)) && u !in Ahead(Popped(frame, i, step), i + 1)
    ensures u in frame ==> u in Popped(frame, i, step)
  {
    assert frame[i..] == [frame[i]] + frame[i + 1..];
    if step.Absorb? {
      PopDistinct(frame, i);
      if i + 2 <= |frame| {
        assert frame[i..] == frame[i..i + 2] + frame[i + 2..];
      }
    }
  }

  /**
   * Where a pass leaves tile u that started at s: still in the list, where
   * it was or one step further on from off the target edge, or popped at
   * its pixel position.
   */
  predicate VisitedPlace(d: Direction, r: PassResult, s: TState, u: Tile)
    requires u in r.tiles
  {
    (u in r.frame ==>
      SamePlace(r.tiles[u], s) || (!AtBoundary(d, s.row, s.col) && SamePlace(r.tiles[u], Slid(d, s)))) &&
    (u !in r.frame ==> r.tiles[u].x == s.x && r.tiles[u].y == s.y)
  }

  /** Only where the tile started matters. */
  lemma VisitedByPlace(d: Direction, r: PassResult, a: TState, b: TState, u: Tile)
    requires u in r.tiles && SamePlace(a, b) && VisitedPlace(d, r, a, u)
    ensures VisitedPlace(d, r, b, u)
  {
    SlidByPlace(d, a, b);
  }

  /**
   * A tile the pass visits either stays in the list, where it was or one
   * step further on from off the target edge, or is popped at its pixel
   * position.
   */
  lemma {:induction false} PassVisited(d: Direction, snap: map<Cell, Tile>, frame: seq<Tile>, i: nat,
                                       st: map<Tile, TState>, blocks: set<Tile>, updated: bool, u: Tile)
    requires Backed(snap, st) && Known(frame, st) && Distinct(frame) && u in st
    requires u in Ahead(frame, i)
    ensures VisitedPlace(d, Pass(d, snap, frame, i, st, blocks, updated), st[u], u)
    decreases |frame| - i
  {
    var t := frame[i];
    match Decide(d, snap, st, blocks, t)
    case Stay => PassVisitedStay(d, snap, frame, i, st, blocks, updated, u);
    case Slide => PassVisitedSlide(d, snap, frame, i, st, blocks, updated, u);
    case Absorb(n) =>
      if u == t {
        PopSelf(d, snap, frame, i, st, blocks, updated, n);
      } else if u == frame[i + 1] {
        SkipAfterPop(d, snap, frame, i, st, blocks, updated);
      } else {
        var j := IndexAhead(frame, i, u);
        PassVisitedPop(d, snap, frame, i, st, blocks, updated, u, j, n);
      }
  }

  lemma {:induction false} PassVisitedStay(d: Direction, snap: map<Cell, Tile>, frame: seq<Tile>, i: nat,
                                           st: map<Tile, TState>, blocks: set<Tile>, updated: bool, u: Tile)
    requires Backed(snap, st) && Known(frame, st) && Distinct(frame) && u in st
    requires u in Ahead(frame, i) && i < |frame|
    requires Decide(d, snap, st, blocks, frame[i]) == Stay
    ensures VisitedPlace(d, Pass(d, snap, frame, i, st, blocks, updated), st[u], u)
    decreases |frame| - i, 0
  {
    PassStay(d, snap, frame, i, st, blocks, updated);
    AheadStep(frame, i, u);
    if u == frame[i] {
      PassUnvisited(d, snap, frame, i + 1, st, blocks, updated, u);
    } else {
      PassVisited(d, snap, frame, i + 1, st, blocks, updated, u);
    }
  }

  lemma {:induction false} PassVisitedSlide(d: Direction, snap: map<Cell, Tile>, frame: seq<Tile>, i: nat,
                                            st: map<Tile, TState>, blocks: set<Tile>, updated: bool, u: Tile)
    requires Backed(snap, st) && Known(frame, st) && Distinct(frame) && u in st
    requires u in Ahead(frame, i) && i < |frame|
    requires Decide(d, snap, st, blocks, frame[i]) == Slide
    ensures VisitedPlace(d, Pass(d, snap, frame, i, st, blocks, updated), st[u], u)
    decreases |frame| - i, 0
  {
    var t := frame[i];
    var st' := st[t := Slid(d, st[t])];
    PassSlide(d, snap, frame, i, st, blocks, updated);
    AheadStep(frame, i, u);
    if u == t {
      PassUnvisited(d, snap, frame, i + 1, st', blocks, true, u);
    } else {
      PassVisited(d, snap, frame, i + 1, st', blocks, true, u);
      assert st'[u] == st[u];
    }
  }

  /** A tile that stays is passed over. */
  lemma PassStay(d: Direction, snap: map<Cell, Tile>, frame: seq<Tile>, i: nat,
                 st: map<Tile, TState>, blocks: set<Tile>, updated: bool)
    requires Backed(snap, st) && Known(frame, st) && i < |frame|
    requires Decide(d, snap, st, blocks, frame[i]) == Stay
    ensures Pass(d, snap, frame, i, st, blocks, updated) == Pass(d, snap, frame, i + 1, st, blocks, updated)
  {
  }

  /** A tile that slides moves one step, from off the target edge. */
  lemma PassSlide(d: Direction, snap: map<Cell, Tile>, frame: seq<Tile>, i: nat,
                  st: map<Tile, TState>, blocks: set<Tile>, updated: bool)
    requires Backed(snap, st) && Known(frame, st) && i < |frame|
    requires Decide(d, snap, st, blocks, frame[i]) == Slide
    ensures var t := frame[i]; var st' := st[t := Slid(d, st[t])];
      !AtBoundary(d, st[t].row, st[t].col) && Backed(snap, st') && Known(frame, st') &&
      Pass(d, snap, frame, i, st, blocks, updated) == Pass(d, snap, frame, i + 1, st', blocks, true)
  {
  }

  /** A tile absorbed into n leaves the list, doubles n and is re-snapped; the pass goes on after it. */
  lemma PassAbsorb(d: Direction, snap: map<Cell, Tile>, frame: seq<Tile>, i: nat,
                   st: map<Tile, TState>, blocks: set<Tile>, updated: bool, n: Tile)
    requires Backed(snap, st) && Known(frame, st) && i < |frame|
    requires Decide(d, snap, st, blocks, frame[i]) == Absorb(n)
    ensures var t := frame[i];
      var st1 := st[n := st[n].(value := 2 * st[n].value)];
      var st2 := st1[t := Snapped(st1[t], Ceil(d))];
      var rest := frame[..i] + frame[i + 1..];
      Backed(snap, st2) && Known(rest, st2) &&
      Pass(d, snap, frame, i, st, blocks, updated) == Pass(d, snap, rest, i + 1, st2, blocks + {n}, true)
  {
    var rest := frame[..i] + frame[i + 1..];
    assert forall j :: 0 <= j < |rest| ==> rest[j] in frame;
  }

  /** In a list without repeats, the visited tile is the only one that leaves the part ahead. */
  lemma AheadStep(frame: seq<Tile>, i: nat, u: Tile)
    requires Distinct(frame) && i < |frame| && u in Ahead(frame, i)
    ensures u == frame[i] <==> u !in Ahead(frame, i + 1)
  {
    assert frame[i..] == [frame[i]] + frame[i + 1..];
  }

  /** The popped tile leaves the list at its pixel position. */
  lemma PopSelf(d: Direction, snap: map<Cell, Tile>, frame: seq<Tile>, i: nat,
                st: map<Tile, TState>, blocks: set<Tile>, updated: bool, n: Tile)
    requires Backed(snap, st) && Known(frame, st) && Distinct(frame) && i < |frame|
    requires Decide(d, snap, st, blocks, frame[i]) == Absorb(n)
    ensures var r := Pass(d, snap, frame, i, st, blocks, updated);
      frame[i] !in r.frame && r.tiles[frame[i]].x == st[frame[i]].x && r.tiles[frame[i]].y == st[frame[i]].y
  {
    var t := frame[i];
    var st1 := st[n := st[n].(value := 2 * st[n].value)];
    var st2 := st1[t := Snapped(st1[t], Ceil(d))];
    PopDistinct(frame, i);
    PassUnvisited(d, snap, frame[..i] + frame[i + 1..], i + 1, st2, blocks + {n}, true, t);
  }

  /** A tile further on than the skipped one is visited later in the pass as if nothing had been popped. */
  lemma {:induction false} PassVisitedPop(d: Direction, snap: map<Cell, Tile>, frame: seq<Tile>, i: nat,
                                          st: map<Tile, TState>, blocks: set<Tile>, updated: bool, u: Tile, j: int, n: Tile)
    requires Backed(snap, st) && Known(frame, st) && Distinct(frame)
    requires i + 2 <= j < |frame| && u == frame[j]
    requires Decide(d, snap, st, blocks, frame[i]) == Absorb(n)
    ensures VisitedPlace(d, Pass(d, snap, frame, i, st, blocks, updated), st[u], u)
    decreases |frame| - i, 0
  {
    var t := frame[i];
    var st1 := st[n := st[n].(value := 2 * st[n].value)];
    var st2 := st1[t := Snapped(st1[t], Ceil(d))];
    var rest := frame[..i] + frame[i + 1..];
    PassAbsorb(d, snap, frame, i, st, blocks, updated, n);
    assert u in Ahead(rest, i + 1) && u in st2 && Distinct(rest) by {
      PopDistinct(frame, i);
      assert rest[i + 1..][j - i - 2] == u;
    }
    PassVisited(d, snap, rest, i + 1, st2, blocks + {n}, true, u);
    VisitedByPlace(d, Pass(d, snap, rest, i + 1, st2, blocks + {n}, true), st2[u], st[u], u);
  }

  lemma IndexAhead(frame: seq<Tile>, i: int, u: Tile) returns (j: int)
    requires u in Ahead(frame, i)
    ensures 0 <= i <= j < |frame| && frame[j] == u
  {
    var k :| 0 <= k < |frame[i..]| && frame[i..][k] == u;
    j := i + k;
  }

  /** Where a step lands depends only on where it starts. */
  lemma SlidByPlace(d: Direction, a: TState, b: TState)
    requires SamePlace(a, b)
    ensures SamePlace(Slid(d, a), Slid(d, b))
  {
  }

  /**
   * Popping index i keeps the list free of repeats, drops exactly the
   * popped tile, and leaves unvisited only what followed the tile after it.
   */
  lemma PopDistinct(frame: seq<Tile>, i: int)
    requires Distinct(frame) && 0 <= i < |frame|
    ensures var rest := frame[..i] + frame[i + 1..];
      Distinct(rest) && frame[i] !in rest &&
      (forall u :: u in frame && u != frame[i] ==> u in rest) &&
      (forall j :: 0 <= j < |rest| ==> rest[j] in frame) &&
      Ahead(rest, i + 1) == Ahead(frame, i + 2)
  {
    var rest := frame[..i] + frame[i + 1..];
    assert forall j :: 0 <= j < |rest| ==> rest[j] == if j < i then frame[j] else frame[j + 1];
    forall u | u in frame && u != frame[i] ensures u in rest {
      var j :| 0 <= j < |frame| && frame[j] == u;
      assert rest[if j < i then j else j - 1] == u;
    }
  }

  /** A pass that changes nothing leaves the list, the tiles and `blocks` as they were. */
  lemma {:induction false} PassIdle(d: Direction, snap: map<Cell, Tile>, frame: seq<Tile>, i: nat,
                                    st: map<Tile, TState>, blocks: set<Tile>)
    requires Backed(snap, st) && Known(frame, st)
    ensures var r := Pass(d, snap, frame, i, st, blocks, false);
      !r.updated ==> r.frame == frame && r.tiles == st && r.blocks == blocks
    decreases |frame| - i
  {
    if i < |frame| && Decide(d, snap, st, blocks, frame[i]) == Stay {
      PassIdle(d, snap, frame, i + 1, st, blocks);
    }
  }

  /**
   * A pass that reports a change has visited a tile that it either popped
   * or slid one step from off the target edge.
   */
  lemma {:induction false} PassProgress(d: Direction, snap: map<Cell, Tile>, frame: seq<Tile>, i: nat,
                                        st: map<Tile, TState>, blocks: set<Tile>) returns (u: Tile)
    requires Backed(snap, st) && Known(frame, st) && Distinct(frame)
    requires Pass(d, snap, frame, i, st, blocks, false).updated
    ensures var r := Pass(d, snap, frame, i, st, blocks, false);
      u in Ahead(frame, i) && u in st &&
      (u !in r.frame || (!AtBoundary(d, st[u].row, st[u].col) && SamePlace(r.tiles[u], Slid(d, st[u]))))
    decreases |frame| - i
  {
    var t := frame[i];
    assert frame[i..] == [t] + frame[i + 1..];
    match Decide(d, snap, st, blocks, t)
    case Stay =>
      u := PassProgress(d, snap, frame, i + 1, st, blocks);
    case Slide =>
      u := t;
      PassUnvisited(d, snap, frame, i + 1, st[t := Slid(d, st[t])], blocks, true, t);
    case Absorb(n) =>
      u := t;
      PopDistinct(frame, i);
  }

  /**
   * The skip: after a merge pops the tile at index i, the tile that moved
   * up into index i is not visited in this pass and stays where it was.
   */
  lemma SkipAfterPop(d: Direction, snap: map<Cell, Tile>, frame: seq<Tile>, i: nat,
                     st: map<Tile, TState>, blocks: set<Tile>, updated: bool)
    requires Backed(snap, st) && Known(frame, st) && Distinct(frame) && i + 1 < |frame|
    requires Decide(d, snap, st, blocks, frame[i]).Absorb?
    ensures var r := Pass(d, snap, frame, i, st, blocks, updated);
      frame[i + 1] in r.frame && SamePlace(r.tiles[frame[i + 1]], st[frame[i + 1]])
  {
    var t := frame[i];
    var n := Decide(d, snap, st, blocks, t).into;
    var st1 := st[n := st[n].(value := 2 * st[n].value)];
    var rest := frame[..i] + frame[i + 1..];
    PopDistinct(frame, i);
    assert rest[i] == frame[i + 1];
    PassUnvisited(d, snap, rest, i + 1, st1[t := Snapped(st1[t], Ceil(d))], blocks + {n}, true, frame[i + 1]);
  }

  /** The game state between frames: the dict and the fields of every tile involved. */
  datatype Game = Game(board: Dict, tiles: map<Tile, TState>)

  /** The dict is well formed and keys every tile by its own cell. */
  ghost predicate GameOk(g: Game) {
    DictOk(g.board) && Backed(g.board.entries, g.tiles) &&
    forall k :: k in g.board.entries ==> CellOfState(g.tiles[g.board.entries[k]]) == k
  }

  datatype FrameResult = FrameResult(game: Game, blocks: set<Tile>, updated: bool)

  /**
   * One iteration of `while updated` (main.py:161-192): sort the dict's
   * values, make one pass reading the dict as it was at the start of the
   * frame, then rebuild the dict from the pass's list.
   */
  function Frame(d: Direction, g: Game, blocks: set<Tile>): (r: FrameResult)
    requires GameOk(g)
    ensures GameOk(r.game)
    ensures r.game.tiles.Keys == g.tiles.Keys
    ensures |r.game.board.keys| <= |g.board.keys|
    ensures blocks <= r.blocks
  {
    var order := StableSort(d, Values(g.board), g.tiles);
    assert |order| == |multiset(order)| == |Values(g.board)|;
    var p := Pass(d, g.board.entries, order, 0, g.tiles, blocks, false);
    FrameResult(Game(Rebuild(p.frame, p.tiles), p.tiles), p.blocks, p.updated)
  }
}
