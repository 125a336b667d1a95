/** What one call of BoardManager.Setup_Scene lays out, as functions of the board
    size, the counts and the random draws. The class in manager.dfy is proved to
    do exactly this. */
module Board {
  import opened Cells
  import opened Draws

  /** BoardManager.Count: an inclusive range for a random object count. */
  datatype Count = Count(minimum: int, maximum: int)

  /** Which prefab family an instantiated object comes from. */
  datatype Category = Floor | OuterWall | InnerWall | Food | Enemy | Exit

  /** One Instantiate call: a prefab of some category at a cell. */
  datatype Placement = Placement(cell: Cell, category: Category)

  datatype Option<T> = None | Some(value: T)

  /** The result of scattering objects: what was instantiated, what is left of the
      free-cell list, and whether the scatter finished (false: it ran out of cells). */
  datatype Scatter = Scatter(placed: seq<Placement>, rest: seq<Cell>, complete: bool)

  function Max0(n: int): nat
  {
    if n < 0 then 0 else n
  }

  // ---------------------------------------------------------------- frame

  /** The border test of Board_Setup: the cell lies on the outer rim of [-1, cols+1] x [-1, rows+1]. */
  predicate OnRim(cols: int, rows: int, c: Cell)
  {
    c.x == -1 || c.x == cols + 1 || c.y == -1 || c.y == rows + 1
  }

  /** The base tile Board_Setup puts on a cell. */
  function BaseTile(cols: int, rows: int, c: Cell): Category
  {
    if OnRim(cols, rows, c) then OuterWall else Floor
  }

  /** The cells Board_Setup walks over. */
  function FrameCells(cols: int, rows: int): seq<Cell>
  {
    Rect(-1, cols + 1, -1, rows + 1)
  }

  /** One base tile per cell, in the order the cells are given. */
  function Classify(cols: int, rows: int, cells: seq<Cell>): (tiles: seq<Placement>)
    ensures |tiles| == |cells|
    decreases |cells|
  {
    if cells == [] then []
    else
      var last := cells[|cells| - 1];
      Classify(cols, rows, cells[..|cells| - 1]) + [Placement(last, BaseTile(cols, rows, last))]
  }

  /** The tiles Board_Setup instantiates, in order. */
  function FrameTiles(cols: int, rows: int): seq<Placement>
  {
    Classify(cols, rows, FrameCells(cols, rows))
  }

  /** How many placements sit on cell c. */
  function TilesAt(tiles: seq<Placement>, c: Cell): nat
    decreases |tiles|
  {
    if tiles == [] then 0
    else TilesAt(tiles[..|tiles| - 1], c) + (if tiles[|tiles| - 1].cell == c then 1 else 0)
  }

  lemma {:induction false} ClassifyAppend(cols: int, rows: int, cells: seq<Cell>, c: Cell)
    ensures Classify(cols, rows, cells + [c]) == Classify(cols, rows, cells) + [Placement(c, BaseTile(cols, rows, c))]
  {
    assert (cells + [c])[..|cells|] == cells;
  }

  /** One more pass of Board_Setup's inner loop, at (x, y): the tiles laid so far, for the
      columns before x and the cells of column x below y, gain the tile of (x, y). */
  lemma FrameStep(cols: int, rows: int, x: int, y: int, earlier: seq<Placement>)
    requires -1 <= y
    ensures earlier + Classify(cols, rows, Rect(-1, x - 1, -1, rows + 1) + Column(x, -1, y - 1))
              + [Placement(Cell(x, y), BaseTile(cols, rows, Cell(x, y)))]
         == earlier + Classify(cols, rows, Rect(-1, x - 1, -1, rows + 1) + Column(x, -1, y))
  {
    var done := Rect(-1, x - 1, -1, rows + 1);
    var visited := done + Column(x, -1, y - 1);
    ClassifyAppend(cols, rows, visited, Cell(x, y));
    AppendAssoc(done, Column(x, -1, y - 1), [Cell(x, y)]);
    AppendAssoc(earlier, Classify(cols, rows, visited), [Placement(Cell(x, y), BaseTile(cols, rows, Cell(x, y)))]);
  }

  /** The i-th tile lies on the i-th cell; it is an outer wall exactly when that cell is on the rim,
      and floor otherwise. */
  lemma {:induction false} ClassifyAt(cols: int, rows: int, cells: seq<Cell>)
    ensures forall i :: 0 <= i < |cells| ==> Classify(cols, rows, cells)[i].cell == cells[i]
    ensures forall i :: 0 <= i < |cells| ==>
      (Classify(cols, rows, cells)[i].category == OuterWall <==> OnRim(cols, rows, cells[i])) &&
      (Classify(cols, rows, cells)[i].category == Floor <==> !OnRim(cols, rows, cells[i]))
    decreases |cells|
  {
    if cells != [] {
      ClassifyAt(cols, rows, cells[..|cells| - 1]);
    }
  }

  /** The number of tiles on a cell is the number of times the cell was visited. */
  lemma {:induction false} TilesAtClassify(cols: int, rows: int, cells: seq<Cell>, c: Cell)
    ensures TilesAt(Classify(cols, rows, cells), c) == multiset(cells)[c]
    decreases |cells|
  {
    if cells != [] {
      var init := cells[..|cells| - 1];
      TilesAtClassify(cols, rows, init, c);
      assert cells == init + [cells[|cells| - 1]];
      var tiles := Classify(cols, rows, cells);
      assert tiles[..|tiles| - 1] == Classify(cols, rows, init);
    }
  }

  /** Board_Setup puts exactly one base tile on every cell of [-1, cols+1] x [-1, rows+1] and none
      elsewhere; the tile is an outer wall exactly on the rim and floor inside. */
  lemma FrameCoverage(cols: int, rows: int, c: Cell)
    ensures TilesAt(FrameTiles(cols, rows), c) == if InRect(c, -1, cols + 1, -1, rows + 1) then 1 else 0
    ensures forall t :: t in FrameTiles(cols, rows) && t.cell == c ==>
      t.category == (if OnRim(cols, rows, c) then OuterWall else Floor)
  {
    var cells := FrameCells(cols, rows);
    RectCells(-1, cols + 1, -1, rows + 1);
    NoDupCount(cells, c);
    TilesAtClassify(cols, rows, cells, c);
    ClassifyAt(cols, rows, cells);
  }

  /** (cols + 3) * (rows + 3) tiles for any non-negative board size. */
  lemma FrameTileCount(cols: int, rows: int)
    requires cols >= 0 && rows >= 0
    ensures |FrameTiles(cols, rows)| == (cols + 3) * (rows + 3)
  {
    RectCells(-1, cols + 1, -1, rows + 1);
  }

  // ---------------------------------------------------------------- free-cell list

  /** The free-cell list Initialize_List builds: x from 1 to cols-1, and for each x, y from 1 to rows-1. */
  function PoolCells(cols: int, rows: int): (cells: seq<Cell>)
    ensures |cells| == PoolSize(cols, rows)
  {
    RectCells(1, cols - 1, 1, rows - 1);
    Rect(1, cols - 1, 1, rows - 1)
  }

  /** The length of that list. */
  function PoolSize(cols: int, rows: int): nat
  {
    Span(1, cols - 1) * Span(1, rows - 1)
  }

  /** The free-cell list holds every cell with 1 <= x <= cols-1 and 1 <= y <= rows-1, each once,
      and nothing else; (cols-1) * (rows-1) of them on a board of at least one column and row. */
  lemma PoolContents(cols: int, rows: int)
    ensures forall c :: c in PoolCells(cols, rows) <==> InRect(c, 1, cols - 1, 1, rows - 1)
    ensures NoDup(PoolCells(cols, rows))
    ensures |PoolCells(cols, rows)| == PoolSize(cols, rows)
    ensures cols >= 1 && rows >= 1 ==> PoolSize(cols, rows) == (cols - 1) * (rows - 1)
  {
    RectCells(1, cols - 1, 1, rows - 1);
  }

  /** A free-cell list of a cols x rows board: no cell twice, every cell strictly inside the frame
      (1 <= x <= cols-1, 1 <= y <= rows-1). */
  predicate FreeList(cols: int, rows: int, cells: seq<Cell>)
  {
    NoDup(cells) && forall c :: c in cells ==> InRect(c, 1, cols - 1, 1, rows - 1)
  }

  /** Popping cells off a free-cell list leaves a free-cell list. */
  lemma RemainingFree(cols: int, rows: int, pool: seq<Cell>, picks: seq<int>)
    requires IndicesFit(|pool|, picks)
    requires FreeList(cols, rows, pool)
    ensures FreeList(cols, rows, Remaining(pool, picks))
  {
    DrawnDistinct(pool, picks);
  }

  /** Every free cell got a floor tile from Board_Setup, so random objects never land on the frame. */
  lemma PoolIsFloor(cols: int, rows: int, c: Cell)
    requires c in PoolCells(cols, rows)
    ensures c in FrameCells(cols, rows)
    ensures BaseTile(cols, rows, c) == Floor
  {
    PoolContents(cols, rows);
    RectCells(-1, cols + 1, -1, rows + 1);
  }

  /** The exit cell (cols, rows) got a floor tile and is not in the free-cell list. */
  lemma ExitOutsidePool(cols: int, rows: int)
    requires cols >= 0 && rows >= 0
    ensures Cell(cols, rows) in FrameCells(cols, rows)
    ensures BaseTile(cols, rows, Cell(cols, rows)) == Floor
    ensures Cell(cols, rows) !in PoolCells(cols, rows)
  {
    PoolContents(cols, rows);
    RectCells(-1, cols + 1, -1, rows + 1);
  }

  // ---------------------------------------------------------------- enemy count

  function Pow2(n: nat): (p: nat)
    ensures p >= 1
  {
    if n == 0 then 1 else 2 * Pow2(n - 1)
  }

  /** The enemy count of Setup_Scene, (int)Mathf.Log(level, 2), as the integer floor of log2 level. */
  function EnemyCount(level: int): (e: nat)
    requires level >= 1
    ensures Pow2(e) <= level < Pow2(e + 1)
    decreases level
  {
    if level < 2 then 0 else 1 + EnemyCount(level / 2)
  }

  lemma {:induction false} Pow2Monotonic(a: nat, b: nat)
    requires a <= b
    ensures Pow2(a) <= Pow2(b)
    decreases b - a
  {
    if a < b {
      Pow2Monotonic(a, b - 1);
    }
  }

  /** The floor of log2 is the only exponent that brackets the level. */
  lemma EnemyCountUnique(level: int, e: nat)
    requires level >= 1
    requires Pow2(e) <= level < Pow2(e + 1)
    ensures e == EnemyCount(level)
  {
    var f := EnemyCount(level);
    if e < f {
      Pow2Monotonic(e + 1, f);
    } else if f < e {
      Pow2Monotonic(f + 1, e);
    }
  }

  /** Levels 1, 2, 3, 4, 7, 8 get 0, 1, 1, 2, 2, 3 enemies; level 3, the one the game starts, gets 1. */
  lemma EnemyCountExamples()
    ensures EnemyCount(1) == 0 && EnemyCount(2) == 1 && EnemyCount(3) == 1
    ensures EnemyCount(4) == 2 && EnemyCount(7) == 2 && EnemyCount(8) == 3
  {
  }

  // ---------------------------------------------------------------- scattering

  /** One placement of the given category per cell. */
  function Place(cells: seq<Cell>, cat: Category): (ps: seq<Placement>)
    ensures |ps| == |cells|
    decreases |cells|
  {
    if cells == [] then [] else Place(cells[..|cells| - 1], cat) + [Placement(cells[|cells| - 1], cat)]
  }

  /** The cells of a sequence of placements. */
  function CellsOf(ps: seq<Placement>): (cells: seq<Cell>)
    ensures |cells| == |ps|
    decreases |ps|
  {
    if ps == [] then [] else CellsOf(ps[..|ps| - 1]) + [ps[|ps| - 1].cell]
  }

  /** The categories of a sequence of placements. */
  function CategoriesOf(ps: seq<Placement>): (cats: seq<Category>)
    ensures |cats| == |ps|
    decreases |ps|
  {
    if ps == [] then [] else CategoriesOf(ps[..|ps| - 1]) + [ps[|ps| - 1].category]
  }

  /** n copies of one category. */
  function Repeat(cat: Category, n: nat): (r: seq<Category>)
    ensures |r| == n
  {
    if n == 0 then [] else Repeat(cat, n - 1) + [cat]
  }

  lemma {:induction false} PlaceAppend(cells: seq<Cell>, c: Cell, cat: Category)
    ensures Place(cells + [c], cat) == Place(cells, cat) + [Placement(c, cat)]
  {
    assert (cells + [c])[..|cells|] == cells;
  }

  /** Placing objects on cells puts them on exactly those cells, all of the one category. */
  lemma {:induction false} PlaceContents(cells: seq<Cell>, cat: Category)
    ensures CellsOf(Place(cells, cat)) == cells
    ensures CategoriesOf(Place(cells, cat)) == Repeat(cat, |cells|)
    decreases |cells|
  {
    if cells != [] {
      var init := cells[..|cells| - 1];
      PlaceContents(init, cat);
      var ps := Place(cells, cat);
      assert ps[..|ps| - 1] == Place(init, cat);
      assert cells == init + [cells[|cells| - 1]];
    }
  }

  /** Taking the cells, or the categories, of placements commutes with concatenation. */
  lemma CellsOfAppend(a: seq<Placement>, b: seq<Placement>)
    ensures CellsOf(a + b) == CellsOf(a) + CellsOf(b)
    ensures CategoriesOf(a + b) == CategoriesOf(a) + CategoriesOf(b)
  {
    CellsOfConcat(a, b);
    CategoriesOfConcat(a, b);
  }

  lemma {:induction false} CellsOfConcat(a: seq<Placement>, b: seq<Placement>)
    ensures CellsOf(a + b) == CellsOf(a) + CellsOf(b)
    decreases |b|
  {
    if b == [] {
      assert a + b == a;
    } else {
      var init, last := b[..|b| - 1], b[|b| - 1];
      CellsOfConcat(a, init);
      assert (a + b)[..|a + b| - 1] == a + init;
      assert (a + b)[|a + b| - 1] == last;
      AppendAssoc(CellsOf(a), CellsOf(init), [last.cell]);
    }
  }

  lemma {:induction false} CategoriesOfConcat(a: seq<Placement>, b: seq<Placement>)
    ensures CategoriesOf(a + b) == CategoriesOf(a) + CategoriesOf(b)
    decreases |b|
  {
    if b == [] {
      assert a + b == a;
    } else {
      var init, last := b[..|b| - 1], b[|b| - 1];
      CategoriesOfConcat(a, init);
      assert (a + b)[..|a + b| - 1] == a + init;
      assert (a + b)[|a + b| - 1] == last;
      AppendAssoc(CategoriesOf(a), CategoriesOf(init), [last.category]);
    }
  }

  /** How many cells a scatter of `count` objects pops from a list of `size` cells
      before it finishes or the list runs dry. */
  function PopCount(count: int, size: nat): nat
  {
    if count <= 0 then 0 else if count <= size then count else size
  }

  /** Layout_Object_At_Random once its count is drawn: pop `count` cells with the given draws and
      place one object of the category on each; if the list runs dry first, the pop on the
      empty list fails and the scatter stops there. */
  function ScatterOnce(pool: seq<Cell>, count: int, picks: seq<int>, cat: Category): (s: Scatter)
    requires |picks| >= PopCount(count, |pool|)
    requires DrawsFit(|pool|, picks)
    ensures IndicesFit(|pool|, picks[..PopCount(count, |pool|)])
  {
    var n := PopCount(count, |pool|);
    DrawsFitIndices(|pool|, picks, n);
    var used := picks[..n];
    Scatter(Place(Drawn(pool, used), cat), Remaining(pool, used), count <= |pool|)
  }

  /** One more successful pop: the list loses the entry at the next pick, and after whatever
      stood before (`earlier`) one more object stands on that entry. */
  lemma ScatterStep(pool: seq<Cell>, picks: seq<int>, i: nat, cat: Category, earlier: seq<Placement>)
    requires i < |picks|
    requires IndicesFit(|pool|, picks[..i])
    requires 0 <= picks[i] < |Remaining(pool, picks[..i])|
    ensures IndicesFit(|pool|, picks[..i + 1])
    ensures Remaining(pool, picks[..i + 1]) == Remove(Remaining(pool, picks[..i]), picks[i])
    ensures earlier + Place(Drawn(pool, picks[..i]), cat) + [Placement(Remaining(pool, picks[..i])[picks[i]], cat)]
         == earlier + Place(Drawn(pool, picks[..i + 1]), cat)
  {
    var next := picks[..i + 1];
    assert next[..|next| - 1] == picks[..i];
    assert next[|next| - 1] == picks[i];
    var placed := Place(Drawn(pool, picks[..i]), cat);
    var p := Placement(Remaining(pool, picks[..i])[picks[i]], cat);
    PlaceAppend(Drawn(pool, picks[..i]), Remaining(pool, picks[..i])[picks[i]], cat);
    assert earlier + placed + [p] == earlier + (placed + [p]);
  }

  /** The scatter is what its PopCount(count, |pool|) pops leave and return. */
  lemma ScatterOnceAfter(pool: seq<Cell>, count: int, picks: seq<int>, cat: Category, n: nat)
    requires |picks| >= PopCount(count, |pool|)
    requires DrawsFit(|pool|, picks)
    requires n == PopCount(count, |pool|)
    ensures IndicesFit(|pool|, picks[..n])
    ensures ScatterOnce(pool, count, picks, cat)
         == Scatter(Place(Drawn(pool, picks[..n]), cat), Remaining(pool, picks[..n]), count <= |pool|)
  {
  }

  /** A scatter completes exactly when the list holds enough cells; it places one object per
      popped cell, Max0(count) of them when it completes, and the list shrinks by one per pop. */
  lemma ScatterOnceCounts(pool: seq<Cell>, count: int, picks: seq<int>, cat: Category)
    requires |picks| >= PopCount(count, |pool|)
    requires DrawsFit(|pool|, picks)
    ensures var s := ScatterOnce(pool, count, picks, cat);
      && (s.complete <==> count <= |pool|)
      && |s.placed| + |s.rest| == |pool|
      && (s.complete ==> |s.placed| == Max0(count))
      && (!s.complete ==> s.rest == [])
      && CategoriesOf(s.placed) == Repeat(cat, |s.placed|)
  {
    var used := picks[..PopCount(count, |pool|)];
    PlaceContents(Drawn(pool, used), cat);
  }

  /** A scatter moves cells from the list to the placements and nothing else: placed cells and
      remaining list together are the old list, up to order. */
  lemma ScatterOncePartition(pool: seq<Cell>, count: int, picks: seq<int>, cat: Category)
    requires |picks| >= PopCount(count, |pool|)
    requires DrawsFit(|pool|, picks)
    ensures var s := ScatterOnce(pool, count, picks, cat);
      multiset(CellsOf(s.placed) + s.rest) == multiset(pool)
  {
    var used := picks[..PopCount(count, |pool|)];
    DrawConserves(pool, used);
    PlaceContents(Drawn(pool, used), cat);
  }

  /** One call of Layout_Object_At_Random with its count already drawn: how many objects,
      the index draws for their cells, and their category. */
  datatype Stage = Stage(count: int, picks: seq<int>, category: Category)

  /** The draws fit a run of scatters: each stage has one index draw per object, fitting the
      list as the earlier stages leave it. */
  predicate StagesFit(n: int, stages: seq<Stage>)
    decreases |stages|
  {
    stages == [] ||
    (|stages[0].picks| == Max0(stages[0].count) && DrawsFit(n, stages[0].picks) &&
     StagesFit(n - |stages[0].picks|, stages[1..]))
  }

  /** Scatters run one after another, each drawing from what the previous one left;
      a scatter that runs dry ends the run. */
  function ScatterSeq(pool: seq<Cell>, stages: seq<Stage>): Scatter
    requires StagesFit(|pool|, stages)
    decreases |stages|
  {
    if stages == [] then Scatter([], pool, true)
    else
      var st := stages[0];
      var first := ScatterOnce(pool, st.count, st.picks, st.category);
      if !first.complete then first
      else
        var more := ScatterSeq(first.rest, stages[1..]);
        Scatter(first.placed + more.placed, more.rest, more.complete)
  }

  /** The scatters of Setup_Scene, in its order: inner walls, food, enemies. */
  function SceneStages(walls: int, wallPicks: seq<int>, food: int, foodPicks: seq<int>,
                       enemies: int, enemyPicks: seq<int>): seq<Stage>
  {
    [Stage(walls, wallPicks, InnerWall), Stage(food, foodPicks, Food), Stage(enemies, enemyPicks, Enemy)]
  }

  /** How many objects a run of scatters asks for. */
  function Demand(stages: seq<Stage>): nat
    decreases |stages|
  {
    if stages == [] then 0 else Max0(stages[0].count) + Demand(stages[1..])
  }

  /** The categories a completed run places, in order: each stage's category once per object. */
  function Plan(stages: seq<Stage>): seq<Category>
    decreases |stages|
  {
    if stages == [] then [] else Repeat(stages[0].category, Max0(stages[0].count)) + Plan(stages[1..])
  }

  /** A run completes exactly when the list holds everything it asks for, and then places one
      object per request, stage after stage in order; a run that falls short empties the list.
      Either way the list loses one cell per placed object. */
  lemma {:induction false} ScatterSeqCounts(pool: seq<Cell>, stages: seq<Stage>)
    requires StagesFit(|pool|, stages)
    ensures var s := ScatterSeq(pool, stages);
      && (s.complete <==> Demand(stages) <= |pool|)
      && |s.placed| + |s.rest| == |pool|
      && (!s.complete ==> s.rest == [])
      && (s.complete ==> CategoriesOf(s.placed) == Plan(stages))
    decreases |stages|
  {
    if stages != [] {
      var st := stages[0];
      var first := ScatterOnce(pool, st.count, st.picks, st.category);
      ScatterOnceCounts(pool, st.count, st.picks, st.category);
      if first.complete {
        var more := ScatterSeq(first.rest, stages[1..]);
        ScatterSeqCounts(first.rest, stages[1..]);
        CellsOfAppend(first.placed, more.placed);
      }
    }
  }

  /** A run only moves cells from the list to the placements: placed cells and remaining list
      together are the old list, up to order. */
  lemma {:induction false} ScatterSeqPartition(pool: seq<Cell>, stages: seq<Stage>)
    requires StagesFit(|pool|, stages)
    ensures var s := ScatterSeq(pool, stages);
      multiset(CellsOf(s.placed) + s.rest) == multiset(pool)
    decreases |stages|
  {
    if stages != [] {
      var st := stages[0];
      var first := ScatterOnce(pool, st.count, st.picks, st.category);
      ScatterSeqStep(pool, stages);
      ScatterOncePartition(pool, st.count, st.picks, st.category);
      if first.complete {
        var more := ScatterSeq(first.rest, stages[1..]);
        ScatterSeqPartition(first.rest, stages[1..]);
        MovePartition(pool, first.placed, first.rest, more.placed, more.rest);
      }
    }
  }

  /** One step of a run: the first scatter, then, if it completed, the rest of the run on what it left. */
  lemma ScatterSeqStep(pool: seq<Cell>, stages: seq<Stage>)
    requires StagesFit(|pool|, stages)
    requires stages != []
    ensures var st := stages[0];
      var first := ScatterOnce(pool, st.count, st.picks, st.category);
      && (!first.complete ==> ScatterSeq(pool, stages) == first)
      && (first.complete ==>
            && StagesFit(|first.rest|, stages[1..])
            && var more := ScatterSeq(first.rest, stages[1..]);
               ScatterSeq(pool, stages) == Scatter(first.placed + more.placed, more.rest, more.complete))
  {
    var st := stages[0];
    ScatterOnceCounts(pool, st.count, st.picks, st.category);
  }

  /** Two moves of cells from a list to placements, the second from what the first left, make one move. */
  lemma MovePartition(pool: seq<Cell>, a: seq<Placement>, aRest: seq<Cell>, b: seq<Placement>, bRest: seq<Cell>)
    requires multiset(CellsOf(a) + aRest) == multiset(pool)
    requires multiset(CellsOf(b) + bRest) == multiset(aRest)
    ensures multiset(CellsOf(a + b) + bRest) == multiset(pool)
  {
    CellsOfAppend(a, b);
    var ca, cb := CellsOf(a), CellsOf(b);
    AppendAssoc(ca, cb, bRest);
    assert multiset(ca + (cb + bRest)) == multiset(ca) + multiset(cb + bRest);
    assert multiset(ca + aRest) == multiset(ca) + multiset(aRest);
  }

  /** From a duplicate-free list, all cells a run scatters to are pairwise distinct, come from
      the list and are gone from it afterwards. */
  lemma ScatterSeqDistinct(pool: seq<Cell>, stages: seq<Stage>)
    requires StagesFit(|pool|, stages)
    requires NoDup(pool)
    ensures var s := ScatterSeq(pool, stages);
      && NoDup(CellsOf(s.placed))
      && forall c :: c in CellsOf(s.placed) ==> c in pool && c !in s.rest
  {
    var s := ScatterSeq(pool, stages);
    var all := CellsOf(s.placed) + s.rest;
    ScatterSeqPartition(pool, stages);
    NoDupPermutation(pool, all);
    NoDupSplit(CellsOf(s.placed), s.rest);
    SameMembers(all, pool);
  }

  /** The draws fit Setup_Scene's three scatters exactly when each has one index draw per object
      and fits the list as the scatters before it leave it. */
  lemma SceneStagesFit(n: int, walls: int, wallPicks: seq<int>, food: int, foodPicks: seq<int>,
                       enemies: int, enemyPicks: seq<int>)
    ensures StagesFit(n, SceneStages(walls, wallPicks, food, foodPicks, enemies, enemyPicks)) <==>
      && |wallPicks| == Max0(walls) && |foodPicks| == Max0(food) && |enemyPicks| == Max0(enemies)
      && DrawsFit(n, wallPicks)
      && DrawsFit(n - |wallPicks|, foodPicks)
      && DrawsFit(n - |wallPicks| - |foodPicks|, enemyPicks)
  {
    var stages := SceneStages(walls, wallPicks, food, foodPicks, enemies, enemyPicks);
    var n1, n2 := n - |wallPicks|, n - |wallPicks| - |foodPicks|;
    assert stages[1..][1..][1..] == [];
    assert StagesFit(n2 - |enemyPicks|, stages[1..][1..][1..]);
    assert StagesFit(n2, stages[1..][1..]) <==> |enemyPicks| == Max0(enemies) && DrawsFit(n2, enemyPicks);
    assert StagesFit(n1, stages[1..]) <==>
      |foodPicks| == Max0(food) && DrawsFit(n1, foodPicks) && StagesFit(n2, stages[1..][1..]);
  }

  /** The run of Setup_Scene scatter by scatter: the walls pop from the fresh list, the food from
      what the walls leave and the enemies from what the food leaves; the run stops at the first
      scatter that falls short, keeping what it has placed. */
  lemma SceneSteps(pool: seq<Cell>, walls: int, wallPicks: seq<int>, food: int, foodPicks: seq<int>,
                   enemies: int, enemyPicks: seq<int>)
    requires StagesFit(|pool|, SceneStages(walls, wallPicks, food, foodPicks, enemies, enemyPicks))
    ensures |wallPicks| == Max0(walls) && DrawsFit(|pool|, wallPicks)
    ensures var w := ScatterOnce(pool, walls, wallPicks, InnerWall);
      && (!w.complete ==> ScatterSeq(pool, SceneStages(walls, wallPicks, food, foodPicks, enemies, enemyPicks)) == w)
      && (w.complete ==> |foodPicks| == Max0(food) && DrawsFit(|w.rest|, foodPicks))
    ensures var w := ScatterOnce(pool, walls, wallPicks, InnerWall);
      w.complete ==>
        var f := ScatterOnce(w.rest, food, foodPicks, Food);
        && (!f.complete ==>
              ScatterSeq(pool, SceneStages(walls, wallPicks, food, foodPicks, enemies, enemyPicks))
              == Scatter(w.placed + f.placed, f.rest, false))
        && (f.complete ==> |enemyPicks| == Max0(enemies) && DrawsFit(|f.rest|, enemyPicks))
    ensures var w := ScatterOnce(pool, walls, wallPicks, InnerWall);
      w.complete ==>
        var f := ScatterOnce(w.rest, food, foodPicks, Food);
        f.complete ==>
          var e := ScatterOnce(f.rest, enemies, enemyPicks, Enemy);
          ScatterSeq(pool, SceneStages(walls, wallPicks, food, foodPicks, enemies, enemyPicks))
          == Scatter(w.placed + f.placed + e.placed, e.rest, e.complete)
  {
    var stages := SceneStages(walls, wallPicks, food, foodPicks, enemies, enemyPicks);
    ScatterSeqStep(pool, stages);
    var w := ScatterOnce(pool, walls, wallPicks, InnerWall);
    if w.complete {
      ScatterSeqStep(w.rest, stages[1..]);
      var f := ScatterOnce(w.rest, food, foodPicks, Food);
      if f.complete {
        ScatterSeqStep(f.rest, stages[1..][1..]);
        assert stages[1..][1..][1..] == [];
        var e := ScatterOnce(f.rest, enemies, enemyPicks, Enemy);
        assert e.placed + [] == e.placed;
        AppendAssoc(w.placed, f.placed, e.placed);
      }
    }
  }

  /** The three scatters of Setup_Scene complete exactly when the free-cell list holds all the
      walls, food and enemies, and then place the walls first, the food next and the enemies last,
      as many of each as drawn. */
  lemma SceneCounts(pool: seq<Cell>, walls: int, wallPicks: seq<int>, food: int, foodPicks: seq<int>,
                    enemies: int, enemyPicks: seq<int>)
    requires StagesFit(|pool|, SceneStages(walls, wallPicks, food, foodPicks, enemies, enemyPicks))
    ensures var s := ScatterSeq(pool, SceneStages(walls, wallPicks, food, foodPicks, enemies, enemyPicks));
      && (s.complete <==> Max0(walls) + Max0(food) + Max0(enemies) <= |pool|)
      && (s.complete ==>
            CategoriesOf(s.placed) == Repeat(InnerWall, Max0(walls)) + Repeat(Food, Max0(food)) + Repeat(Enemy, Max0(enemies)))
  {
    var stages := SceneStages(walls, wallPicks, food, foodPicks, enemies, enemyPicks);
    ScatterSeqCounts(pool, stages);
    ScenePlan(walls, wallPicks, food, foodPicks, enemies, enemyPicks);
  }

  /** Setup_Scene asks for the walls, the food and the enemies, in that order. */
  lemma ScenePlan(walls: int, wallPicks: seq<int>, food: int, foodPicks: seq<int>,
                  enemies: int, enemyPicks: seq<int>)
    ensures var stages := SceneStages(walls, wallPicks, food, foodPicks, enemies, enemyPicks);
      && Demand(stages) == Max0(walls) + Max0(food) + Max0(enemies)
      && Plan(stages) == Repeat(InnerWall, Max0(walls)) + Repeat(Food, Max0(food)) + Repeat(Enemy, Max0(enemies))
  {
    var stages := SceneStages(walls, wallPicks, food, foodPicks, enemies, enemyPicks);
    var nw, nf, ne := Max0(walls), Max0(food), Max0(enemies);
    assert stages[1..][1..][1..] == [];
    assert Demand(stages[1..][1..]) == ne;
    assert Demand(stages) == nw + nf + ne;
    assert Plan(stages[1..][1..]) == Repeat(Enemy, ne) + [];
    assert Plan(stages[1..]) == Repeat(Food, nf) + Repeat(Enemy, ne);
    assert Plan(stages) == Repeat(InnerWall, nw) + (Repeat(Food, nf) + Repeat(Enemy, ne));
  }

  /** Over one Setup_Scene on a board of non-negative size, the inner walls, food and enemies land on
      pairwise distinct cells, each inside 1..cols-1 x 1..rows-1, each on a floor tile and none on
      the exit cell (cols, rows). */
  lemma SceneLayoutSound(cols: int, rows: int, stages: seq<Stage>)
    requires cols >= 0 && rows >= 0
    requires StagesFit(PoolSize(cols, rows), stages)
    ensures PoolSize(cols, rows) == |PoolCells(cols, rows)|
    ensures var s := ScatterSeq(PoolCells(cols, rows), stages);
      && NoDup(CellsOf(s.placed))
      && forall c :: c in CellsOf(s.placed) ==>
           InRect(c, 1, cols - 1, 1, rows - 1) && BaseTile(cols, rows, c) == Floor && c != Cell(cols, rows)
  {
    var pool := PoolCells(cols, rows);
    PoolContents(cols, rows);
    ScatterSeqDistinct(pool, stages);
    ExitOutsidePool(cols, rows);
    var s := ScatterSeq(pool, stages);
    forall c | c in CellsOf(s.placed) ensures BaseTile(cols, rows, c) == Floor {
      PoolIsFloor(cols, rows, c);
    }
  }

  /** Random.Range(lo, hi + 1) yields a value of [lo, hi], both ends included, when lo <= hi;
      with lo == hi the count is exactly lo, as for the food and the enemies. */
  lemma InclusiveDraw(lo: int, hi: int, n: int)
    requires lo <= hi
    ensures RangeDraw(lo, hi + 1, n) <==> lo <= n <= hi
    ensures lo == hi ==> (RangeDraw(lo, hi + 1, n) <==> n == lo)
  {
  }
}
