/** BoardManager: builds one level. The free-cell list `gridPositions` is a field the methods
    rewrite in place; every Instantiate call is recorded, in order, in `instances`. */
module Manager {
  import opened Cells
  import opened Draws
  import opened Board

  /** The inspector defaults of BoardManager's fields. */
  const DefaultRows := 8
  const DefaultCols := 8
  const DefaultWallCount := Count(5, 9)
  const DefaultFoodCount := Count(1, 5)

  class BoardManager {
    const rows: int
    const cols: int
    const wallCount: Count
    const foodCount: Count

    /** The cells still free for random objects. */
    var gridPositions: seq<Cell>
    /** Every object instantiated so far, in order. */
    var instances: seq<Placement>

    /** The free-cell list never holds a cell twice and never leaves 1..cols-1 x 1..rows-1. */
    ghost predicate Valid()
      reads this
    {
      FreeList(cols, rows, gridPositions)
    }

    constructor (rows: int, cols: int, wallCount: Count, foodCount: Count)
      ensures this.rows == rows && this.cols == cols
      ensures this.wallCount == wallCount && this.foodCount == foodCount
      ensures gridPositions == [] && instances == []
      ensures Valid()
    {
      this.rows, this.cols := rows, cols;
      this.wallCount, this.foodCount := wallCount, foodCount;
      gridPositions, instances := [], [];
    }

    /** Initialize_List: clear the free-cell list, then add (x, y) for x in 1..cols-1 and,
        for each x, y in 1..rows-1. */
    method InitializeList()
      modifies this`gridPositions
      ensures gridPositions == PoolCells(cols, rows)
      ensures Valid()
    {
      gridPositions := [];
      var x := 1;
      while x <= cols - 1
        invariant 1 <= x <= if cols < 1 then 1 else cols
        invariant gridPositions == Rect(1, x - 1, 1, rows - 1)
      {
        var y := 1;
        while y <= rows - 1
          invariant 1 <= y <= if rows < 1 then 1 else rows
          invariant gridPositions == Rect(1, x - 1, 1, rows - 1) + Column(x, 1, y - 1)
        {
          gridPositions := gridPositions + [Cell(x, y)];
          y := y + 1;
        }
        x := x + 1;
      }
      PoolContents(cols, rows);
    }

    /** Board_Setup: one tile on every cell of [-1, cols+1] x [-1, rows+1], x outer and y inner;
        an outer wall on the rim, floor inside. */
    method BoardSetup()
      modifies this`instances
      ensures instances == old(instances) + FrameTiles(cols, rows)
    {
      ghost var start := instances;
      var x := -1;
      while x <= cols + 1
        invariant -1 <= x <= if cols < -2 then -1 else cols + 2
        invariant instances == start + Classify(cols, rows, Rect(-1, x - 1, -1, rows + 1))
      {
        ghost var done := Rect(-1, x - 1, -1, rows + 1);
        var y := -1;
        assert done + Column(x, -1, y - 1) == done;
        while y <= rows + 1
          invariant -1 <= y <= if rows < -2 then -1 else rows + 2
          invariant instances == start + Classify(cols, rows, done + Column(x, -1, y - 1))
        {
          var tile := if OnRim(cols, rows, Cell(x, y)) then OuterWall else Floor;
          FrameStep(cols, rows, x, y, start);
          instances := instances + [Placement(Cell(x, y), tile)];
          y := y + 1;
        }
        assert done + Column(x, -1, rows + 1) == Rect(-1, x, -1, rows + 1);
        x := x + 1;
      }
    }

    /** Random_Position: take the cell at the drawn index out of the free-cell list and return it.
        On an empty list the draw is 0 and indexing fails (None). */
    method RandomPosition(randomIndex: int) returns (position: Option<Cell>)
      requires RangeDraw(0, |gridPositions|, randomIndex)
      modifies this`gridPositions
      ensures old(Valid()) ==> Valid()
      ensures old(gridPositions) == [] ==> position == None && gridPositions == old(gridPositions)
      ensures old(gridPositions) != [] ==>
        && position == Some(old(gridPositions)[randomIndex])
        && gridPositions == Remove(old(gridPositions), randomIndex)
    {
      if randomIndex < 0 || randomIndex >= |gridPositions| {
        return None;
      }
      if Valid() {
        RemoveDistinct(gridPositions, randomIndex);
      }
      position := Some(gridPositions[randomIndex]);
      gridPositions := gridPositions[..randomIndex] + gridPositions[randomIndex + 1..];
    }

    /** Layout_Object_At_Random with its count drawn as `objectCount`: pop one free cell per
        object and instantiate an object of the category there. Stops (false) when a pop finds
        the list empty. */
    method LayoutObjectAtRandom(category: Category, minimum: int, maximum: int, objectCount: int, picks: seq<int>)
      returns (ok: bool)
      requires Valid()
      requires RangeDraw(minimum, maximum + 1, objectCount)
      requires |picks| == Max0(objectCount)
      requires DrawsFit(|gridPositions|, picks)
      modifies this`gridPositions, this`instances
      ensures Valid()
      ensures var s := ScatterOnce(old(gridPositions), objectCount, picks, category);
        ok == s.complete && gridPositions == s.rest && instances == old(instances) + s.placed
    {
      ghost var pool := gridPositions;
      ghost var start := instances;
      ghost var n := PopCount(objectCount, |pool|);
      var i := 0;
      while i < objectCount
        invariant 0 <= i <= n
        invariant IndicesFit(|pool|, picks[..i])
        invariant gridPositions == Remaining(pool, picks[..i])
        invariant instances == start + Place(Drawn(pool, picks[..i]), category)
      {
        assert RangeDraw(0, |pool| - i, picks[i]);
        var randomPosition := RandomPosition(picks[i]);
        if randomPosition.None? {
          assert i == n;
          ScatterOnceAfter(pool, objectCount, picks, category, i);
          RemainingFree(cols, rows, pool, picks[..i]);
          return false;
        }
        ScatterStep(pool, picks, i, category, start);
        instances := instances + [Placement(randomPosition.value, category)];
        i := i + 1;
      }
      ScatterOnceAfter(pool, objectCount, picks, category, i);
      RemainingFree(cols, rows, pool, picks[..i]);
      return true;
    }

    /** Setup_Scene: the frame, the free-cell list, then inner walls (with the wall range passed
        as maximum, minimum), exactly foodCount.minimum food, floor(log2 level) enemies, and the
        exit at (cols, rows). A scatter that runs out of cells aborts the rest (false). */
    method SetupScene(level: int, wallDraw: int, wallPicks: seq<int>, foodPicks: seq<int>, enemyPicks: seq<int>)
      returns (ok: bool)
      requires level >= 1
      requires RangeDraw(wallCount.maximum, wallCount.minimum + 1, wallDraw)
      requires StagesFit(PoolSize(cols, rows),
                         SceneStages(wallDraw, wallPicks, foodCount.minimum, foodPicks, EnemyCount(level), enemyPicks))
      modifies this`gridPositions, this`instances
      ensures Valid()
      ensures var s := ScatterSeq(PoolCells(cols, rows),
                                  SceneStages(wallDraw, wallPicks, foodCount.minimum, foodPicks, EnemyCount(level), enemyPicks));
        && ok == s.complete
        && gridPositions == s.rest
        && (ok ==> instances == old(instances) + FrameTiles(cols, rows) + s.placed + [Placement(Cell(cols, rows), Exit)])
        && (!ok ==> instances == old(instances) + FrameTiles(cols, rows) + s.placed)
    {
      ghost var pool := PoolCells(cols, rows);
      var enemyCount := EnemyCount(level);
      SceneSteps(pool, wallDraw, wallPicks, foodCount.minimum, foodPicks, enemyCount, enemyPicks);
      BoardSetup();
      ghost var framed := instances;
      InitializeList();

      ok := LayoutObjectAtRandom(InnerWall, wallCount.maximum, wallCount.minimum, wallDraw, wallPicks);
      ghost var w := ScatterOnce(pool, wallDraw, wallPicks, InnerWall);
      if !ok {
        return;
      }
      ok := LayoutObjectAtRandom(Food, foodCount.minimum, foodCount.minimum, foodCount.minimum, foodPicks);
      ghost var f := ScatterOnce(w.rest, foodCount.minimum, foodPicks, Food);
      AppendAssoc(framed, w.placed, f.placed);
      if !ok {
        return;
      }
      ok := LayoutObjectAtRandom(Enemy, enemyCount, enemyCount, enemyCount, enemyPicks);
      ghost var e := ScatterOnce(f.rest, enemyCount, enemyPicks, Enemy);
      AppendAssoc(framed, w.placed + f.placed, e.placed);
      if !ok {
        return;
      }
      instances := instances + [Placement(Cell(cols, rows), Exit)];
    }
  }

  /** The level GameManager starts at. */
  const DefaultLevel := 3

  /** With the inspector defaults an 8 x 8 board has 49 free cells. The default wall call
      asks Random.Range(9, 6), whose result is not constrained, while the default food call
      asks Random.Range(1, 2) and yields exactly one food: for any value v, the wall draw may
      be v and the food draw is v exactly when v is 1. */
  lemma DefaultBoard(v: int)
    ensures PoolSize(DefaultCols, DefaultRows) == 49
    ensures RangeDraw(DefaultWallCount.maximum, DefaultWallCount.minimum + 1, v)
    ensures RangeDraw(DefaultFoodCount.minimum, DefaultFoodCount.minimum + 1, v) <==> v == 1
  {
  }

  /** At the starting level, Setup_Scene places one enemy. */
  lemma DefaultLevelEnemies()
    ensures EnemyCount(DefaultLevel) == 1
  {
  }
}
