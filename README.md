# BoardManager board generation, modelled in Dafny

This project models the level generator of a Unity roguelike: the `BoardManager`
component that lays out one board per level. A level is built in five steps:

1. **Board_Setup** walks the rectangle [-1, cols+1] x [-1, rows+1], x outer and y inner,
   and puts one base tile on every cell: an outer wall on the rim, floor inside.
2. **Initialize_List** clears the free-cell list `gridPositions` and refills it with every
   cell (x, y) with 1 <= x <= cols-1 and 1 <= y <= rows-1, column after column.
3. **Random_Position** takes the cell at a random index out of the free-cell list and returns it.
4. **Layout_Object_At_Random** draws a count with `Random.Range(minimum, maximum + 1)` and
   pops that many free cells, instantiating one object on each.
5. **Setup_Scene** runs the four steps above. It scatters inner walls, then food, then enemies,
   and finally places the exit at (cols, rows).

Setup_Scene passes its arguments exactly as the source does, and the model keeps them:

- the wall scatter is called with `wallCount.maximum, wallCount.minimum`, so the bounds are swapped;
- the food scatter is called with `foodCount.minimum` for both bounds;
- the enemy count is `(int)Mathf.Log(level, 2)`, which the model takes as floor(log2 level).

The files:

- `cells.dfy` (module `Cells`): grid cells, the x-major enumeration `Rect` of a rectangle
  (the order two nested `for` loops visit it), and duplicate-freedom lemmas.
- `draws.dfy` (module `Draws`): random draws as inputs. `RangeDraw` is what the engine's integer
  `Random.Range` may return, `Remove` is `List.RemoveAt`, and `Remaining`/`Drawn` describe
  successive pops driven by a sequence of index draws.
- `board.dfy` (module `Board`): the specification functions. These are the frame tiles
  (`FrameTiles`), the free-cell list (`PoolCells`), the enemy count (`EnemyCount`), one scatter
  (`ScatterOnce`) and the run of scatters of Setup_Scene (`ScatterSeq`, `SceneStages`), with
  the lemmas about them.
- `manager.dfy` (module `Manager`): the class `BoardManager`. Its field `gridPositions` is the
  free-cell list the methods rewrite, and its field `instances` records every Instantiate call in
  order. Each method is written as the source's loops and is proved equal to the specification
  function of its step.

Every random value is a parameter:

- the scatter counts (`objectCount`, `wallDraw`);
- the index draws of the successive pops (`picks`, `wallPicks`, `foodPicks`, `enemyPicks`).

Apart from the class invariant `Valid()` required by `LayoutObjectAtRandom` and `level >= 1`
required by `SetupScene`, the preconditions only say what `Random.Range` can return. When the list is empty, a pop draws
index 0 and the indexing fails. In the source that is an exception in the middle of the loop:
the objects placed so far stay, and nothing after the failing pop runs. The model returns
`None` from `RandomPosition` and `false` from the methods above it, keeps the placements made
so far, and skips the rest of Setup_Scene (including the exit).

## Model

| member | source | states |
|---|---|---|
| Manager.BoardManager.constructor | Assets/Scripts/managers/BoardManager.cs:24-27 | A new manager has the given size and counts, an empty free-cell list and no objects. |
| Manager.DefaultBoard | Assets/Scripts/managers/BoardManager.cs:24-27 | With the default 8 x 8 board the free-cell list has 49 cells. The default wall call of :126 becomes `Random.Range(9, 6)`, so its result is unconstrained. The default food call of :127 yields exactly one food. |
| Manager.DefaultLevelEnemies | Assets/Scripts/managers/GameManager.cs:11 | At the starting level 3, which BoardManager.cs:129 turns into the enemy count, Setup_Scene places one enemy. |
| Manager.BoardManager.InitializeList | Assets/Scripts/managers/BoardManager.cs:46-58 | Whatever the list held before, afterwards it is exactly `PoolCells(cols, rows)` and satisfies the class invariant (no duplicates, all cells inside 1..cols-1 x 1..rows-1). |
| Board.PoolCells | Assets/Scripts/managers/BoardManager.cs:51-56 | The list the nested loops build has PoolSize(cols, rows) = Span(1, cols-1) * Span(1, rows-1) cells. |
| Board.PoolContents | Assets/Scripts/managers/BoardManager.cs:46-58 | The free-cell list holds a cell iff 1 <= x <= cols-1 and 1 <= y <= rows-1, holds none twice, and has (cols-1)*(rows-1) cells when cols, rows >= 1. |
| Cells.RectCells | Assets/Scripts/managers/BoardManager.cs:51-56 | The x-major enumeration of a rectangle visits a cell iff it lies in the rectangle, never twice, and has Span * Span cells. |
| Manager.BoardManager.BoardSetup | Assets/Scripts/managers/BoardManager.cs:61-90 | The method appends exactly `FrameTiles(cols, rows)` to the recorded objects: one tile per visited cell, in loop order. |
| Board.FrameStep | Assets/Scripts/managers/BoardManager.cs:70-87 | One pass of the inner loop at (x, y) extends the tiles of the cells visited so far by the base tile of (x, y). |
| Board.ClassifyAt | Assets/Scripts/managers/BoardManager.cs:74-83 | The i-th tile lies on the i-th visited cell, and it is an outer wall iff that cell is on the rim and floor iff it is not. |
| Board.TilesAtClassify | Assets/Scripts/managers/BoardManager.cs:68-87 | The number of tiles on a cell equals the number of times the loops visit it. |
| Board.FrameCoverage | Assets/Scripts/managers/BoardManager.cs:68-89 | Every cell of [-1, cols+1] x [-1, rows+1] gets exactly one tile and no other cell gets any; a tile is an outer wall iff x is -1 or cols+1 or y is -1 or rows+1, else floor. |
| Board.FrameTileCount | Assets/Scripts/managers/BoardManager.cs:68-70 | For cols, rows >= 0, Board_Setup instantiates (cols+3)*(rows+3) tiles. |
| Board.PoolIsFloor | Assets/Scripts/managers/BoardManager.cs:74-83 | Every free cell is a frame cell whose base tile is floor, never an outer wall. |
| Board.ExitOutsidePool | Assets/Scripts/managers/BoardManager.cs:133 | For cols, rows >= 0, the exit cell (cols, rows) is a frame cell with a floor tile and is not in the free-cell list. |
| Manager.BoardManager.RandomPosition | Assets/Scripts/managers/BoardManager.cs:93-101 | On a non-empty list it returns the entry at the drawn index and leaves the list as `Remove(old list, index)`. On an empty list it fails (None) and changes nothing. The class invariant is kept. |
| Draws.Remove | Assets/Scripts/managers/BoardManager.cs:98 | RemoveAt shortens the list by exactly one and takes away exactly one occurrence of the removed entry (multiset). |
| Draws.RemoveKeepsOrder | Assets/Scripts/managers/BoardManager.cs:98 | After RemoveAt(i), the entries before i keep their positions and those after i move down by one. |
| Draws.RemoveDistinct | Assets/Scripts/managers/BoardManager.cs:98 | On a duplicate-free list, RemoveAt(i) keeps it duplicate-free and removes exactly the value at i: v remains iff v was there and v != s[i]. |
| Draws.DrawStep | Assets/Scripts/managers/BoardManager.cs:95-98 | One more pop removes the entry at the next draw from what earlier pops left, and returns that entry. |
| Draws.DrawsFitIndices | Assets/Scripts/managers/BoardManager.cs:95 | While the list still holds cells, every draw of `Random.Range(0, Count)` is a valid index. |
| Draws.DrawConserves | Assets/Scripts/managers/BoardManager.cs:93-101 | Successive pops lose nothing and invent nothing: the popped entries and the remaining list together are the original list, as a multiset. |
| Draws.DrawnDistinct | Assets/Scripts/managers/BoardManager.cs:93-101 | From a duplicate-free list, no cell is popped twice, every popped cell came from the list and is gone from it, and the rest stays duplicate-free. |
| Board.RemainingFree | Assets/Scripts/managers/BoardManager.cs:93-101 | Popping cells off a valid free-cell list leaves a valid free-cell list. |
| Manager.BoardManager.LayoutObjectAtRandom | Assets/Scripts/managers/BoardManager.cs:104-118 | For a count allowed by `Random.Range(minimum, maximum + 1)`, the loop leaves the list and the recorded objects exactly as `ScatterOnce` says, reports whether every pop succeeded, and keeps the class invariant. |
| Board.ScatterStep | Assets/Scripts/managers/BoardManager.cs:108-115 | One iteration pops the cell at the next draw and appends one object of the category on that cell after the earlier ones. |
| Board.ScatterOnceCounts | Assets/Scripts/managers/BoardManager.cs:106-115 | A scatter completes iff count <= list length, and then places exactly max(count, 0) objects, all of the category. Otherwise it empties the list. The list always shrinks by one per placed object. |
| Board.ScatterOncePartition | Assets/Scripts/managers/BoardManager.cs:108-115 | The placed cells plus the remaining list are the old list, as a multiset. |
| Board.PlaceContents | Assets/Scripts/managers/BoardManager.cs:110-114 | The objects instantiated on the popped cells lie exactly on those cells, in order, all of one category. |
| Board.PlaceAppend | Assets/Scripts/managers/BoardManager.cs:114 | Instantiating on one more cell appends exactly one placement. |
| Board.CellsOfAppend | Assets/Scripts/managers/BoardManager.cs:126-130 | The cells, and the categories, of consecutive scatters are the concatenation of each scatter's. |
| Manager.BoardManager.SetupScene | Assets/Scripts/managers/BoardManager.cs:121-135 | The method appends the frame tiles, then the placements of `ScatterSeq` over the walls, food and enemies, then the exit at (cols, rows) when all scatters completed. It leaves the list as the run leaves it and keeps the class invariant. |
| Board.SceneSteps | Assets/Scripts/managers/BoardManager.cs:126-130 | The walls pop from the fresh list, the food from what the walls leave, the enemies from what the food leaves, and the run stops at the first scatter that falls short. |
| Board.SceneStagesFit | Assets/Scripts/managers/BoardManager.cs:126-130 | The draws fit Setup_Scene's three scatters iff each scatter has one index draw per object and its draws fit the list the earlier scatters leave. |
| Board.ScatterSeqCounts | Assets/Scripts/managers/BoardManager.cs:126-130 | A run completes iff the list holds every requested object. It then places the stages' categories in order, once per object. A run that falls short empties the list, and the list loses one cell per placement either way. |
| Board.ScatterSeqPartition | Assets/Scripts/managers/BoardManager.cs:126-130 | Across the run, placed cells plus the remaining list are the initial list, as a multiset. |
| Board.MovePartition | Assets/Scripts/managers/BoardManager.cs:126-127 | Two consecutive moves of cells from the list to placements make one move. |
| Board.ScatterSeqDistinct | Assets/Scripts/managers/BoardManager.cs:121-130 | From a duplicate-free list, all cells the run places objects on are pairwise distinct, come from the list and are no longer in it. |
| Board.ScenePlan | Assets/Scripts/managers/BoardManager.cs:126-130 | Setup_Scene requests max(walls,0) + max(food,0) + max(enemies,0) objects: the walls first, then the food, then the enemies. |
| Board.SceneCounts | Assets/Scripts/managers/BoardManager.cs:126-130 | Setup_Scene's scatters complete iff the list holds all walls, food and enemies. Then they place exactly that many of each, walls first, food next, enemies last. |
| Board.SceneLayoutSound | Assets/Scripts/managers/BoardManager.cs:121-133 | For cols, rows >= 0, all inner walls, food and enemies land on pairwise distinct cells inside 1..cols-1 x 1..rows-1. Each lands on a floor tile, and none on the exit cell. |
| Board.EnemyCount | Assets/Scripts/managers/BoardManager.cs:129 | For level >= 1 the enemy count e satisfies 2^e <= level < 2^(e+1), so e = floor(log2 level). |
| Board.EnemyCountUnique | Assets/Scripts/managers/BoardManager.cs:129 | Only one exponent brackets the level that way, so the enemy count is exactly floor(log2 level). |
| Board.EnemyCountExamples | Assets/Scripts/managers/BoardManager.cs:129-130 | Levels 1, 2, 3, 4, 7 and 8 get 0, 1, 1, 2, 2 and 3 enemies. |
| Board.InclusiveDraw | Assets/Scripts/managers/BoardManager.cs:106 | When minimum <= maximum, `Random.Range(minimum, maximum + 1)` yields exactly the values of [minimum, maximum]. With minimum == maximum, as for the food (:127) and enemies (:130), it yields exactly that count. |

## Left out

- Unity engine calls: `Instantiate`, `Quaternion.identity`, `transform.SetParent` and the `boardHolder` object. An Instantiate call is modelled as a `(cell, category)` record appended to `instances`; the z coordinate is always 0 and is dropped.
- Prefab variant choice: the `l_*Tiles[Random.Range(0, Length)]` draws (:77, :82, :112) only pick a cosmetic variant within a category. The model records the category, not the variant, so an empty prefab array (which would throw) is not modelled.
- Randomness: every `Random.Range` result is a parameter constrained only to the values the call can return. Uniformity and the generator's state are not modelled.
- Draws.RangeDraw: when min > max, what the engine's integer `Random.Range` returns is not known here, so any value is admitted. This is the case of the wall call at :126 with the default counts (`Random.Range(9, 6)`). The model therefore puts no bound on the inner-wall count; a negative count places nothing.
- Board.EnemyCount: models `(int)Mathf.Log(level, 2f)` as the exact floor of log2 level. The single-precision computation agrees at every power of two and for every level below 2^21 - 1. From 2097151 = 2^21 - 1 on, some levels just below a power of two have a log that rounds up to the next integer, and the real code gives them one more enemy.
- C# `int` arithmetic is treated as unbounded: `cols - 1`, `rows - 1` (:51, :53), `cols + 1`, `rows + 1` (:68, :70, :74) and `maximum + 1` (:106) do not wrap. With `cols = int.MinValue`, for instance, `cols - 1` wraps and the loop at :51 never ends, whereas `PoolCells` is empty. No configuration of a playable board comes near these limits.
- Manager.BoardManager.SetupScene: requires level >= 1, because the logarithm of a level <= 0 is not a finite number and its integer cast is not modelled.
- Manager.BoardManager.SetupScene: an exhausted list makes the source throw, which propagates out of Setup_Scene. The model stops the same way and returns false, but it does not model the exception reaching the caller.
- Manager.BoardManager.constructor: `rows`, `cols`, `wallCount` and `foodCount` are inspector-editable public fields in the source. The model fixes them when the manager is constructed, because no modelled method changes them.
- `MovingObject.cs` (physics line casts, coroutine movement) and `GameManager.cs` (Unity singleton lifecycle) are not part of this model; only its starting level (GameManager.cs:11) is used.
