# 2048 game page: board and tile spawn, in Dafny

This project models the game page of an Ionic/Angular 2048 game
(`GamePage` in `src/app/game/game.page.ts`). It covers:

- the page's 4×4 board of optional tiles, which starts all empty;
- the `rows` and `cols` index lists;
- the tile spawn `generateRandomNumber`, which redraws a random (row, col) until it lands on an
  empty cell and then writes a 4 with probability 25% or a 2 otherwise;
- `ngOnInit`, which spawns twice;
- the swipe handlers, which turn the sign of a gesture's displacement into a `Direction`.

Files:

- `board.dfy` (module `Board`) holds the board as a value (`Grid`, a sequence of rows of
  `Option<Cell>`). It also defines the specification functions of the spawn (`Spawn`, `FirstHit`,
  `HitPosition`) and the lemmas about them.
- `game_page.dfy` (module `Game`) holds the `Direction` enum, the swipe mapping and the class
  `GamePage`. The class keeps the board in an `array2` that it updates in place. The board-writing
  methods are proved against `Board`'s functions, and the swipe handlers against the
  swipe-mapping functions of `Game`.

Randomness is made explicit. A value of `Math.random()` is a `RandomDraw`, an exact rational
`num / den` with `num < den`. `Math.floor(Math.random() * n)` is then `(num * n) / den`. The
spawn takes its random values as parameters:

- the sequence of (column, row) draws its loop consumes, one pair per pass;
- the percentage draw.

The source's loop ends only when a pass lands on an empty cell. The spawn therefore requires
(`CanSpawn`) that some pass does. `FullBoardNeverSpawns` shows that no sequence of draws meets
this on a full board, where the source loops forever.

The source of the game page contains no slide, merge, score or win/lose logic, so none is
modelled here.

## Model

| member | source | states |
|---|---|---|
| Board.EmptyBoard | src/app/game/game.page.ts:26 | the initial board has 4 rows of 4 cells and every cell is empty |
| Board.EmptyBoardIsEmpty | src/app/game/game.page.ts:26 | the initial board has no occupied cell |
| Board.Indices | src/app/game/game.page.ts:27-32 | the index list has length n and holds i at position i |
| Board.IndicesOfSize | src/app/game/game.page.ts:27-32 | `rows` and `cols` are exactly [0, 1, 2, 3] |
| Board.OccupiedBound | src/app/game/game.page.ts:101-104 | a board holds at most 4 tiles per row; it holds 16 iff every cell is occupied, and 0 iff every cell is empty |
| Board.Place | src/app/game/game.page.ts:108-109 | writing one cell sets that cell and leaves every other cell and the board's shape unchanged |
| Board.PlaceOccupied | src/app/game/game.page.ts:108-109 | writing a tile into an empty cell raises the occupied count by exactly one |
| Board.Scale | src/app/game/game.page.ts:102-103 | `Math.floor(Math.random() * n)` is k exactly when the random value lies in [k/n, (k+1)/n), so each index gets an interval of equal width |
| Board.ScaleBelow | src/app/game/game.page.ts:102-103 | a drawn index is always below the length it was drawn against |
| Board.Landing | src/app/game/game.page.ts:102-103 | the drawn row is inside the board and the drawn column inside that row |
| Board.ProbNum4 | src/app/game/game.page.ts:106 | the percentage draw lies in 1..100 |
| Board.SpawnValue | src/app/game/game.page.ts:108-109 | a spawned tile is always 2 or 4 |
| Board.FourIffQuarter | src/app/game/game.page.ts:106-109 | the spawned tile is 4 exactly when `Math.random()` is below 1/4, and 2 otherwise |
| Board.FourOnQuarterOfDraws | src/app/game/game.page.ts:106-109 | exactly 25 of the 100 percentage draws give a 4 |
| Board.FirstHit | src/app/game/game.page.ts:101-104 | the loop stops on the first pass that lands on an empty cell: that pass hits an empty cell, and every earlier pass hit an occupied one |
| Board.HitPosition | src/app/game/game.page.ts:101-104 | the chosen cell is within 0..3 × 0..3 and is currently empty |
| Board.Spawn | src/app/game/game.page.ts:97-110 | one spawn leaves a 4×4 board in which the chosen cell holds a 2 or a 4 and every other cell is unchanged |
| Board.SpawnTileValue | src/app/game/game.page.ts:106-109 | the spawned tile is a 4 iff the percentage draw is ≤ 25, and a 2 iff it is above 25 |
| Board.SpawnOccupied | src/app/game/game.page.ts:101-109 | a spawn fills a previously empty cell, so the occupied count rises by exactly one |
| Board.FullBoardNeverSpawns | src/app/game/game.page.ts:101-104 | on a full board no pass lands on an empty cell, so the loop cannot exit |
| Board.StartingBoard | src/app/game/game.page.ts:37-40 | two spawns on the empty board leave exactly two tiles, in distinct cells, each 2 or 4, and every other cell empty |
| Game.Code | src/app/game/game.page.ts:12-17 | each direction's enum code lies in 0..3 |
| Game.CodesDistinct | src/app/game/game.page.ts:12-17 | distinct directions have distinct codes |
| Game.XSwipeDirection | src/app/game/game.page.ts:46-56 | a horizontal swipe is `Left` iff deltaX < 0 and `Right` otherwise, including deltaX = 0 |
| Game.YSwipeDirection | src/app/game/game.page.ts:58-68 | a vertical swipe is `Up` iff deltaY < 0 and `Down` otherwise, including deltaY = 0 |
| Game.GamePage.constructor | src/app/game/game.page.ts:24-35 | a new page has an all-empty 4×4 board, `rows` = `cols` = [0, 1, 2, 3] and no direction yet |
| Game.GamePage.GenerateRandomNumber | src/app/game/game.page.ts:97-110 | the in-place loop and write leave the board equal to `Spawn` of the old board, with one more occupied cell |
| Game.GamePage.NgOnInit | src/app/game/game.page.ts:37-40 | the board becomes two successive spawns of the old board, with two more occupied cells |
| Game.GamePage.OnXSwipe | src/app/game/game.page.ts:46-56 | only `direction` changes, and it becomes the direction of the horizontal swipe |
| Game.GamePage.OnYSwipe | src/app/game/game.page.ts:58-68 | only `direction` changes, and it becomes the direction of the vertical swipe |
| Game.StartPage | src/app/game/game.page.ts:37-40 | a page that is constructed and then initialised has exactly two tiles, each 2 or 4 |

## Left out

- `initSwipe` and `ngAfterViewInit` (src/app/game/game.page.ts:42-44, 70-95) are not modelled. They only register the swipe handlers with Ionic's `GestureController`, a foreign library. The handlers are modelled as methods that take the displacement directly.
- The `console.log` calls in the swipe handlers are output with no effect on state and are left out.
- `Math.random()` is not modelled as a floating-point generator. Each value it returns is a parameter: an exact rational in [0, 1). Floating-point rounding in `Math.random() * n` is not modelled.
- Game.XSwipeDirection: the displacement is a real number, so a NaN displacement is not covered. The source maps a NaN deltaX to `right`.
- Game.YSwipeDirection: the displacement is a real number, so a NaN displacement is not covered. The source maps a NaN deltaY to `down`.
- The spawn's non-termination on a full board is not a behaviour of the model. The spawn requires a sequence of draws that reaches an empty cell. `FullBoardNeverSpawns` states that no such sequence exists on a full board.
- `Cell` (`src/app/models/cell`) is not part of this model. It is represented as a tile that holds only an integer value.
- The board is an `array2` rather than an array of separate row arrays. The source never aliases rows, so nothing observable is lost.
- `gameBoard` (the `@ViewChild` element reference) and the injected `GestureController` are presentation wiring and are not modelled.
- src/app/app.component.ts (device-language detection and translation setup), src/app/services/alert.service.ts (alert dialogs) and src/app/game/game.module.ts (Angular module wiring) are I/O or framework glue and are not modelled.
- Sliding, merging, scoring and win/lose detection are not modelled. No such code exists in the game page's source: it only fills the board, spawns tiles and records the swipe direction.
