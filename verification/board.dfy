/** Value-level model of the 2048 game board held by the game page:
    the 4x4 grid of optional tiles, the index lists used to render it,
    the random draws the tile spawn consumes, and the facts about a spawn
    that the page relies on. */
module Board {

  datatype Option<T> = None | Some(value: T)

  /** A tile on the board; only its numeric value is modelled. */
  datatype Cell = Cell(value: int)

  /** A grid cell: `None` stands for the `null` of an empty cell. */
  type Tile = Option<Cell>

  type Grid = seq<seq<Tile>>

  /** Side length of the board (rows and columns). */
  const Size: nat := 4

  /** Well-shaped board: `Size` rows of `Size` cells each. */
  predicate IsBoard(g: Grid) {
    |g| == Size && forall r :: 0 <= r < |g| ==> |g[r]| == Size
  }

  /** The list of indices 0, 1, ..., n - 1 (used for both `rows` and `cols`). */
  function Indices(n: nat): (r: seq<int>)
    ensures |r| == n
    ensures forall i :: 0 <= i < n ==> r[i] == i
  {
    seq(n, i => i)
  }

  lemma IndicesOfSize()
    ensures Indices(Size) == [0, 1, 2, 3]
  {
  }

  /** The board a new page starts with: every cell empty. */
  function EmptyBoard(): (g: Grid)
    ensures IsBoard(g)
    ensures forall r, c :: 0 <= r < Size && 0 <= c < Size ==> g[r][c] == None
  {
    seq(Size, r => seq(Size, c => None))
  }

  // ---------------------------------------------------------------------
  // Counting occupied cells
  // ---------------------------------------------------------------------

  function RowOccupied(row: seq<Tile>): nat {
    if row == [] then 0 else (if row[0].Some? then 1 else 0) + RowOccupied(row[1..])
  }

  /** Number of occupied (non-null) cells of the grid. */
  function Occupied(g: Grid): nat {
    if g == [] then 0 else RowOccupied(g[0]) + Occupied(g[1..])
  }

  /** A row has at most as many tiles as cells, and exactly as many iff it is full. */
  lemma {:induction false} RowOccupiedBound(row: seq<Tile>)
    ensures RowOccupied(row) <= |row|
    ensures RowOccupied(row) == |row| <==> forall c :: 0 <= c < |row| ==> row[c].Some?
    ensures RowOccupied(row) == 0 <==> forall c :: 0 <= c < |row| ==> row[c].None?
  {
    if row != [] {
      RowOccupiedBound(row[1..]);
      assert forall c :: 1 <= c < |row| ==> row[c] == row[1..][c - 1];
    }
  }

  /** A grid of `Size`-long rows holds at most `Size` tiles per row; it holds
      exactly that many iff every cell is occupied, and none iff every cell is empty. */
  lemma {:induction false} OccupiedBound(g: Grid)
    requires forall r :: 0 <= r < |g| ==> |g[r]| == Size
    ensures Occupied(g) <= |g| * Size
    ensures Occupied(g) == |g| * Size <==>
              forall r, c :: 0 <= r < |g| && 0 <= c < Size ==> g[r][c].Some?
    ensures Occupied(g) == 0 <==>
              forall r, c :: 0 <= r < |g| && 0 <= c < Size ==> g[r][c].None?
  {
    if g != [] {
      RowOccupiedBound(g[0]);
      OccupiedBound(g[1..]);
      assert forall r :: 1 <= r < |g| ==> g[r] == g[1..][r - 1];
    }
  }

  lemma EmptyBoardIsEmpty()
    ensures Occupied(EmptyBoard()) == 0
  {
    OccupiedBound(EmptyBoard());
  }

  /** Two boards with the same cells are the same board. */
  lemma SameCells(a: Grid, b: Grid)
    requires IsBoard(a) && IsBoard(b)
    requires forall r, c :: 0 <= r < Size && 0 <= c < Size ==> a[r][c] == b[r][c]
    ensures a == b
  {
    forall r | 0 <= r < Size ensures a[r] == b[r] {}
  }

  // ---------------------------------------------------------------------
  // Writing one cell
  // ---------------------------------------------------------------------

  /** `board[r][c] = t`, as a value. */
  function Place(g: Grid, r: nat, c: nat, t: Tile): (g': Grid)
    requires r < |g| && c < |g[r]|
    ensures |g'| == |g| && forall i :: 0 <= i < |g| ==> |g'[i]| == |g[i]|
    ensures g'[r][c] == t
    ensures forall i, j :: 0 <= i < |g| && 0 <= j < |g[i]| && (i, j) != (r, c) ==> g'[i][j] == g[i][j]
  {
    g[r := g[r][c := t]]
  }

  lemma {:induction false} RowOccupiedFill(row: seq<Tile>, c: nat, x: Cell)
    requires c < |row| && row[c] == None
    ensures RowOccupied(row[c := Some(x)]) == RowOccupied(row) + 1
  {
    if c > 0 {
      assert row[c := Some(x)][1..] == row[1..][c - 1 := Some(x)];
      RowOccupiedFill(row[1..], c - 1, x);
    }
  }

  /** Filling an empty cell raises the number of occupied cells by exactly one. */
  lemma {:induction false} PlaceOccupied(g: Grid, r: nat, c: nat, x: Cell)
    requires r < |g| && c < |g[r]| && g[r][c] == None
    ensures Occupied(Place(g, r, c, Some(x))) == Occupied(g) + 1
  {
    if r == 0 {
      RowOccupiedFill(g[0], c, x);
      assert Place(g, r, c, Some(x))[1..] == g[1..];
    } else {
      assert Place(g, r, c, Some(x))[1..] == Place(g[1..], r - 1, c, Some(x));
      PlaceOccupied(g[1..], r - 1, c, x);
    }
  }

  // ---------------------------------------------------------------------
  // Random draws
  // ---------------------------------------------------------------------

  /** One value of `Math.random()`, as the exact rational `num / den`.
      `Math.random()` returns a number in [0, 1), hence `num < den`. */
  datatype RandomDraw = RandomDraw(num: nat, den: nat) {
    predicate Valid() { num < den }
  }

  /** `Math.floor(Math.random() * n)`: the result is `k` exactly when the
      draw lies in [k / n, (k + 1) / n), so every index below `n` has an
      interval of equal width. */
  function Scale(u: RandomDraw, n: nat): (k: nat)
    requires u.Valid()
    ensures k * u.den <= u.num * n < (k + 1) * u.den
  {
    (u.num * n) / u.den
  }

  /** A scaled draw is always a valid index into a list of length `n`. */
  lemma ScaleBelow(u: RandomDraw, n: nat)
    requires u.Valid() && n > 0
    ensures Scale(u, n) < n
  {
  }

  /** `Math.floor(Math.random() * 100) + 1`: the percentage draw, in 1..100. */
  function ProbNum4(u: RandomDraw): (p: int)
    requires u.Valid()
    ensures 1 <= p <= 100
  {
    ScaleBelow(u, 100);
    Scale(u, 100) + 1
  }

  /** Value of the spawned tile for a percentage draw. */
  function SpawnValue(probNum4: int): (v: int)
    ensures v == 2 || v == 4
  {
    if probNum4 <= 25 then 4 else 2
  }

  lemma MulMonotone(a: nat, b: nat, d: nat)
    requires a <= b
    ensures a * d <= b * d
  {
  }

  /** The spawned tile is a 4 exactly when `Math.random()` is below 1/4. */
  lemma FourIffQuarter(u: RandomDraw)
    requires u.Valid()
    ensures SpawnValue(ProbNum4(u)) == 4 <==> 4 * u.num < u.den
  {
    var k := Scale(u, 100);
    assert ProbNum4(u) == k + 1;
    if k <= 24 {
      MulMonotone(k + 1, 25, u.den);
      assert u.num * 100 < 25 * u.den;
    } else {
      MulMonotone(25, k, u.den);
      assert 25 * u.den <= u.num * 100;
    }
  }

  /** The integers from `lo` up to, not including, `hi`. */
  function Range(lo: int, hi: int): (r: set<int>)
    ensures forall p :: p in r <==> lo <= p < hi
    decreases hi - lo
  {
    if lo >= hi then {} else Range(lo, hi - 1) + {hi - 1}
  }

  lemma {:induction false} RangeSize(lo: int, hi: int)
    requires lo <= hi
    ensures |Range(lo, hi)| == hi - lo
    decreases hi - lo
  {
    if lo < hi {
      assert hi - 1 !in Range(lo, hi - 1);
      RangeSize(lo, hi - 1);
    }
  }

  /** Of the 100 possible percentage draws, exactly 25 spawn a 4. */
  lemma FourOnQuarterOfDraws()
    ensures |set p | 1 <= p <= 100 && SpawnValue(p) == 4| == 25
  {
    assert (set p | 1 <= p <= 100 && SpawnValue(p) == 4) == Range(1, 26);
    RangeSize(1, 26);
  }

  // ---------------------------------------------------------------------
  // Choosing the spawn cell
  // ---------------------------------------------------------------------

  /** The two draws of one pass of the spawn loop: the column first, then the row. */
  datatype CellDraw = CellDraw(colDraw: RandomDraw, rowDraw: RandomDraw) {
    predicate Valid() { colDraw.Valid() && rowDraw.Valid() }
  }

  /** The (row, col) a pass lands on: the row is drawn against the number of
      rows and the column against the length of row 0. */
  function Landing(g: Grid, d: CellDraw): (pos: (nat, nat))
    requires IsBoard(g) && d.Valid()
    ensures pos.0 < |g| && pos.1 < |g[pos.0]|
  {
    ScaleBelow(d.rowDraw, |g|);
    ScaleBelow(d.colDraw, |g[0]|);
    (Scale(d.rowDraw, |g|), Scale(d.colDraw, |g[0]|))
  }

  predicate LandsOnEmpty(g: Grid, d: CellDraw)
    requires IsBoard(g) && d.Valid()
  {
    var pos := Landing(g, d);
    g[pos.0][pos.1] == None
  }

  /** The spawn loop terminates on `draws`: every draw is a valid pair of
      `Math.random()` values and some pass lands on an empty cell. */
  predicate CanSpawn(g: Grid, draws: seq<CellDraw>) {
    IsBoard(g)
    && (forall i :: 0 <= i < |draws| ==> draws[i].Valid())
    && exists i :: 0 <= i < |draws| && LandsOnEmpty(g, draws[i])
  }

  /** Index of the pass on which the spawn loop stops: the first that lands
      on an empty cell. */
  function FirstHit(g: Grid, draws: seq<CellDraw>): (i: nat)
    requires CanSpawn(g, draws)
    ensures i < |draws| && LandsOnEmpty(g, draws[i])
    ensures forall j :: 0 <= j < i ==> !LandsOnEmpty(g, draws[j])
    decreases |draws|
  {
    if LandsOnEmpty(g, draws[0]) then 0
    else
      assert CanSpawn(g, draws[1..]) by {
        var i :| 0 <= i < |draws| && LandsOnEmpty(g, draws[i]);
        assert draws[1..][i - 1] == draws[i];
      }
      1 + FirstHit(g, draws[1..])
  }

  /** The cell the spawn writes: inside the board and currently empty. */
  function HitPosition(g: Grid, draws: seq<CellDraw>): (pos: (nat, nat))
    requires CanSpawn(g, draws)
    ensures pos.0 < Size && pos.1 < Size
    ensures g[pos.0][pos.1] == None
  {
    Landing(g, draws[FirstHit(g, draws)])
  }

  /** The board after one spawn (`generateRandomNumber`): the chosen cell
      now holds a 2 or a 4 and every other cell is unchanged. */
  function Spawn(g: Grid, draws: seq<CellDraw>, prob: RandomDraw): (g': Grid)
    requires CanSpawn(g, draws) && prob.Valid()
    ensures IsBoard(g')
    ensures var pos := HitPosition(g, draws);
            g'[pos.0][pos.1].Some? && g'[pos.0][pos.1].value.value in {2, 4}
    ensures forall r, c :: 0 <= r < Size && 0 <= c < Size && (r, c) != HitPosition(g, draws) ==>
              g'[r][c] == g[r][c]
  {
    var pos := HitPosition(g, draws);
    Place(g, pos.0, pos.1, Some(Cell(SpawnValue(ProbNum4(prob)))))
  }

  /** The spawned tile is a 4 when the percentage draw is at most 25 and a 2 otherwise. */
  lemma SpawnTileValue(g: Grid, draws: seq<CellDraw>, prob: RandomDraw)
    requires CanSpawn(g, draws) && prob.Valid()
    ensures var pos := HitPosition(g, draws);
            var t := Spawn(g, draws, prob)[pos.0][pos.1];
            && (t == Some(Cell(4)) <==> ProbNum4(prob) <= 25)
            && (t == Some(Cell(2)) <==> ProbNum4(prob) > 25)
  {
  }

  /** A spawn fills one previously empty cell, so one more cell is occupied. */
  lemma SpawnOccupied(g: Grid, draws: seq<CellDraw>, prob: RandomDraw)
    requires CanSpawn(g, draws) && prob.Valid()
    ensures Occupied(Spawn(g, draws, prob)) == Occupied(g) + 1
  {
    var pos := HitPosition(g, draws);
    PlaceOccupied(g, pos.0, pos.1, Cell(SpawnValue(ProbNum4(prob))));
  }

  /** On a full board no pass of the spawn loop can land on an empty cell,
      so `generateRandomNumber` never terminates there. */
  lemma FullBoardNeverSpawns(g: Grid, draws: seq<CellDraw>)
    requires IsBoard(g) && Occupied(g) == Size * Size
    ensures !CanSpawn(g, draws)
  {
    OccupiedBound(g);
    forall i | 0 <= i < |draws| && draws[i].Valid()
      ensures !LandsOnEmpty(g, draws[i])
    {
      var pos := Landing(g, draws[i]);
      assert g[pos.0][pos.1].Some?;
    }
  }

  /** The page's start: two spawns on the empty board leave exactly two
      tiles, in distinct cells, each a 2 or a 4, and nothing else. */
  lemma StartingBoard(first: seq<CellDraw>, prob1: RandomDraw, second: seq<CellDraw>, prob2: RandomDraw)
    requires CanSpawn(EmptyBoard(), first) && prob1.Valid()
    requires CanSpawn(Spawn(EmptyBoard(), first, prob1), second) && prob2.Valid()
    ensures var g1 := Spawn(EmptyBoard(), first, prob1);
            var g2 := Spawn(g1, second, prob2);
            var p1 := HitPosition(EmptyBoard(), first);
            var p2 := HitPosition(g1, second);
            && p1 != p2
            && Occupied(g2) == 2
            && g2[p1.0][p1.1].Some? && g2[p1.0][p1.1].value.value in {2, 4}
            && g2[p2.0][p2.1].Some? && g2[p2.0][p2.1].value.value in {2, 4}
            && forall r, c :: 0 <= r < Size && 0 <= c < Size && (r, c) != p1 && (r, c) != p2 ==> g2[r][c] == None
  {
    var g0 := EmptyBoard();
    var g1 := Spawn(g0, first, prob1);
    EmptyBoardIsEmpty();
    SpawnOccupied(g0, first, prob1);
    SpawnOccupied(g1, second, prob2);
  }
}
