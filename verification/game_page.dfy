/** The game page: the board it renders and mutates in place, the index
    lists it iterates over, the tile spawn run at start-up, and the mapping
    from swipe gestures to a move direction. */
module Game {
  import opened Board

  /** Move directions, with the numeric codes of the source enum. */
  datatype Direction = Up | Down | Left | Right

  function Code(d: Direction): (n: int)
    ensures 0 <= n < 4
  {
    match d
    case Up => 0
    case Down => 1
    case Left => 2
    case Right => 3
  }

  /** The four directions carry four distinct codes. */
  lemma CodesDistinct(d1: Direction, d2: Direction)
    requires d1 != d2
    ensures Code(d1) != Code(d2)
  {
  }

  /** A horizontal swipe means `Left` exactly when it went towards negative x;
      a zero displacement counts as `Right`. */
  function XSwipeDirection(deltaX: real): (d: Direction)
    ensures d == Left || d == Right
    ensures d == Left <==> deltaX < 0.0
  {
    if deltaX < 0.0 then Left else Right
  }

  /** A vertical swipe means `Up` exactly when it went towards negative y;
      a zero displacement counts as `Down`. */
  function YSwipeDirection(deltaY: real): (d: Direction)
    ensures d == Up || d == Down
    ensures d == Up <==> deltaY < 0.0
  {
    if deltaY < 0.0 then Up else Down
  }

  class GamePage {
    /** The board, `board[row, col]`; `None` marks an empty cell. */
    var board: array2<Tile>
    var cols: seq<int>
    var rows: seq<int>
    /** The last swipe direction; unset until the first swipe. */
    var direction: Option<Direction>

    ghost predicate Valid()
      reads this
    {
      && board.Length0 == Size && board.Length1 == Size
      && rows == Indices(Size) && cols == Indices(Size)
    }

    /** The board's contents as a value. */
    ghost function Contents(): (g: Grid)
      reads this`board, board
      ensures |g| == board.Length0
      ensures forall r :: 0 <= r < board.Length0 ==> |g[r]| == board.Length1
      ensures forall r, c :: 0 <= r < board.Length0 && 0 <= c < board.Length1 ==> g[r][c] == board[r, c]
    {
      var a := board;
      seq(a.Length0, r reads a requires 0 <= r < a.Length0 =>
        seq(a.Length1, c reads a requires 0 <= c < a.Length1 => a[r, c]))
    }

    /** A new page: an all-empty 4x4 board, `rows` and `cols` both 0..3,
        no direction yet. */
    constructor ()
      ensures Valid() && fresh(board)
      ensures Contents() == EmptyBoard()
      ensures rows == [0, 1, 2, 3] && cols == [0, 1, 2, 3]
      ensures direction == None
    {
      board := new Tile[Size, Size]((r, c) => None);
      cols := Indices(Size);
      rows := Indices(Size);
      direction := None;
      new;
      IndicesOfSize();
      SameCells(Contents(), EmptyBoard());
    }

    /** `generateRandomNumber`: draw a (row, col) pass after pass until it
        lands on an empty cell, then write a 4 there if the percentage draw
        is at most 25 and a 2 otherwise. `draws` are the successive passes'
        `Math.random()` values and `prob` the percentage draw. */
    method GenerateRandomNumber(draws: seq<CellDraw>, prob: RandomDraw)
      requires Valid()
      requires CanSpawn(Contents(), draws) && prob.Valid()
      modifies board
      ensures Valid()
      ensures Contents() == Spawn(old(Contents()), draws, prob)
      ensures Occupied(Contents()) == old(Occupied(Contents())) + 1
    {
      ghost var g := Contents();
      ghost var hit := FirstHit(g, draws);
      assert |g| == board.Length0 && |g[0]| == board.Length1;
      var i := 0;
      var col := Scale(draws[i].colDraw, board.Length1);
      var row := Scale(draws[i].rowDraw, board.Length0);
      while board[row, col] != None
        invariant 0 <= i <= hit
        invariant (row, col) == Landing(g, draws[i])
        decreases hit - i
      {
        assert i < hit by {
          assert g[row][col] == board[row, col];
        }
        i := i + 1;
        col := Scale(draws[i].colDraw, board.Length1);
        row := Scale(draws[i].rowDraw, board.Length0);
      }
      assert i == hit by {
        assert g[row][col] == board[row, col];
      }
      assert (row, col) == HitPosition(g, draws);

      var probNum4 := Scale(prob, 100) + 1;

      if probNum4 <= 25 {
        board[row, col] := Some(Cell(4));
      } else {
        board[row, col] := Some(Cell(2));
      }

      ghost var want := Place(g, row, col, board[row, col]);
      assert want == Spawn(g, draws, prob);
      ghost var now := Contents();
      forall r, c | 0 <= r < Size && 0 <= c < Size
        ensures now[r][c] == want[r][c]
      {
        if (r, c) != (row, col) {
          calc {
            now[r][c];
            board[r, c];
            old(board[r, c]);
            g[r][c];
          }
        }
      }
      SameCells(now, want);
      SpawnOccupied(g, draws, prob);
    }

    /** `ngOnInit`: two spawns. */
    method NgOnInit(first: seq<CellDraw>, prob1: RandomDraw, second: seq<CellDraw>, prob2: RandomDraw)
      requires Valid()
      requires CanSpawn(Contents(), first) && prob1.Valid()
      requires CanSpawn(Spawn(Contents(), first, prob1), second) && prob2.Valid()
      modifies board
      ensures Valid()
      ensures Contents() == Spawn(Spawn(old(Contents()), first, prob1), second, prob2)
      ensures Occupied(Contents()) == old(Occupied(Contents())) + 2
    {
      GenerateRandomNumber(first, prob1);
      GenerateRandomNumber(second, prob2);
    }

    /** `onXSwipe`: record the direction of a horizontal swipe. */
    method OnXSwipe(deltaX: real)
      modifies this`direction
      ensures direction == Some(XSwipeDirection(deltaX))
    {
      if deltaX < 0.0 {
        direction := Some(Left);
      } else {
        direction := Some(Right);
      }
    }

    /** `onYSwipe`: record the direction of a vertical swipe. */
    method OnYSwipe(deltaY: real)
      modifies this`direction
      ensures direction == Some(YSwipeDirection(deltaY))
    {
      if deltaY < 0.0 {
        direction := Some(Up);
      } else {
        direction := Some(Down);
      }
    }
  }

  /** A page as Angular starts it: constructed, then initialised. It ends
      with exactly two tiles on the board, each a 2 or a 4. */
  method StartPage(first: seq<CellDraw>, prob1: RandomDraw, second: seq<CellDraw>, prob2: RandomDraw)
    returns (page: GamePage)
    requires CanSpawn(EmptyBoard(), first) && prob1.Valid()
    requires CanSpawn(Spawn(EmptyBoard(), first, prob1), second) && prob2.Valid()
    ensures fresh(page) && page.Valid()
    ensures var g := page.Contents();
            && Occupied(g) == 2
            && forall r, c :: 0 <= r < Size && 0 <= c < Size && g[r][c].Some? ==> g[r][c].value.value in {2, 4}
  {
    page := new GamePage();
    page.NgOnInit(first, prob1, second, prob2);
    StartingBoard(first, prob1, second, prob2);
  }
}
