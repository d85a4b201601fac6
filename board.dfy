/** The `GameBoard` of src/board.rs: a grid stored as one bit vector per row,
    edited cell by cell, reset in place and advanced one generation at a time
    through a freshly built second board. */
module Board {
  import opened Life

  class GameBoard {
    /** `board: Vec<BitVec>`, row `y` holding the cells of that row. */
    var board: Grid

    /** Every row has the same length; construction makes it so and no
        operation changes a row's length. */
    ghost predicate Valid()
      reads this
    {
      Rectangular(board)
    }

    /** `GameBoard::new`: `height` rows of `width` cells, each drawn from
        `coin` when `random` and dead otherwise. */
    constructor (width: nat, height: nat, random: bool, coin: Coin)
      ensures Valid()
      ensures board == Initial(width, height, random, coin)
    {
      var rows: Grid := [];
      var y := 0;
      while y < height
        invariant 0 <= y <= height
        invariant rows == Initial(width, y, random, coin)
      {
        var row: seq<bool> := [];
        var x := 0;
        while x < width
          invariant 0 <= x <= width
          invariant row == InitialRow(x, y, random, coin)
        {
          if random {
            row := row + [coin(x, y)];
          } else {
            row := row + [false];
          }
          x := x + 1;
        }
        rows := rows + [row];
        y := y + 1;
      }
      board := rows;
    }

    /** `recreate`: every existing cell is overwritten, from `coin` when
        `random` and with a dead cell otherwise; the dimensions stay. */
    method Recreate(random: bool, coin: Coin)
      requires Valid()
      modifies this
      ensures Valid()
      ensures board == Initial(Width(old(board)), |old(board)|, random, coin)
    {
      ghost var w, h := Width(board), |board|;
      var y := 0;
      while y < |board|
        invariant 0 <= y <= h && IsGrid(board, w, h)
        invariant forall r, c :: 0 <= r < y && 0 <= c < w ==> board[r][c] == (random && coin(c, r))
      {
        var x := 0;
        while x < |board[y]|
          invariant 0 <= x <= w && IsGrid(board, w, h)
          invariant forall r, c :: 0 <= r < y && 0 <= c < w ==> board[r][c] == (random && coin(c, r))
          invariant forall c :: 0 <= c < x ==> board[y][c] == (random && coin(c, y))
        {
          board := board[y := board[y][x := if random then coin(x, y) else false]];
          x := x + 1;
        }
        y := y + 1;
      }
      ghost var want := Initial(w, h, random, coin);
      forall r | 0 <= r < h ensures board[r] == want[r] {
        assert forall c :: 0 <= c < w ==> board[r][c] == want[r][c];
      }
    }

    /** `set`: cell (x, y) becomes `value` when it is on the board; a
        coordinate off the board leaves the board as it was. */
    method Set(x: nat, y: nat, value: bool)
      requires Valid()
      modifies this
      ensures Valid()
      ensures board == SetCell(old(board), x, y, value)
    {
      if y < |board| && x < |board[y]| {
        board := board[y := board[y][x := value]];
      }
    }

    /** `get_neighbor_count`: the live Moore neighbours of an on-board cell,
        counted over the window clamped to the board. */
    method NeighborCount(x: nat, y: nat) returns (alive: nat)
      requires Valid()
      requires y < |board| && x < |board[y]|
      ensures alive == Neighbors(board, x, y)
      ensures alive <= 8
    {
      alive := 0;
      var yMin := Lower(y);
      var yMax := Upper(y, |board|);
      var xMin := Lower(x);
      var xMax := Upper(x, |board[0]|);
      ClampBounds(y, |board|);
      ClampBounds(x, |board[0]|);
      var py := yMin;
      while py <= yMax
        invariant yMin <= py <= yMax + 1
        invariant alive == BoxSum(board, x, y, yMin, py, xMin, xMax + 1)
      {
        var px := xMin;
        while px <= xMax
          invariant xMin <= px <= xMax + 1
          invariant alive == BoxSum(board, x, y, yMin, py, xMin, xMax + 1) + RowSum(board, x, y, py, xMin, px)
        {
          if !(px == x && py == y) && board[py][px] {
            alive := alive + 1;
          }
          px := px + 1;
        }
        py := py + 1;
      }
      ClampedIsNeighbors(board, x, y);
    }

    /** `update`: every cell of a fresh dead board of the same size is set
        live when the rule says so, counting on the old board only; the
        fresh board then replaces the old one. A board without rows is left
        as it is. */
    method Update()
      requires Valid()
      modifies this
      ensures Valid()
      ensures board == NextGen(old(board))
      ensures |old(board)| == 0 ==> board == old(board)
    {
      if |board| == 0 {
        return;
      }
      ghost var g, w, h := board, |board[0]|, |board|;
      var next := new GameBoard(|board[0]|, |board|, false, (_, _) => false);
      var y := 0;
      while y < |board|
        modifies next
        invariant board == g && 0 <= y <= h
        invariant next.Valid() && IsGrid(next.board, w, h)
        invariant forall r, c :: 0 <= r < h && 0 <= c < w ==>
          next.board[r][c] == (r < y && NextCell(g, c, r))
      {
        var x := 0;
        while x < |board[y]|
          modifies next
          invariant board == g && 0 <= x <= w
          invariant next.Valid() && IsGrid(next.board, w, h)
          invariant forall r, c :: 0 <= r < h && 0 <= c < w ==>
            next.board[r][c] == ((r < y || (r == y && c < x)) && NextCell(g, c, r))
        {
          var alive := NeighborCount(x, y);
          if (board[y][x] && alive == 2) || alive == 3 {
            next.Set(x, y, true);
          }
          x := x + 1;
        }
        y := y + 1;
      }
      NextGenFrom(g, next.board, w, h);
      board := next.board;
    }
  }

  /** Clearing a board with `recreate(false)`, whatever it held, and then
      stepping it leaves a dead board of the same size. */
  method ClearThenStep(width: nat, height: nat, coin: Coin) returns (b: GameBoard)
    ensures b.Valid() && b.board == Dead(width, height)
  {
    b := new GameBoard(width, height, true, coin);
    b.Recreate(false, coin);
    InitialNotRandom(width, height, coin);
    b.Update();
    DeadIsFixedPoint(width, height);
  }
}
