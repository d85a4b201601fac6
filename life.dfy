/** The rules of Conway's Game of Life on a fixed-size board whose edges are
    clamped (cells outside the board do not exist and are never counted).
    Both variants of the engine, the `GameBoard` of src/board.rs and the
    free functions of src/main.rs, are proved against the definitions here. */
module Life {

  /** A board as rows of cells: `g[y][x]` is the cell in column `x` of row `y`,
      `true` when it is alive. */
  type Grid = seq<seq<bool>>

  /** The source of `rand::random::<bool>()`: the boolean drawn for cell (x, y). */
  type Coin = (nat, nat) -> bool

  /** `g` has exactly `h` rows, each of exactly `w` cells. */
  predicate IsGrid(g: Grid, w: nat, h: nat)
  {
    |g| == h && forall y :: 0 <= y < h ==> |g[y]| == w
  }

  /** Every row is as long as the first one. */
  predicate Rectangular(g: Grid)
  {
    forall y :: 0 <= y < |g| ==> |g[y]| == |g[0]|
  }

  /** The row length of a rectangular board, 0 for a board without rows. */
  function Width(g: Grid): (w: nat)
    ensures Rectangular(g) ==> IsGrid(g, w, |g|)
  {
    if |g| == 0 then 0 else |g[0]|
  }

  /** (x, y) names a cell of `g`. */
  predicate InGrid(g: Grid, x: int, y: int)
  {
    0 <= y < |g| && 0 <= x < |g[y]|
  }

  /** 1 when (x, y) is a live cell of `g`, 0 when it is dead or off the board. */
  function LiveAt(g: Grid, x: int, y: int): nat
  {
    if InGrid(g, x, y) && g[y][x] then 1 else 0
  }

  /** The number of live cells among the eight Moore neighbours of (x, y);
      neighbours that fall off the board are not counted, and the cell itself
      is not one of its neighbours. */
  function Neighbors(g: Grid, x: int, y: int): (n: nat)
    ensures n <= 8
  {
    LiveAt(g, x - 1, y - 1) + LiveAt(g, x, y - 1) + LiveAt(g, x + 1, y - 1) +
    LiveAt(g, x - 1, y)                           + LiveAt(g, x + 1, y) +
    LiveAt(g, x - 1, y + 1) + LiveAt(g, x, y + 1) + LiveAt(g, x + 1, y + 1)
  }

  /** The fate of a cell that is `alive` now and has `n` live neighbours. */
  function Rule(alive: bool, n: nat): bool
  {
    (alive && n == 2) || n == 3
  }

  /** Cell (x, y) of the next generation. */
  function NextCell(g: Grid, x: nat, y: nat): bool
    requires y < |g| && x < |g[y]|
  {
    Rule(g[y][x], Neighbors(g, x, y))
  }

  /** The next generation: every cell computed from the previous generation only. */
  function NextGen(g: Grid): (r: Grid)
    ensures |r| == |g|
    ensures forall y :: 0 <= y < |g| ==> |r[y]| == |g[y]|
  {
    seq(|g|, y requires 0 <= y < |g| =>
      seq(|g[y]|, x requires 0 <= x < |g[y]| => NextCell(g, x, y)))
  }

  /** A board of the right shape holding `NextCell` everywhere is the next generation. */
  lemma NextGenFrom(g: Grid, n: Grid, w: nat, h: nat)
    requires IsGrid(g, w, h) && IsGrid(n, w, h)
    requires forall r, c :: 0 <= r < h && 0 <= c < w ==> n[r][c] == NextCell(g, c, r)
    ensures n == NextGen(g)
  {
    var t := NextGen(g);
    forall r | 0 <= r < h ensures n[r] == t[r] {
      assert forall c :: 0 <= c < w ==> n[r][c] == t[r][c];
    }
  }

  /** Survival and birth: a live cell stays alive exactly when it has two or
      three live neighbours, a dead cell comes alive exactly when it has three,
      all counted on the previous generation. */
  lemma NextGenRule(g: Grid, x: nat, y: nat)
    requires y < |g| && x < |g[y]|
    ensures NextGen(g)[y][x] <==>
      (g[y][x] && 2 <= Neighbors(g, x, y) <= 3) || (!g[y][x] && Neighbors(g, x, y) == 3)
  {
  }

  /** A board of `h` rows of `w` dead cells. */
  function Dead(w: nat, h: nat): (r: Grid)
    ensures IsGrid(r, w, h)
    ensures forall y, x :: 0 <= y < h && 0 <= x < w ==> !r[y][x]
  {
    seq(h, _ => seq(w, _ => false))
  }

  /** A freshly built board: every cell drawn from `coin` when `random`, dead otherwise. */
  function Initial(w: nat, h: nat, random: bool, coin: Coin): (r: Grid)
    ensures IsGrid(r, w, h)
    ensures forall y, x :: 0 <= y < h && 0 <= x < w ==> r[y][x] == (random && coin(x, y))
  {
    seq(h, y requires 0 <= y < h => InitialRow(w, y, random, coin))
  }

  /** Row `y` of `Initial`, as far as column `w`. */
  function InitialRow(w: nat, y: nat, random: bool, coin: Coin): seq<bool>
  {
    seq(w, x requires 0 <= x < w => if random then coin(x, y) else false)
  }

  /** `g` with cell (x, y) set to `v`; a coordinate off the board changes nothing. */
  function SetCell(g: Grid, x: int, y: int, v: bool): (r: Grid)
    ensures |r| == |g|
    ensures forall row :: 0 <= row < |g| ==> |r[row]| == |g[row]|
    ensures InGrid(g, x, y) ==> r[y][x] == v
    ensures !InGrid(g, x, y) ==> r == g
  {
    if InGrid(g, x, y) then g[y := g[y][x := v]] else g
  }

  /** Setting one cell leaves every other cell as it was. */
  lemma SetCellKeepsOthers(g: Grid, x: int, y: int, v: bool)
    ensures forall row, col :: InGrid(g, col, row) && (col, row) != (x, y) ==>
      SetCell(g, x, y, v)[row][col] == g[row][col]
  {
  }

  lemma InitialNotRandom(w: nat, h: nat, coin: Coin)
    ensures Initial(w, h, false, coin) == Dead(w, h)
  {
    var a, b := Initial(w, h, false, coin), Dead(w, h);
    forall y | 0 <= y < h ensures a[y] == b[y] {
      assert forall x :: 0 <= x < w ==> a[y][x] == b[y][x];
    }
  }

  // ---------------------------------------------------------------------
  // Counting by loops: the sums the two neighbour-count loops accumulate.

  /** What the counting loops add for position (px, py) when counting around
      (x, y): 1 exactly when (px, py) is a live cell of the board other than (x, y). */
  function Probe(g: Grid, x: int, y: int, px: int, py: int): nat
  {
    if InGrid(g, px, py) && !(px == x && py == y) && g[py][px] then 1 else 0
  }

  /** Sum of `Probe` over columns lo..hi-1 of row `py`. */
  function RowSum(g: Grid, x: int, y: int, py: int, lo: int, hi: int): nat
    decreases hi - lo
  {
    if hi <= lo then 0 else RowSum(g, x, y, py, lo, hi - 1) + Probe(g, x, y, hi - 1, py)
  }

  /** Sum of `Probe` over rows ylo..yhi-1 and columns xlo..xhi-1. */
  function BoxSum(g: Grid, x: int, y: int, ylo: int, yhi: int, xlo: int, xhi: int): nat
    decreases yhi - ylo
  {
    if yhi <= ylo then 0 else BoxSum(g, x, y, ylo, yhi - 1, xlo, xhi) + RowSum(g, x, y, yhi - 1, xlo, xhi)
  }

  /** The three columns x-1, x, x+1 of row `py`. */
  lemma {:induction false} RowOfThree(g: Grid, x: int, y: int, py: int)
    ensures RowSum(g, x, y, py, x - 1, x + 2) ==
            Probe(g, x, y, x - 1, py) + Probe(g, x, y, x, py) + Probe(g, x, y, x + 1, py)
    ensures RowSum(g, x, y, py, x, x + 2) == Probe(g, x, y, x, py) + Probe(g, x, y, x + 1, py)
    ensures RowSum(g, x, y, py, x - 1, x + 1) == Probe(g, x, y, x - 1, py) + Probe(g, x, y, x, py)
    ensures RowSum(g, x, y, py, x, x + 1) == Probe(g, x, y, x, py)
  {
    assert RowSum(g, x, y, py, x - 1, x) == Probe(g, x, y, x - 1, py);
    assert RowSum(g, x, y, py, x, x) == 0;
    assert RowSum(g, x, y, py, x - 1, x + 1) == RowSum(g, x, y, py, x - 1, x) + Probe(g, x, y, x, py);
    assert RowSum(g, x, y, py, x, x + 1) == RowSum(g, x, y, py, x, x) + Probe(g, x, y, x, py);
  }

  /** The three rows y-1, y, y+1 of a box, between any two column bounds. */
  lemma {:induction false} BoxOfThree(g: Grid, x: int, y: int, xlo: int, xhi: int)
    ensures BoxSum(g, x, y, y - 1, y + 2, xlo, xhi) ==
            RowSum(g, x, y, y - 1, xlo, xhi) + RowSum(g, x, y, y, xlo, xhi) + RowSum(g, x, y, y + 1, xlo, xhi)
    ensures BoxSum(g, x, y, y, y + 2, xlo, xhi) == RowSum(g, x, y, y, xlo, xhi) + RowSum(g, x, y, y + 1, xlo, xhi)
    ensures BoxSum(g, x, y, y - 1, y + 1, xlo, xhi) == RowSum(g, x, y, y - 1, xlo, xhi) + RowSum(g, x, y, y, xlo, xhi)
    ensures BoxSum(g, x, y, y, y + 1, xlo, xhi) == RowSum(g, x, y, y, xlo, xhi)
  {
    assert BoxSum(g, x, y, y - 1, y, xlo, xhi) == RowSum(g, x, y, y - 1, xlo, xhi);
    assert BoxSum(g, x, y, y, y, xlo, xhi) == 0;
    assert BoxSum(g, x, y, y - 1, y + 1, xlo, xhi) == BoxSum(g, x, y, y - 1, y, xlo, xhi) + RowSum(g, x, y, y, xlo, xhi);
    assert BoxSum(g, x, y, y, y + 1, xlo, xhi) == BoxSum(g, x, y, y, y, xlo, xhi) + RowSum(g, x, y, y, xlo, xhi);
  }

  /** The loop of src/main.rs over the full 3x3 window, with its bounds test,
      counts exactly the live Moore neighbours, for every (x, y). */
  lemma WindowIsNeighbors(g: Grid, x: int, y: int)
    ensures BoxSum(g, x, y, y - 1, y + 2, x - 1, x + 2) == Neighbors(g, x, y)
  {
    BoxOfThree(g, x, y, x - 1, x + 2);
    RowOfThree(g, x, y, y - 1);
    RowOfThree(g, x, y, y);
    RowOfThree(g, x, y, y + 1);
  }

  /** `max(v, 1) - 1`: the clamped lower bound of src/board.rs. */
  function Lower(v: nat): (r: nat)
  {
    (if v > 1 then v else 1) - 1
  }

  /** `min(v + 1, n - 1)`: the clamped upper bound of src/board.rs. */
  function Upper(v: nat, n: nat): (r: nat)
    requires v < n
  {
    if v + 1 < n - 1 then v + 1 else n - 1
  }

  /** The clamped bounds of src/board.rs stay on the board and cover every
      on-board position of the 3x3 window around an on-board coordinate. */
  lemma ClampBounds(v: nat, n: nat)
    requires v < n
    ensures 0 <= Lower(v) <= v <= Upper(v, n) < n
    ensures Lower(v) == (if v == 0 then v else v - 1)
    ensures Upper(v, n) == (if v == n - 1 then v else v + 1)
  {
  }

  /** Clamping the columns of one row loses no live cell. */
  lemma {:induction false} RowClampAgrees(g: Grid, x: nat, y: int, py: int)
    requires Rectangular(g) && |g| > 0 && x < |g[0]|
    ensures RowSum(g, x, y, py, Lower(x), Upper(x, |g[0]|) + 1) == RowSum(g, x, y, py, x - 1, x + 2)
  {
    RowOfThree(g, x, y, py);
    ClampBounds(x, |g[0]|);
    assert Probe(g, x, y, x - 1, py) == 0 || x > 0;
    assert Probe(g, x, y, x + 1, py) == 0 || x + 1 < |g[0]| by {
      if 0 <= py < |g| { assert |g[py]| == |g[0]|; }
    }
  }

  /** The clamped loop of src/board.rs and the bounds-tested window loop of
      src/main.rs add up the same cells, for every coordinate on the board. */
  lemma {:induction false} ClampedWindowAgree(g: Grid, x: nat, y: nat)
    requires Rectangular(g) && y < |g| && x < |g[y]|
    ensures BoxSum(g, x, y, Lower(y), Upper(y, |g|) + 1, Lower(x), Upper(x, |g[0]|) + 1) ==
            BoxSum(g, x, y, y - 1, y + 2, x - 1, x + 2)
  {
    var xlo, xhi := Lower(x), Upper(x, |g[0]|) + 1;
    ClampBounds(y, |g|);
    BoxOfThree(g, x, y, xlo, xhi);
    BoxOfThree(g, x, y, x - 1, x + 2);
    RowClampAgrees(g, x, y, y - 1);
    RowClampAgrees(g, x, y, y);
    RowClampAgrees(g, x, y, y + 1);
    if y == 0 {
      RowOfThree(g, x, y, y - 1);
    }
    if y == |g| - 1 {
      RowOfThree(g, x, y, y + 1);
    }
  }

  /** The clamped loop of src/board.rs counts exactly the live Moore neighbours. */
  lemma ClampedIsNeighbors(g: Grid, x: nat, y: nat)
    requires Rectangular(g) && y < |g| && x < |g[y]|
    ensures BoxSum(g, x, y, Lower(y), Upper(y, |g|) + 1, Lower(x), Upper(x, |g[0]|) + 1) == Neighbors(g, x, y)
  {
    ClampedWindowAgree(g, x, y);
    WindowIsNeighbors(g, x, y);
  }

  // ---------------------------------------------------------------------
  // Properties of the rules.

  /** A cell's own state never enters its neighbour count. */
  lemma NeighborsIgnoreOwnCell(g: Grid, x: int, y: int, v: bool)
    ensures Neighbors(SetCell(g, x, y, v), x, y) == Neighbors(g, x, y)
  {
    var s := SetCell(g, x, y, v);
    forall dx, dy | -1 <= dx <= 1 && -1 <= dy <= 1 && (dx, dy) != (0, 0)
      ensures LiveAt(s, x + dx, y + dy) == LiveAt(g, x + dx, y + dy)
    {
      assert InGrid(s, x + dx, y + dy) == InGrid(g, x + dx, y + dy);
    }
  }

  /** A corner cell has at most three neighbours on the board. */
  lemma CornerHasThreeNeighbors(g: Grid)
    ensures Neighbors(g, 0, 0) <= 3
  {
    assert LiveAt(g, -1, -1) == LiveAt(g, 0, -1) == LiveAt(g, 1, -1) == 0;
    assert LiveAt(g, -1, 0) == LiveAt(g, -1, 1) == 0;
  }

  /** A dead board has no live neighbours anywhere. */
  lemma DeadHasNoNeighbors(w: nat, h: nat, x: int, y: int)
    ensures Neighbors(Dead(w, h), x, y) == 0
  {
    var d := Dead(w, h);
    forall px, py ensures LiveAt(d, px, py) == 0 {
      if InGrid(d, px, py) { assert !d[py][px]; }
    }
  }

  /** An all-dead board is a fixed point of the generation step. */
  lemma DeadIsFixedPoint(w: nat, h: nat)
    ensures NextGen(Dead(w, h)) == Dead(w, h)
  {
    var d, n := Dead(w, h), NextGen(Dead(w, h));
    forall y | 0 <= y < h ensures n[y] == d[y] {
      forall x | 0 <= x < w ensures n[y][x] == d[y][x] {
        DeadHasNoNeighbors(w, h, x, y);
      }
    }
  }

  /** The step keeps the board's dimensions. */
  lemma NextGenKeepsShape(g: Grid, w: nat, h: nat)
    requires IsGrid(g, w, h)
    ensures IsGrid(NextGen(g), w, h)
  {
  }
}
