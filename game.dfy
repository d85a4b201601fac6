/** The older engine in src/main.rs, which the current `main` builds: the
    board is a `Vec<Vec<bool>>` owned by the event handler `GameState`,
    advanced once per tick unless paused, and edited by mouse and keys. */
module Game {
  import opened Life

  /** `GameConfig`: the board's size in tiles and a tile's size in pixels.
      The source declares the fields `i32`; they only ever hold the positive
      constants of `DefaultConfig`, so they are natural numbers here. */
  datatype Config = Config(gameWidth: nat, gameHeight: nat, tileSize: nat)

  /** `GameConfig::new`. */
  const DefaultConfig := Config(190, 100, 10)

  datatype MouseButton = Left | Right | Middle | OtherButton

  datatype KeyCode = Escape | P | R | C | OtherKey

  /** `new_board`: `gameHeight` rows of `gameWidth` cells, each drawn from
      `coin` when `random` and dead otherwise. */
  method NewBoard(random: bool, coin: Coin, config: Config) returns (g: Grid)
    ensures g == Initial(config.gameWidth, config.gameHeight, random, coin)
  {
    g := [];
    var y := 0;
    while y < config.gameHeight
      invariant 0 <= y <= config.gameHeight
      invariant g == Initial(config.gameWidth, y, random, coin)
    {
      var row: seq<bool> := [];
      var x := 0;
      while x < config.gameWidth
        invariant 0 <= x <= config.gameWidth
        invariant row == InitialRow(x, y, random, coin)
      {
        if random {
          row := row + [coin(x, y)];
        } else {
          row := row + [false];
        }
        x := x + 1;
      }
      g := g + [row];
      y := y + 1;
    }
  }

  /** `get_surroundings`: walks the whole 3x3 window around (x, y), skipping
      positions off the board and (x, y) itself, so it never indexes outside
      the board, whatever (x, y) is, and counts the live Moore neighbours. */
  method GetSurroundings(board: Grid, config: Config, x: int, y: int) returns (alive: int)
    requires IsGrid(board, config.gameWidth, config.gameHeight)
    ensures alive == Neighbors(board, x, y)
    ensures 0 <= alive <= 8
  {
    alive := 0;
    var py := y - 1;
    while py <= y + 1
      invariant y - 1 <= py <= y + 2
      invariant alive == BoxSum(board, x, y, y - 1, py, x - 1, x + 2)
    {
      var px := x - 1;
      while px <= x + 1
        invariant x - 1 <= px <= x + 2
        invariant alive == BoxSum(board, x, y, y - 1, py, x - 1, x + 2) + RowSum(board, x, y, py, x - 1, px)
      {
        if !(px < 0 || px >= config.gameWidth || py < 0 || py >= config.gameHeight) && !(px == x && py == y) {
          if board[py][px] {
            alive := alive + 1;
          }
        }
        px := px + 1;
      }
      py := py + 1;
    }
    WindowIsNeighbors(board, x, y);
  }

  /** `GameState`: the board, the pause flag and the two drag flags. The
      wheel-driven `slowness` delay is not modelled. */
  class GameState {
    const config: Config
    var gameBoard: Grid
    var paused: bool
    var mouseLeft: bool
    var mouseRight: bool

    /** The board always has the configured dimensions. */
    ghost predicate Valid()
      reads this
    {
      IsGrid(gameBoard, config.gameWidth, config.gameHeight)
    }

    /** `GameState::new`: a random board, running, no button held. */
    constructor (config: Config, coin: Coin)
      ensures Valid() && this.config == config
      ensures gameBoard == Initial(config.gameWidth, config.gameHeight, true, coin)
      ensures !paused && !mouseLeft && !mouseRight
    {
      var board := NewBoard(true, coin, config);
      this.config := config;
      gameBoard := board;
      paused, mouseLeft, mouseRight := false, false, false;
    }

    /** `update`: while paused nothing happens; otherwise every cell of a
        fresh dead board is written from the rule, counting on the old board
        only, and the fresh board replaces the old one. */
    method Update()
      requires Valid()
      modifies this
      ensures Valid()
      ensures gameBoard == if old(paused) then old(gameBoard) else NextGen(old(gameBoard))
      ensures paused == old(paused) && mouseLeft == old(mouseLeft) && mouseRight == old(mouseRight)
    {
      if paused {
        return;
      }
      ghost var g, w, h := gameBoard, config.gameWidth, config.gameHeight;
      var next := NewBoard(false, (_, _) => false, config);
      var y := 0;
      while y < config.gameHeight
        modifies {}
        invariant 0 <= y <= h && IsGrid(next, w, h)
        invariant forall r, c :: 0 <= r < h && 0 <= c < w ==>
          next[r][c] == (r < y && NextCell(g, c, r))
      {
        var x := 0;
        while x < config.gameWidth
          modifies {}
          invariant 0 <= x <= w && IsGrid(next, w, h)
          invariant forall r, c :: 0 <= r < h && 0 <= c < w ==>
            next[r][c] == ((r < y || (r == y && c < x)) && NextCell(g, c, r))
        {
          var alive := GetSurroundings(gameBoard, config, x, y);
          var cell: bool;
          if gameBoard[y][x] {
            if alive < 2 || alive > 3 {
              cell := false;
            } else {
              cell := true;
            }
          } else {
            if alive == 3 {
              cell := true;
            } else {
              cell := false;
            }
          }
          assert cell == NextCell(g, x, y);
          next := next[y := next[y][x := cell]];
          x := x + 1;
        }
        y := y + 1;
      }
      NextGenFrom(g, next, w, h);
      gameBoard := next;
    }

    /** `mouse_button_down_event` on tile (tileX, tileY): off the board
        nothing happens; the left button makes the cell live and starts a
        left drag, the right button kills it and starts a right drag. */
    method MouseButtonDown(button: MouseButton, tileX: nat, tileY: nat)
      requires Valid()
      modifies this
      ensures Valid() && paused == old(paused)
      ensures tileX >= config.gameWidth || tileY >= config.gameHeight ==>
        gameBoard == old(gameBoard) && mouseLeft == old(mouseLeft) && mouseRight == old(mouseRight)
      ensures tileX < config.gameWidth && tileY < config.gameHeight ==>
        gameBoard == (match button
                      case Left => SetCell(old(gameBoard), tileX, tileY, true)
                      case Right => SetCell(old(gameBoard), tileX, tileY, false)
                      case _ => old(gameBoard)) &&
        mouseLeft == (old(mouseLeft) || button == Left) &&
        mouseRight == (old(mouseRight) || button == Right)
    {
      if tileX >= config.gameWidth || tileY >= config.gameHeight {
        return;
      }
      if button == Left {
        gameBoard := gameBoard[tileY := gameBoard[tileY][tileX := true]];
        mouseLeft := true;
      } else if button == Right {
        gameBoard := gameBoard[tileY := gameBoard[tileY][tileX := false]];
        mouseRight := true;
      }
    }

    /** `mouse_button_up_event`: releasing a button ends its drag. */
    method MouseButtonUp(button: MouseButton)
      modifies this
      ensures gameBoard == old(gameBoard) && paused == old(paused)
      ensures mouseLeft == (old(mouseLeft) && button != Left)
      ensures mouseRight == (old(mouseRight) && button != Right)
    {
      if button == Left {
        mouseLeft := false;
      } else if button == Right {
        mouseRight := false;
      }
    }

    /** `mouse_motion_event` over tile (tileX, tileY): during a drag the cell
        is made live (left drag, which wins when both are held) or dead
        (right drag); off the board, or with no drag, nothing happens. */
    method MouseMotion(tileX: nat, tileY: nat)
      requires Valid()
      modifies this
      ensures Valid()
      ensures paused == old(paused) && mouseLeft == old(mouseLeft) && mouseRight == old(mouseRight)
      ensures gameBoard ==
        if (mouseLeft || mouseRight) && tileX < config.gameWidth && tileY < config.gameHeight
        then SetCell(old(gameBoard), tileX, tileY, mouseLeft)
        else old(gameBoard)
    {
      if mouseLeft || mouseRight {
        if tileX >= config.gameWidth || tileY >= config.gameHeight {
          return;
        }
        if mouseLeft {
          gameBoard := gameBoard[tileY := gameBoard[tileY][tileX := true]];
        } else if mouseRight {
          gameBoard := gameBoard[tileY := gameBoard[tileY][tileX := false]];
        }
      }
    }

    /** `key_down_event`: a key that is not a repeat toggles the pause (P),
        refills the board from `coin` (R) or clears it (C); a repeat changes
        nothing. */
    method KeyDown(key: KeyCode, repeat: bool, coin: Coin)
      requires Valid()
      modifies this
      ensures Valid() && mouseLeft == old(mouseLeft) && mouseRight == old(mouseRight)
      ensures paused == (if !repeat && key == P then !old(paused) else old(paused))
      ensures gameBoard ==
        if repeat then old(gameBoard)
        else match key
          case R => Initial(config.gameWidth, config.gameHeight, true, coin)
          case C => Dead(config.gameWidth, config.gameHeight)
          case _ => old(gameBoard)
    {
      if !repeat {
        if key == P {
          paused := !paused;
        } else if key == R {
          gameBoard := NewBoard(true, coin, config);
        } else if key == C {
          gameBoard := NewBoard(false, coin, config);
          InitialNotRandom(config.gameWidth, config.gameHeight, coin);
        }
      }
    }
  }
}
