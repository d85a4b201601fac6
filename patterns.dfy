/** Well-known patterns under the generation step of the clamped board: the
    blinker (an oscillator of period 2) and the block (a still life). */
module Patterns {
  import opened Life

  /** Applies the generation step `n` times. */
  function Steps(g: Grid, n: nat): Grid
    decreases n
  {
    if n == 0 then g else Steps(NextGen(g), n - 1)
  }

  /** A `w` by `h` board whose only live cells are the three in row `cy`
      centred on column `cx`. */
  function HorizontalBar(w: nat, h: nat, cx: int, cy: int): Grid
  {
    seq(h, y => seq(w, x => y == cy && cx - 1 <= x <= cx + 1))
  }

  /** A `w` by `h` board whose only live cells are the three in column `cx`
      centred on row `cy`. */
  function VerticalBar(w: nat, h: nat, cx: int, cy: int): Grid
  {
    seq(h, y => seq(w, x => x == cx && cy - 1 <= y <= cy + 1))
  }

  /** Which positions of the horizontal bar's board hold a live cell. */
  lemma HorizontalBarLive(w: nat, h: nat, cx: int, cy: int)
    requires 1 <= cx < w - 1 && 0 <= cy < h
    ensures forall px, py ::
              LiveAt(HorizontalBar(w, h, cx, cy), px, py) ==
              (if py == cy && cx - 1 <= px <= cx + 1 then 1 else 0)
  {
  }

  /** Which positions of the vertical bar's board hold a live cell. */
  lemma VerticalBarLive(w: nat, h: nat, cx: int, cy: int)
    requires 0 <= cx < w && 1 <= cy < h - 1
    ensures forall px, py ::
              LiveAt(VerticalBar(w, h, cx, cy), px, py) ==
              (if px == cx && cy - 1 <= py <= cy + 1 then 1 else 0)
  {
  }

  /** One cell of the blinker's step from horizontal to vertical. */
  lemma HorizontalBarCell(w: nat, h: nat, cx: int, cy: int, x: nat, y: nat)
    requires 1 <= cx < w - 1 && 1 <= cy < h - 1 && x < w && y < h
    ensures NextGen(HorizontalBar(w, h, cx, cy))[y][x] == VerticalBar(w, h, cx, cy)[y][x]
  {
    HorizontalBarLive(w, h, cx, cy);
  }

  /** One cell of the blinker's step from vertical to horizontal. */
  lemma VerticalBarCell(w: nat, h: nat, cx: int, cy: int, x: nat, y: nat)
    requires 1 <= cx < w - 1 && 1 <= cy < h - 1 && x < w && y < h
    ensures NextGen(VerticalBar(w, h, cx, cy))[y][x] == HorizontalBar(w, h, cx, cy)[y][x]
  {
    VerticalBarLive(w, h, cx, cy);
  }

  /** The blinker: a bar of three away from the edges turns from horizontal
      to vertical in one step and back in the next. */
  lemma BlinkerOscillates(w: nat, h: nat, cx: int, cy: int)
    requires 1 <= cx < w - 1 && 1 <= cy < h - 1
    ensures NextGen(HorizontalBar(w, h, cx, cy)) == VerticalBar(w, h, cx, cy)
    ensures NextGen(VerticalBar(w, h, cx, cy)) == HorizontalBar(w, h, cx, cy)
    ensures Steps(HorizontalBar(w, h, cx, cy), 2) == HorizontalBar(w, h, cx, cy)
  {
    var hb, vb := HorizontalBar(w, h, cx, cy), VerticalBar(w, h, cx, cy);
    var a, b := NextGen(hb), NextGen(vb);
    forall y | 0 <= y < h ensures a[y] == vb[y] && b[y] == hb[y] {
      forall x | 0 <= x < w ensures a[y][x] == vb[y][x] && b[y][x] == hb[y][x] {
        HorizontalBarCell(w, h, cx, cy, x, y);
        VerticalBarCell(w, h, cx, cy, x, y);
      }
    }
    assert Steps(hb, 2) == Steps(a, 1);
    assert Steps(vb, 1) == Steps(b, 0);
  }

  /** A `w` by `h` board whose only live cells are the 2x2 block with its
      top-left corner at (left, top). */
  function Block(w: nat, h: nat, left: int, top: int): Grid
  {
    seq(h, y => seq(w, x => left <= x <= left + 1 && top <= y <= top + 1))
  }

  /** Which positions of the block's board hold a live cell. */
  lemma BlockLive(w: nat, h: nat, left: nat, top: nat)
    requires left + 1 < w && top + 1 < h
    ensures forall px, py ::
              LiveAt(Block(w, h, left, top), px, py) ==
              (if left <= px <= left + 1 && top <= py <= top + 1 then 1 else 0)
  {
  }

  /** One cell of the block's step. */
  lemma BlockCell(w: nat, h: nat, left: nat, top: nat, x: nat, y: nat)
    requires left + 1 < w && top + 1 < h && x < w && y < h
    ensures NextGen(Block(w, h, left, top))[y][x] == Block(w, h, left, top)[y][x]
  {
    BlockLive(w, h, left, top);
  }

  /** The block is a still life, also against an edge of the board. */
  lemma BlockIsStill(w: nat, h: nat, left: nat, top: nat)
    requires left + 1 < w && top + 1 < h
    ensures NextGen(Block(w, h, left, top)) == Block(w, h, left, top)
  {
    var b := Block(w, h, left, top);
    var n := NextGen(b);
    forall y | 0 <= y < h ensures n[y] == b[y] {
      forall x | 0 <= x < w ensures n[y][x] == b[y][x] {
        BlockCell(w, h, left, top, x, y);
      }
    }
  }

  /** A still life stays put for any number of steps. */
  lemma {:induction false} StillLifeForever(g: Grid, n: nat)
    requires NextGen(g) == g
    ensures Steps(g, n) == g
  {
    if n > 0 {
      StillLifeForever(g, n - 1);
    }
  }
}
