/** Patterns whose fate the generation rule fixes: the block, the still
    life that makes playTick stop, on any board; and, worked through on small
    boards, a period-two oscillator and a cell that dies alone. */
module Patterns {
  import opened Rules

  const F := false
  const T := true

  /** A blinker filling a 3 x 3 board, lying across and standing up. The
      cells beyond the edge count as dead: on a wrapping board every cell
      would see all three live cells. */
  const Across: Board := [
    [F, F, F],
    [T, T, T],
    [F, F, F]]

  const Upright: Board := [
    [F, T, F],
    [F, T, F],
    [F, T, F]]

  /** The board is a grid whose live cells are exactly the 2 x 2 block with
      top-left cell (a, c), which lies inside it. */
  ghost predicate LoneBlock(b: Board, cols: nat, rows: nat, a: nat, c: nat) {
    IsGrid(b, cols, rows) && a + 1 < cols && c + 1 < rows &&
    forall y, x :: 0 <= y < rows && 0 <= x < cols ==> (b[y][x] <==> a <= x <= a + 1 && c <= y <= c + 1)
  }

  /** On such a board a position, on the board or off it, is alive exactly
      when it is one of the block's four cells. */
  lemma BlockLive(b: Board, cols: nat, rows: nat, a: nat, c: nat, nx: int, ny: int)
    requires LoneBlock(b, cols, rows, a, c)
    ensures LiveAt(b, nx, ny) == if a <= nx <= a + 1 && c <= ny <= c + 1 then 1 else 0
  {
    if 0 <= ny < rows && 0 <= nx < cols {
      assert b[ny][nx] <==> a <= nx <= a + 1 && c <= ny <= c + 1;
    }
  }

  /** Each block cell has three live neighbours and survives; every other
      cell sees at most two block cells and stays dead. */
  lemma BlockCellStays(b: Board, cols: nat, rows: nat, a: nat, c: nat, x: int, y: int)
    requires LoneBlock(b, cols, rows, a, c)
    requires 0 <= y < rows && 0 <= x < cols
    ensures Next(b)[y][x] == b[y][x]
  {
    BlockLive(b, cols, rows, a, c, x + 1, y + 1);
    BlockLive(b, cols, rows, a, c, x + 1, y);
    BlockLive(b, cols, rows, a, c, x + 1, y - 1);
    BlockLive(b, cols, rows, a, c, x, y + 1);
    BlockLive(b, cols, rows, a, c, x, y - 1);
    BlockLive(b, cols, rows, a, c, x - 1, y + 1);
    BlockLive(b, cols, rows, a, c, x - 1, y);
    BlockLive(b, cols, rows, a, c, x - 1, y - 1);
    if a <= x <= a + 1 && c <= y <= c + 1 {
      assert b[y][x] && Count(b, x, y) == 3;
    } else {
      assert !b[y][x] && Count(b, x, y) <= 2;
    }
  }

  /** A 2 x 2 block with nothing else alive, anywhere on a board of any
      size, is its own successor: no cell is due to change, so playTick
      takes its stopping path. */
  lemma BlockIsStill(b: Board, cols: nat, rows: nat, a: nat, c: nat)
    requires LoneBlock(b, cols, rows, a, c)
    ensures Next(b) == b
    ensures !SomeFlip(b)
  {
    var r := Next(b);
    forall y | 0 <= y < rows ensures r[y] == b[y] {
      forall x | 0 <= x < cols ensures r[y][x] == b[y][x] {
        BlockCellStays(b, cols, rows, a, c, x, y);
      }
    }
    StableIff(b);
  }

  /** A blinker lying across stands up in the next generation. */
  lemma BlinkerStandsUp()
    ensures Next(Across) == Upright
    ensures SomeFlip(Across)
  {
    var r := Next(Across);
    assert r[0] == Upright[0];
    assert r[1] == Upright[1];
    assert r[2] == Upright[2];
    assert Upright[0][1] != Across[0][1];
    StableIff(Across);
  }

  /** A standing blinker lies down again, so the blinker has period two. */
  lemma BlinkerLiesDown()
    ensures Next(Upright) == Across
    ensures SomeFlip(Upright)
  {
    var r := Next(Upright);
    assert r[0] == Across[0];
    assert r[1] == Across[1];
    assert r[2] == Across[2];
    assert Upright[0][1] != Across[0][1];
    StableIff(Upright);
  }

  /** A live cell with no live neighbour dies of underpopulation. */
  lemma LoneCellDies()
    ensures Next([[F, F, F], [F, T, F], [F, F, F]]) == Empty(3, 3)
  {
    var b := [[F, F, F], [F, T, F], [F, F, F]];
    var r := Next(b);
    var e := Empty(3, 3);
    forall y | 0 <= y < 3 ensures r[y] == e[y] {
      forall x | 0 <= x < 3 ensures r[y][x] == e[y][x] {
      }
    }
  }
}
