/** The Game of Life transition that CellService.playTick computes, stated on
    plain boards: the B3/S23 rule over a clipped, non-wrapping rectangle. */
module Rules {

  /** A generation: b[y][x] tells whether the cell in column x, row y is alive. */
  type Board = seq<seq<bool>>

  predicate IsGrid(b: Board, cols: nat, rows: nat) {
    |b| == rows && forall y :: 0 <= y < rows ==> |b[y]| == cols
  }

  /** The board of the given size with every cell dead. */
  function Empty(cols: nat, rows: nat): (b: Board)
    ensures IsGrid(b, cols, rows)
    ensures forall y, x :: 0 <= y < rows && 0 <= x < cols ==> !b[y][x]
  {
    seq(rows, y => seq(cols, x => false))
  }

  /** 1 when (x, y) lies on the board and its cell is alive, 0 otherwise; a
      position off the board is never alive, so the board does not wrap. */
  function LiveAt(b: Board, x: int, y: int): nat {
    if 0 <= y < |b| && 0 <= x < |b[y]| && b[y][x] then 1 else 0
  }

  /** The offsets (k, v) in the order the counting loops visit them, (0, 0)
      skipped; the cell looked at for (k, v) is (x - k, y - v). */
  const Offsets: seq<(int, int)> :=
    [(-1, -1), (-1, 0), (-1, 1), (0, -1), (0, 1), (1, -1), (1, 0), (1, 1)]

  /** The number of live cells among those reached from (x, y) by `offs`. */
  function SumLive(b: Board, x: int, y: int, offs: seq<(int, int)>): (n: nat)
    ensures n <= |offs|
  {
    if offs == [] then 0
    else
      var o := offs[|offs| - 1];
      SumLive(b, x, y, offs[..|offs| - 1]) + LiveAt(b, x - o.0, y - o.1)
  }

  /** The live neighbours of (x, y): the eight cells around it, those off the
      board counting 0. */
  function Count(b: Board, x: int, y: int): (n: nat)
    ensures n <= 8
  {
    LiveAt(b, x + 1, y + 1) + LiveAt(b, x + 1, y) + LiveAt(b, x + 1, y - 1)
    + LiveAt(b, x, y + 1) + LiveAt(b, x, y - 1)
    + LiveAt(b, x - 1, y + 1) + LiveAt(b, x - 1, y) + LiveAt(b, x - 1, y - 1)
  }

  /** A live cell with fewer than two or more than three live neighbours dies
      (it goes on playTick's cellsToKill list): exactly the live cells that
      the survival rule, two or three neighbours, does not keep. */
  function Dies(alive: bool, n: int): (r: bool)
    ensures r <==> alive && n != 2 && n != 3
  {
    alive && (n < 2 || n > 3)
  }

  /** A dead cell with exactly three live neighbours is born (it goes on
      playTick's cellsToSummon list); no cell is both born and killed. */
  function Born(alive: bool, n: int): (r: bool)
    ensures r ==> !alive && !Dies(alive, n)
  {
    !alive && n == 3
  }

  /** The state of a cell in the next generation, from its state and its
      number of live neighbours: the four rules of the header comment. */
  function NextState(alive: bool, n: nat): (r: bool)
    ensures alive && n < 2 ==> !r
    ensures alive && (n == 2 || n == 3) ==> r
    ensures alive && n > 3 ==> !r
    ensures !alive ==> (r <==> n == 3)
    ensures r != alive <==> Dies(alive, n) || Born(alive, n)
  {
    if Dies(alive, n) then false else if Born(alive, n) then true else alive
  }

  /** The next generation: every cell decided from the neighbour counts of
      the current one. */
  function Next(b: Board): (r: Board)
    ensures |r| == |b|
    ensures forall y :: 0 <= y < |b| ==> |r[y]| == |b[y]|
  {
    seq(|b|, y requires 0 <= y < |b| =>
      seq(|b[y]|, x requires 0 <= x < |b[y]| => NextState(b[y][x], Count(b, x, y))))
  }

  /** Whether some cell of `b` would flip in the next generation. */
  predicate SomeFlip(b: Board) {
    exists y, x :: 0 <= y < |b| && 0 <= x < |b[y]| &&
      (Dies(b[y][x], Count(b, x, y)) || Born(b[y][x], Count(b, x, y)))
  }

  /** A generation is its own successor exactly when no cell is due to die
      or to be born: the condition on which playTick stops. */
  lemma StableIff(b: Board)
    ensures Next(b) == b <==> !SomeFlip(b)
  {
    var r := Next(b);
    if !SomeFlip(b) {
      forall y | 0 <= y < |b| ensures r[y] == b[y] {
        forall x | 0 <= x < |b[y]| ensures r[y][x] == b[y][x] {
          var n := Count(b, x, y);
          assert !Dies(b[y][x], n) && !Born(b[y][x], n);
        }
      }
    } else {
      var y, x :| 0 <= y < |b| && 0 <= x < |b[y]| &&
        (Dies(b[y][x], Count(b, x, y)) || Born(b[y][x], Count(b, x, y)));
      assert r[y][x] != b[y][x];
    }
  }

  /** Extending the offsets by one adds that offset's cell. */
  lemma SumLiveStep(b: Board, x: int, y: int, offs: seq<(int, int)>, k: nat)
    requires k < |offs|
    ensures SumLive(b, x, y, offs[..k + 1])
         == SumLive(b, x, y, offs[..k]) + LiveAt(b, x - offs[k].0, y - offs[k].1)
  {
    assert offs[..k + 1][..k] == offs[..k];
  }

  /** Counting along the loops' offsets gives the neighbour count. */
  lemma SumLiveAll(b: Board, x: int, y: int)
    ensures SumLive(b, x, y, Offsets) == Count(b, x, y)
  {
    assert Offsets[..0] == [];
    SumLiveStep(b, x, y, Offsets, 0);
    SumLiveStep(b, x, y, Offsets, 1);
    SumLiveStep(b, x, y, Offsets, 2);
    SumLiveStep(b, x, y, Offsets, 3);
    SumLiveStep(b, x, y, Offsets, 4);
    SumLiveStep(b, x, y, Offsets, 5);
    SumLiveStep(b, x, y, Offsets, 6);
    SumLiveStep(b, x, y, Offsets, 7);
    assert Offsets[..8] == Offsets;
  }

  /** The cells reached from (x, y) by `offs` that are on the board and alive. */
  function LiveSet(b: Board, x: int, y: int, offs: seq<(int, int)>): set<(int, int)> {
    set o | o in offs && LiveAt(b, x - o.0, y - o.1) == 1 :: (x - o.0, y - o.1)
  }

  /** Independent of any visiting order: the live cells of the board at
      Chebyshev distance exactly 1 from (x, y). */
  function LiveNeighbours(b: Board, x: int, y: int): set<(int, int)> {
    set nx: int, ny: int | x - 1 <= nx <= x + 1 && y - 1 <= ny <= y + 1 && (nx, ny) != (x, y)
      && LiveAt(b, nx, ny) == 1 :: (nx, ny)
  }

  /** Adding one offset adds its cell to the live set exactly when that
      cell is alive. */
  lemma LiveSetSnoc(b: Board, x: int, y: int, init: seq<(int, int)>, o: (int, int))
    ensures LiveSet(b, x, y, init + [o]) ==
      LiveSet(b, x, y, init) + (if LiveAt(b, x - o.0, y - o.1) == 1 then {(x - o.0, y - o.1)} else {})
  {
    var offs := init + [o];
    forall p | p in LiveSet(b, x, y, offs)
      ensures p in LiveSet(b, x, y, init) || (p == (x - o.0, y - o.1) && LiveAt(b, x - o.0, y - o.1) == 1)
    {
      var q :| q in offs && LiveAt(b, x - q.0, y - q.1) == 1 && p == (x - q.0, y - q.1);
      if q != o {
        assert q in init;
      }
    }
  }

  /** An offset not among `init` reaches a cell that `init` does not. */
  lemma NewOffsetNewCell(b: Board, x: int, y: int, init: seq<(int, int)>, o: (int, int))
    requires o !in init
    ensures (x - o.0, y - o.1) !in LiveSet(b, x, y, init)
  {
    forall q | q in init ensures (x - q.0, y - q.1) != (x - o.0, y - o.1) {
      assert q != o;
    }
  }

  /** So a new offset adds one to the size of the live set exactly when its
      cell is alive. */
  lemma LiveSetSnocSize(b: Board, x: int, y: int, init: seq<(int, int)>, o: (int, int))
    requires o !in init
    ensures |LiveSet(b, x, y, init + [o])| == |LiveSet(b, x, y, init)| + LiveAt(b, x - o.0, y - o.1)
  {
    LiveSetSnoc(b, x, y, init, o);
    NewOffsetNewCell(b, x, y, init, o);
  }

  /** No offset occurs twice. */
  predicate Distinct(offs: seq<(int, int)>) {
    forall i, j :: 0 <= i < j < |offs| ==> offs[i] != offs[j]
  }

  /** Dropping the last offset of a list without repeats leaves a list
      without repeats that does not hold it. */
  lemma DistinctInit(offs: seq<(int, int)>)
    requires offs != []
    requires Distinct(offs)
    ensures Distinct(offs[..|offs| - 1])
    ensures offs[|offs| - 1] !in offs[..|offs| - 1]
  {
    var init := offs[..|offs| - 1];
    forall k | 0 <= k < |init| ensures init[k] != offs[|offs| - 1] {
      assert init[k] == offs[k];
    }
  }

  lemma {:induction false} SumLiveIsSetSize(b: Board, x: int, y: int, offs: seq<(int, int)>)
    requires Distinct(offs)
    ensures |LiveSet(b, x, y, offs)| == SumLive(b, x, y, offs)
  {
    if offs != [] {
      var init, o := offs[..|offs| - 1], offs[|offs| - 1];
      DistinctInit(offs);
      SumLiveIsSetSize(b, x, y, init);
      assert offs == init + [o];
      LiveSetSnocSize(b, x, y, init, o);
    }
  }

  /** Every live cell of the window is reached by one of the offsets. */
  lemma WindowInLiveSet(b: Board, x: int, y: int)
    ensures LiveNeighbours(b, x, y) <= LiveSet(b, x, y, Offsets)
  {
    forall p | p in LiveNeighbours(b, x, y) ensures p in LiveSet(b, x, y, Offsets) {
      var o := (x - p.0, y - p.1);
      InWindow(o);
      assert p == (x - o.0, y - o.1) && LiveAt(b, x - o.0, y - o.1) == 1;
    }
  }

  /** The loops visit no offset twice. */
  lemma OffsetsDistinct()
    ensures Distinct(Offsets)
  {
  }

  /** An offset of the 3 x 3 window other than its centre is one the loops
      visit. */
  lemma InWindow(o: (int, int))
    requires -1 <= o.0 <= 1 && -1 <= o.1 <= 1 && o != (0, 0)
    ensures o in Offsets
  {
    if o.0 == -1 {
      assert o == Offsets[o.1 + 1];
    } else if o.0 == 0 {
      assert o == Offsets[if o.1 < 0 then 3 else 4];
    } else {
      assert o == Offsets[o.1 + 6];
    }
  }

  /** Every cell the offsets reach lies in the window. */
  lemma LiveSetInWindow(b: Board, x: int, y: int)
    ensures LiveSet(b, x, y, Offsets) <= LiveNeighbours(b, x, y)
  {
    OffsetsAreTheWindow();
    forall p | p in LiveSet(b, x, y, Offsets) ensures p in LiveNeighbours(b, x, y) {
      var o :| o in Offsets && LiveAt(b, x - o.0, y - o.1) == 1 && p == (x - o.0, y - o.1);
      assert -1 <= o.0 <= 1 && -1 <= o.1 <= 1 && o != (0, 0);
    }
  }

  /** The neighbour count is the number of live cells at Chebyshev distance 1
      on the board: the cell itself is never counted and nothing wraps. */
  lemma CountIsNeighbourSetSize(b: Board, x: int, y: int)
    ensures Count(b, x, y) == |LiveNeighbours(b, x, y)|
  {
    SumLiveAll(b, x, y);
    OffsetsDistinct();
    SumLiveIsSetSize(b, x, y, Offsets);
    WindowInLiveSet(b, x, y);
    LiveSetInWindow(b, x, y);
    assert LiveSet(b, x, y, Offsets) == LiveNeighbours(b, x, y);
  }

  /** The loops' offsets are exactly the 3 x 3 window without its centre. */
  lemma OffsetsAreTheWindow()
    ensures forall o: (int, int) :: o in Offsets <==> -1 <= o.0 <= 1 && -1 <= o.1 <= 1 && o != (0, 0)
  {
    forall o: (int, int) | -1 <= o.0 <= 1 && -1 <= o.1 <= 1 && o != (0, 0) ensures o in Offsets {
      InWindow(o);
    }
  }

  /** Flipping a cell does not change its own neighbour count. */
  lemma CountIgnoresSelf(b: Board, x: int, y: int)
    requires 0 <= y < |b| && 0 <= x < |b[y]|
    ensures Count(b[y := b[y][x := !b[y][x]]], x, y) == Count(b, x, y)
  {
  }

  /** Clipping leaves a corner cell of the board at most three neighbours,
      whichever of the four corners it is. */
  lemma CornerCount(b: Board, cols: nat, rows: nat, x: int, y: int)
    requires IsGrid(b, cols, rows) && 0 <= x < cols && 0 <= y < rows
    requires (x == 0 || x == cols - 1) && (y == 0 || y == rows - 1)
    ensures Count(b, x, y) <= 3
  {
  }

  /** Clipping leaves a cell on any of the four edges of the board at most
      five neighbours. */
  lemma EdgeCount(b: Board, cols: nat, rows: nat, x: int, y: int)
    requires IsGrid(b, cols, rows) && 0 <= x < cols && 0 <= y < rows
    requires x == 0 || y == 0 || x == cols - 1 || y == rows - 1
    ensures Count(b, x, y) <= 5
  {
  }

  /** What the neighbour loops add for offset (k, v): nothing for (0, 0),
      which they skip, otherwise the cell at (x - k, y - v). */
  function Term(b: Board, x: int, y: int, k: int, v: int): nat {
    if k == 0 && v == 0 then 0 else LiveAt(b, x - k, y - v)
  }

  /** How many of the offsets the loops have visited when they reach (k, v):
      three per finished row k, v + 1 in the current one, less the skipped
      (0, 0) once the loops are past it. The pair (2, -1) is the end. */
  function LoopIndex(k: int, v: int): (i: nat)
    requires -1 <= v <= 2 && (-1 <= k <= 1 || (k == 2 && v == -1))
    ensures i <= |Offsets|
    ensures -1 <= k <= 1 && -1 <= v <= 1 && (k, v) != (0, 0) ==> i < |Offsets| && Offsets[i] == (k, v)
  {
    3 * (k + 1) + (v + 1) - (if k > 0 || (k == 0 && v > 0) then 1 else 0)
  }

  /** The count the neighbour loops hold when they reach offset (k, v): the
      live cells reached by the offsets visited before it. */
  function Partial(b: Board, x: int, y: int, k: int, v: int): nat
    requires -1 <= v <= 2 && (-1 <= k <= 1 || (k == 2 && v == -1))
  {
    SumLive(b, x, y, Offsets[..LoopIndex(k, v)])
  }

  /** One pass of the inner loop adds the term of its offset. */
  lemma PartialNext(b: Board, x: int, y: int, k: int, v: int)
    requires -1 <= k <= 1 && -1 <= v <= 1
    ensures Partial(b, x, y, k, v + 1) == Partial(b, x, y, k, v) + Term(b, x, y, k, v)
  {
    var i := LoopIndex(k, v);
    if (k, v) == (0, 0) {
      assert LoopIndex(k, v + 1) == i;
    } else {
      assert LoopIndex(k, v + 1) == i + 1 && Offsets[i] == (k, v);
      SumLiveStep(b, x, y, Offsets, i);
    }
  }

  /** Once the loops are done they have counted every neighbour. */
  lemma PartialAll(b: Board, x: int, y: int)
    ensures Partial(b, x, y, 2, -1) == Count(b, x, y)
  {
    assert Offsets[..8] == Offsets;
    SumLiveAll(b, x, y);
  }
}
