/** The cells a CellService keeps, the hit test that picks the clicked cell,
    and how the service's map from ids to cells is read as a board. */
module Grid {
  import opened Ids
  import opened Rules

  /** A cell as the service stores it: its id, its pixel rectangle and
      whether it is alive. */
  datatype Cell = Cell(id: string, x: int, y: int, w: int, h: int, alive: bool)

  /** The cell that initialize creates for column i, row z: a 9 x 9 pixel
      square, one every 10 pixels, whose column and row can be read back
      from its pixel position. */
  function CellAt(i: nat, z: nat, alive: bool): (c: Cell)
    ensures 0 <= c.x && 0 <= c.y && c.x % 10 == 0 && c.y % 10 == 0 && c.w == 9 && c.h == 9
    ensures c.x / 10 == i && c.y / 10 == z
  {
    Cell(Id(i, z), i * 10, z * 10, 9, 9, alive)
  }

  /** Cell.containsPoint: the closed rectangle [x, x + w] x [y, y + h]. For
      a 9 x 9 cell on the 10-pixel lattice these are exactly the points with
      non-negative coordinates whose tens are the cell's column and row. */
  function ContainsPoint(c: Cell, px: int, py: int): (r: bool)
    ensures 0 <= c.x && 0 <= c.y && c.x % 10 == 0 && c.y % 10 == 0 && c.w == 9 && c.h == 9 ==>
      (r <==> 0 <= px && 0 <= py && px / 10 == c.x / 10 && py / 10 == c.y / 10)
  {
    c.x <= px && c.x + c.w >= px && c.y <= py && c.y + c.h >= py
  }

  /** No point lies in two placed cells, so a click toggles at most one. */
  lemma AtMostOneHit(i: nat, z: nat, a: bool, i': nat, z': nat, a': bool, px: int, py: int)
    requires ContainsPoint(CellAt(i, z, a), px, py)
    requires ContainsPoint(CellAt(i', z', a'), px, py)
    ensures i == i' && z == z'
  {
  }

  /** How many cells initialize lays along `extent` pixels: its loop runs
      while i < extent / 10, a division that JavaScript does not round. */
  function CellsAlong(extent: nat): (n: nat)
    ensures forall i: int :: 0 <= i ==> (i < n <==> 10 * i < extent)
  {
    (extent + 9) / 10
  }

  /** Every key is the id of its cell, and that cell is the one initialize
      placed in some column and row of the cols x rows rectangle; the column
      and row are read back from the cell's pixel position. */
  ghost predicate Placed(cells: map<string, Cell>, cols: nat, rows: nat) {
    forall id :: id in cells ==>
      0 <= cells[id].x && 0 <= cells[id].y && cells[id].x / 10 < cols && cells[id].y / 10 < rows &&
      cells[id] == CellAt(cells[id].x / 10, cells[id].y / 10, cells[id].alive) && cells[id].id == id
  }

  /** Every cell of the cols x rows rectangle is present. */
  ghost predicate Total(cells: map<string, Cell>, cols: nat, rows: nat) {
    forall i: nat, z: nat :: i < cols && z < rows ==> Id(i, z) in cells
  }

  ghost predicate Valid(cells: map<string, Cell>, cols: nat, rows: nat) {
    Placed(cells, cols, rows) && Total(cells, cols, rows)
  }

  /** The generation a map of cells holds. */
  ghost function BoardOf(cells: map<string, Cell>, cols: nat, rows: nat): (b: Board)
    ensures IsGrid(b, cols, rows)
  {
    seq(rows, z requires 0 <= z < rows =>
      seq(cols, i requires 0 <= i < cols => Id(i, z) in cells && cells[Id(i, z)].alive))
  }

  /** Two maps over the same rectangle hold the same board when every cell
      of the rectangle has the state the target board gives it. */
  lemma BoardExt(cells: map<string, Cell>, cols: nat, rows: nat, t: Board)
    requires Total(cells, cols, rows)
    requires IsGrid(t, cols, rows)
    requires forall i: nat, z: nat :: i < cols && z < rows ==> cells[Id(i, z)].alive == t[z][i]
    ensures BoardOf(cells, cols, rows) == t
  {
    var b := BoardOf(cells, cols, rows);
    forall z | 0 <= z < rows ensures b[z] == t[z] {
      forall i | 0 <= i < cols ensures b[z][i] == t[z][i] {
        assert cells[Id(i, z)].alive == t[z][i];
      }
    }
  }

  /** Setting the state of one present cell keeps the map valid. */
  lemma SetAliveValid(cells: map<string, Cell>, cols: nat, rows: nat, id: string, alive: bool)
    requires Valid(cells, cols, rows)
    requires id in cells
    ensures Valid(cells[id := cells[id].(alive := alive)], cols, rows)
  {
    var m := cells[id := cells[id].(alive := alive)];
    assert m.Keys == cells.Keys;
  }

  /** What the neighbour loops add for offset (k, v), read off the map: nothing
      for (0, 0) or for a position outside the cols x rows rectangle,
      otherwise 1 when the cell there is alive. */
  lemma TermAt(cells: map<string, Cell>, cols: nat, rows: nat, x: int, y: int, k: int, v: int)
    requires Total(cells, cols, rows)
    ensures Term(BoardOf(cells, cols, rows), x, y, k, v) ==
      if k == 0 && v == 0 then 0
      else if x - k > -1 && y - v > -1 && x - k < cols && y - v < rows then
        (if cells[Id(x - k, y - v)].alive then 1 else 0)
      else 0
  {
  }

  /** One pass of the inner neighbour loop over a cols x rows rectangle:
      the count grows by one exactly when offset (k, v) is not the cell
      itself and names a live cell inside the rectangle. */
  lemma PartialStep(cells: map<string, Cell>, cols: nat, rows: nat, x: int, y: int, k: int, v: int)
    requires Total(cells, cols, rows)
    requires -1 <= k <= 1 && -1 <= v <= 1
    ensures Partial(BoardOf(cells, cols, rows), x, y, k, v + 1) ==
      Partial(BoardOf(cells, cols, rows), x, y, k, v) +
      if k == 0 && v == 0 then 0
      else if x - k > -1 && y - v > -1 && x - k < cols && y - v < rows then
        (if cells[Id(x - k, y - v)].alive then 1 else 0)
      else 0
  {
    TermAt(cells, cols, rows, x, y, k, v);
    PartialNext(BoardOf(cells, cols, rows), x, y, k, v);
  }

  /** The same, with the rectangle given as a canvas of width x height
      pixels, as the grid's bounds test states it. */
  lemma PartialStepPixels(cells: map<string, Cell>, width: nat, height: nat, x: int, y: int, k: int, v: int)
    requires Total(cells, CellsAlong(width), CellsAlong(height))
    requires -1 <= k <= 1 && -1 <= v <= 1
    ensures Partial(BoardOf(cells, CellsAlong(width), CellsAlong(height)), x, y, k, v + 1) ==
      Partial(BoardOf(cells, CellsAlong(width), CellsAlong(height)), x, y, k, v) +
      if k == 0 && v == 0 then 0
      else if x - k > -1 && y - v > -1 && 10 * (x - k) < width && 10 * (y - v) < height then
        (if cells[Id(x - k, y - v)].alive then 1 else 0)
      else 0
  {
    PartialStep(cells, CellsAlong(width), CellsAlong(height), x, y, k, v);
  }

  /** Every cell before column i of row z, in the order initialize creates
      them (row by row, each row left to right), is present and dead. */
  ghost predicate DeadBefore(cells: map<string, Cell>, cols: nat, i: nat, z: nat) {
    forall i': nat, z': nat :: (z' < z && i' < cols) || (z' == z && i' < i) ==>
      Id(i', z') in cells && !cells[Id(i', z')].alive
  }

  /** Adding the dead cell of a column and row of the rectangle keeps every
      key the id of its placed cell, and moves the dead prefix one cell on. */
  lemma InsertDead(cells: map<string, Cell>, cols: nat, rows: nat, i: nat, z: nat)
    requires Placed(cells, cols, rows) && DeadBefore(cells, cols, i, z)
    requires i < cols && z < rows
    ensures Placed(cells[Id(i, z) := CellAt(i, z, false)], cols, rows)
    ensures DeadBefore(cells[Id(i, z) := CellAt(i, z, false)], cols, i + 1, z)
  {
  }

  /** A finished row is the start of the next one. */
  lemma NextRow(cells: map<string, Cell>, cols: nat, z: nat)
    requires DeadBefore(cells, cols, cols, z)
    ensures DeadBefore(cells, cols, 0, z + 1)
  {
  }

  /** A placed map holding a dead cell for every column and row of the
      rectangle is valid, holds the empty board, and has exactly the ids of
      the rectangle as keys. */
  lemma AllDead(cells: map<string, Cell>, cols: nat, rows: nat)
    requires Placed(cells, cols, rows) && DeadBefore(cells, cols, 0, rows)
    ensures Valid(cells, cols, rows)
    ensures BoardOf(cells, cols, rows) == Empty(cols, rows)
    ensures forall i: nat, z: nat :: Id(i, z) in cells <==> i < cols && z < rows
    ensures forall id :: id in cells ==> exists i: nat, z: nat :: i < cols && z < rows && id == Id(i, z)
  {
    BoardExt(cells, cols, rows, Empty(cols, rows));
    forall i: nat, z: nat | Id(i, z) in cells ensures i < cols && z < rows {
      IdInjective(i, z, cells[Id(i, z)].x / 10, cells[Id(i, z)].y / 10);
    }
    forall id | id in cells ensures exists i: nat, z: nat :: i < cols && z < rows && id == Id(i, z) {
      var i: nat, z: nat := cells[id].x / 10, cells[id].y / 10;
      assert id == Id(i, z);
    }
  }

  /** In a valid map, the cell that contains a point is the cell of the
      point's column and row, so that position lies in the rectangle. */
  lemma HitIsAt(cells: map<string, Cell>, cols: nat, rows: nat, id: string, px: int, py: int)
    requires Placed(cells, cols, rows)
    requires id in cells && ContainsPoint(cells[id], px, py)
    ensures 0 <= px && 0 <= py && px / 10 < cols && py / 10 < rows
    ensures id == Id(px / 10, py / 10)
  {
    var c := cells[id];
    assert c == CellAt(c.x / 10, c.y / 10, c.alive);
  }

  /** In a valid map, a point of the rectangle lies in the cell of its
      column and row. */
  lemma PointHits(cells: map<string, Cell>, cols: nat, rows: nat, px: int, py: int)
    requires Valid(cells, cols, rows)
    requires 0 <= px && 0 <= py && px / 10 < cols && py / 10 < rows
    ensures Id(px / 10, py / 10) in cells
    ensures ContainsPoint(cells[Id(px / 10, py / 10)], px, py)
  {
    var i: nat, z: nat := px / 10, py / 10;
    var c := cells[Id(i, z)];
    IdInjective(i, z, c.x / 10, c.y / 10);
  }

  /** The live neighbours, on the board of the map, of the cell stored under
      a key: the position is read from the cell's pixel coordinates. */
  ghost function NeighboursOf(cells: map<string, Cell>, cols: nat, rows: nat, id: string): nat
    requires id in cells
  {
    Count(BoardOf(cells, cols, rows), cells[id].x / 10, cells[id].y / 10)
  }

  /** playTick's parsing of a key gives back the column and row of the cell
      stored under it. */
  lemma DecodeKey(cells: map<string, Cell>, cols: nat, rows: nat, id: string)
    requires Placed(cells, cols, rows) && id in cells
    ensures Decode(id) == (Some(cells[id].x / 10), Some(cells[id].y / 10))
  {
    DecodeId(cells[id].x / 10, cells[id].y / 10);
  }

  /** The cell of column i, row z is stored under Id(i, z), and its count
      read from the key is its count on the board. */
  lemma KeyAt(cells: map<string, Cell>, cols: nat, rows: nat, i: nat, z: nat)
    requires Valid(cells, cols, rows) && i < cols && z < rows
    ensures Id(i, z) in cells
    ensures cells[Id(i, z)].x / 10 == i && cells[Id(i, z)].y / 10 == z
    ensures BoardOf(cells, cols, rows)[z][i] == cells[Id(i, z)].alive
    ensures NeighboursOf(cells, cols, rows, Id(i, z)) == Count(BoardOf(cells, cols, rows), i, z)
  {
    var c := cells[Id(i, z)];
    IdInjective(i, z, c.x / 10, c.y / 10);
  }

  /** The cell under `id` in `after` holds the rule's verdict on the cell
      under `id` in `before`. */
  ghost predicate Verdict(before: map<string, Cell>, after: map<string, Cell>, cols: nat, rows: nat, id: string)
    requires id in before && id in after
  {
    after[id].alive == NextState(before[id].alive, NeighboursOf(before, cols, rows, id))
  }

  /** When every cell of `after` is the rule's verdict on the same key of
      `before`, the board of `after` is the next generation of the board of
      `before`. */
  lemma NextOfMap(before: map<string, Cell>, after: map<string, Cell>, cols: nat, rows: nat)
    requires Valid(before, cols, rows) && Valid(after, cols, rows)
    requires after.Keys == before.Keys
    requires forall id {:trigger Verdict(before, after, cols, rows, id)} ::
      id in after ==> Verdict(before, after, cols, rows, id)
    ensures BoardOf(after, cols, rows) == Next(BoardOf(before, cols, rows))
  {
    var b := BoardOf(before, cols, rows);
    forall i: nat, z: nat | i < cols && z < rows
      ensures after[Id(i, z)].alive == Next(b)[z][i]
    {
      KeyAt(before, cols, rows, i, z);
      assert Verdict(before, after, cols, rows, Id(i, z));
    }
    BoardExt(after, cols, rows, Next(b));
  }

  /** A key whose cell is due to die or to be born is a cell the next
      generation changes. */
  lemma FlipChanges(cells: map<string, Cell>, cols: nat, rows: nat, id: string)
    requires Valid(cells, cols, rows) && id in cells
    requires Dies(cells[id].alive, NeighboursOf(cells, cols, rows, id))
          || Born(cells[id].alive, NeighboursOf(cells, cols, rows, id))
    ensures Next(BoardOf(cells, cols, rows)) != BoardOf(cells, cols, rows)
  {
    var b := BoardOf(cells, cols, rows);
    var i: nat, z: nat := cells[id].x / 10, cells[id].y / 10;
    assert id == Id(i, z);
    assert b[z][i] == cells[id].alive;
    assert Next(b)[z][i] != b[z][i];
  }

  /** The map after setting, one by one, the cells under `ids` to `alive`. */
  ghost function WithAlive(m: map<string, Cell>, ids: seq<string>, alive: bool): (r: map<string, Cell>)
    ensures r.Keys == m.Keys
    ensures forall id :: id in r ==> r[id] == if id in ids then m[id].(alive := alive) else m[id]
  {
    if ids == [] then m
    else
      var last := ids[|ids| - 1];
      var r := WithAlive(m, ids[..|ids| - 1], alive);
      assert forall id :: id in ids <==> id in ids[..|ids| - 1] || id == last;
      if last in r then r[last := r[last].(alive := alive)] else r
  }

  /** The lists playTick builds, once the keys outside `pending` have been
      looked at: exactly those looked-at cells due to die, and exactly those
      due to be born. */
  ghost predicate Listed(cells: map<string, Cell>, cols: nat, rows: nat,
                         kill: seq<string>, summon: seq<string>, pending: set<string>)
  {
    (forall id {:trigger id in kill} :: id in kill <==>
      id in cells && id !in pending && Dies(cells[id].alive, NeighboursOf(cells, cols, rows, id))) &&
    (forall id {:trigger id in summon} :: id in summon <==>
      id in cells && id !in pending && Born(cells[id].alive, NeighboursOf(cells, cols, rows, id)))
  }

  /** Looking at one more key appends it to the list its verdict names. */
  lemma ListedStep(cells: map<string, Cell>, cols: nat, rows: nat,
                   kill: seq<string>, summon: seq<string>, pending: set<string>, id: string)
    requires Listed(cells, cols, rows, kill, summon, pending)
    requires id in pending && id in cells
    ensures Listed(cells, cols, rows,
      if Dies(cells[id].alive, NeighboursOf(cells, cols, rows, id)) then kill + [id] else kill,
      if Born(cells[id].alive, NeighboursOf(cells, cols, rows, id)) then summon + [id] else summon,
      pending - {id})
  {
  }

  /** playTick's stop test is exact: both lists are empty precisely when
      the next generation equals the current one. */
  lemma StableIffNoFlips(cells: map<string, Cell>, cols: nat, rows: nat, kill: seq<string>, summon: seq<string>)
    requires Valid(cells, cols, rows)
    requires forall id {:trigger id in kill} :: id in kill <==>
      id in cells && Dies(cells[id].alive, NeighboursOf(cells, cols, rows, id))
    requires forall id {:trigger id in summon} :: id in summon <==>
      id in cells && Born(cells[id].alive, NeighboursOf(cells, cols, rows, id))
    ensures Next(BoardOf(cells, cols, rows)) == BoardOf(cells, cols, rows) <==> |kill| == 0 && |summon| == 0
  {
    if |kill| > 0 {
      assert kill[0] in kill;
      FlipChanges(cells, cols, rows, kill[0]);
    } else if |summon| > 0 {
      assert summon[0] in summon;
      FlipChanges(cells, cols, rows, summon[0]);
    } else {
      forall id | id in cells
        ensures cells[id].alive == NextState(cells[id].alive, NeighboursOf(cells, cols, rows, id))
      {
        assert id !in kill && id !in summon;
      }
      NextOfMap(cells, cells, cols, rows);
    }
  }

  /** One more step of a write loop: the prefix grows by one id and that
      cell is set. */
  lemma WithAliveStep(m: map<string, Cell>, ids: seq<string>, j: nat, alive: bool)
    requires j < |ids| && ids[j] in m
    ensures ids[j] in WithAlive(m, ids[..j], alive)
    ensures WithAlive(m, ids[..j + 1], alive) ==
      WithAlive(m, ids[..j], alive)[ids[j] := WithAlive(m, ids[..j], alive)[ids[j]].(alive := alive)]
  {
    assert ids[..j + 1][..j] == ids[..j];
  }

  /** Setting the state of present cells keeps a map valid. */
  lemma WithAliveValid(m: map<string, Cell>, cols: nat, rows: nat, ids: seq<string>, alive: bool)
    requires Valid(m, cols, rows)
    ensures Valid(WithAlive(m, ids, alive), cols, rows)
  {
    var r := WithAlive(m, ids, alive);
    assert Placed(r, cols, rows);
  }

  /** After the kills and then the summons, each cell holds the rule's
      verdict on its state and neighbour count before. */
  lemma FlipsAreVerdicts(before: map<string, Cell>, cols: nat, rows: nat, kill: seq<string>, summon: seq<string>)
    requires forall id {:trigger id in kill} :: id in kill <==>
      id in before && Dies(before[id].alive, NeighboursOf(before, cols, rows, id))
    requires forall id {:trigger id in summon} :: id in summon <==>
      id in before && Born(before[id].alive, NeighboursOf(before, cols, rows, id))
    ensures forall id :: id in WithAlive(WithAlive(before, kill, false), summon, true) ==>
      WithAlive(WithAlive(before, kill, false), summon, true)[id].alive
        == NextState(before[id].alive, NeighboursOf(before, cols, rows, id))
  {
  }

  /** Killing the cells due to die and then summoning the cells due to be
      born turns a valid map into one holding the next generation. */
  lemma ApplyFlips(before: map<string, Cell>, cols: nat, rows: nat, kill: seq<string>, summon: seq<string>)
    requires Valid(before, cols, rows)
    requires forall id {:trigger id in kill} :: id in kill <==>
      id in before && Dies(before[id].alive, NeighboursOf(before, cols, rows, id))
    requires forall id {:trigger id in summon} :: id in summon <==>
      id in before && Born(before[id].alive, NeighboursOf(before, cols, rows, id))
    ensures Valid(WithAlive(WithAlive(before, kill, false), summon, true), cols, rows)
    ensures BoardOf(WithAlive(WithAlive(before, kill, false), summon, true), cols, rows)
         == Next(BoardOf(before, cols, rows))
  {
    WithAliveValid(before, cols, rows, kill, false);
    WithAliveValid(WithAlive(before, kill, false), cols, rows, summon, true);
    FlipsAreVerdicts(before, cols, rows, kill, summon);
    NextOfMap(before, WithAlive(WithAlive(before, kill, false), summon, true), cols, rows);
  }
}
