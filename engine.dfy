/** The CellService of js/life6.js: a grid of cells sized from the canvas,
    single-cell writes, the click toggle, and a generation step that stops
    the timer once nothing changes and otherwise counts the tick. The page's
    global `ticker` is the field `running`. */
module Engine {
  import opened Ids
  import opened Rules
  import opened Grid

  class CellService {
    /** The canvas size in pixels. */
    const width: nat
    const height: nat
    /** Every cell, by id. */
    var cells: map<string, Cell>
    var tickCount: int
    /** Whether the stepping timer is set. */
    var running: bool

    function Cols(): nat {
      CellsAlong(width)
    }

    function Rows(): nat {
      CellsAlong(height)
    }

    ghost predicate Valid()
      reads this`cells
    {
      Grid.Valid(cells, Cols(), Rows())
    }

    /** The generation the service holds. */
    ghost function Board(): Board
      reads this`cells
    {
      BoardOf(cells, Cols(), Rows())
    }

    constructor (width: nat, height: nat)
      ensures this.width == width && this.height == height
      ensures cells == map[] && tickCount == 0 && !running
      ensures Placed(cells, Cols(), Rows())
    {
      this.width := width;
      this.height := height;
      cells := map[];
      tickCount := 0;
      running := false;
    }

    /** Creates a dead cell for every column i with 10 i < width and every
        row z with 10 z < height. */
    method Initialize()
      requires Placed(cells, Cols(), Rows())
      modifies this`cells
      ensures Valid()
      ensures forall i: nat, z: nat :: Id(i, z) in cells <==> i < Cols() && z < Rows()
      ensures forall id :: id in cells ==> exists i: nat, z: nat :: i < Cols() && z < Rows() && id == Id(i, z)
      ensures Board() == Empty(Cols(), Rows())
    {
      var z: nat := 0;
      while 10 * z < height
        invariant z <= Rows()
        invariant Placed(cells, Cols(), Rows()) && DeadBefore(cells, Cols(), 0, z)
        decreases height - 10 * z
      {
        var i: nat := 0;
        while 10 * i < width
          invariant i <= Cols()
          invariant Placed(cells, Cols(), Rows()) && DeadBefore(cells, Cols(), i, z)
          decreases width - 10 * i
        {
          var id := Id(i, z);
          InsertDead(cells, Cols(), Rows(), i, z);
          cells := cells[id := Cell(id, i * 10, z * 10, 9, 9, false)];
          i := i + 1;
        }
        NextRow(cells, Cols(), z);
        z := z + 1;
      }
      AllDead(cells, Cols(), Rows());
    }

    /** summon: sets one present cell alive and leaves everything else as it
        was; summoning a live cell changes nothing. */
    method Summon(cellId: string)
      requires cellId in cells
      modifies this`cells
      ensures old(Valid()) ==> Valid()
      ensures cells == old(cells)[cellId := old(cells)[cellId].(alive := true)]
      ensures old(cells)[cellId].alive ==> cells == old(cells)
    {
      if Valid() {
        SetAliveValid(cells, Cols(), Rows(), cellId, true);
      }
      var cell := cells[cellId];
      cells := cells[cellId := cell.(alive := true)];
    }

    /** kill: sets one present cell dead and leaves everything else as it
        was; killing a dead cell changes nothing. */
    method Kill(cellId: string)
      requires cellId in cells
      modifies this`cells
      ensures old(Valid()) ==> Valid()
      ensures cells == old(cells)[cellId := old(cells)[cellId].(alive := false)]
      ensures !old(cells)[cellId].alive ==> cells == old(cells)
    {
      if Valid() {
        SetAliveValid(cells, Cols(), Rows(), cellId, false);
      }
      var cell := cells[cellId];
      cells := cells[cellId := cell.(alive := false)];
    }

    /** init: sets the stepping timer, replacing any earlier one. */
    method Start()
      modifies this`running
      ensures running
    {
      running := true;
    }

    /** stop: clears the stepping timer if it is set. */
    method Stop()
      modifies this`running
      ensures !running
    {
      if running {
        running := false;
      }
    }

    /** setTickCount: one more generation. */
    method SetTickCount()
      modifies this`tickCount
      ensures tickCount == old(tickCount) + 1
    {
      tickCount := tickCount + 1;
    }

    /** The mouse-down handler that initialize installs: toggles the cell
        whose square contains the pointer, the one in column px / 10 and row
        py / 10, and does nothing when the pointer is on no cell. */
    method Click(px: int, py: int)
      requires Valid()
      modifies this`cells
      ensures Valid()
      ensures 0 <= px && 0 <= py && px / 10 < Cols() && py / 10 < Rows() ==>
        var id := Id(px / 10, py / 10);
        cells == old(cells)[id := old(cells)[id].(alive := !old(cells)[id].alive)]
      ensures !(0 <= px && 0 <= py && px / 10 < Cols() && py / 10 < Rows()) ==> cells == old(cells)
    {
      var pending := cells.Keys;
      while pending != {}
        invariant pending <= cells.Keys
        invariant forall id :: id in cells && id !in pending ==> !ContainsPoint(cells[id], px, py)
        decreases pending
      {
        var cellId :| cellId in pending;
        if ContainsPoint(cells[cellId], px, py) {
          HitIsAt(cells, Cols(), Rows(), cellId, px, py);
          SetAliveValid(cells, Cols(), Rows(), cellId, !cells[cellId].alive);
          var cell := cells[cellId];
          cells := cells[cellId := cell.(alive := !cell.alive)];
          return;
        }
        pending := pending - {cellId};
      }
      if 0 <= px && 0 <= py && px / 10 < Cols() && py / 10 < Rows() {
        PointHits(cells, Cols(), Rows(), px, py);
        assert false;
      }
    }

    /** The neighbour loops of playTick: counts the live cells among the
        eight around (x, y), skipping positions off the grid. */
    method NeighbourCount(x: int, y: int) returns (n: nat)
      requires Total(cells, Cols(), Rows())
      ensures n == Count(Board(), x, y)
    {
      ghost var b := Board();
      n := 0;
      for k := -1 to 2
        invariant n == Partial(b, x, y, k, -1)
      {
        for v := -1 to 2
          invariant n == Partial(b, x, y, k, v)
        {
          PartialStepPixels(cells, width, height, x, y, k, v);
          if k == 0 && v == 0 {
            continue;
          }
          var nx := x - k;
          var ny := y - v;
          if nx > -1 && ny > -1 && 10 * nx < width && 10 * ny < height {
            var nid := Id(nx, ny);
            if cells[nid].alive {
              n := n + 1;
            }
          }
        }
      }
      PartialAll(b, x, y);
    }

    /** The first half of playTick: decodes every id and lists the cells
        due to die and the cells due to be born, all from the current
        generation; nothing is written. */
    method CollectFlips() returns (cellsToKill: seq<string>, cellsToSummon: seq<string>)
      requires Valid()
      ensures forall id {:trigger id in cellsToKill} :: id in cellsToKill <==>
        id in cells && Dies(cells[id].alive, NeighboursOf(cells, Cols(), Rows(), id))
      ensures forall id {:trigger id in cellsToSummon} :: id in cellsToSummon <==>
        id in cells && Born(cells[id].alive, NeighboursOf(cells, Cols(), Rows(), id))
      ensures forall id :: id in cellsToKill ==> id !in cellsToSummon
    {
      cellsToKill, cellsToSummon := [], [];
      var pending := cells.Keys;
      while pending != {}
        invariant pending <= cells.Keys
        invariant Listed(cells, Cols(), Rows(), cellsToKill, cellsToSummon, pending)
        decreases pending
      {
        var cellId :| cellId in pending;
        ListedStep(cells, Cols(), Rows(), cellsToKill, cellsToSummon, pending, cellId);
        pending := pending - {cellId};
        DecodeKey(cells, Cols(), Rows(), cellId);
        var (xs, ys) := Decode(cellId);
        var x, y := xs.value, ys.value;
        var neighborCount := NeighbourCount(x, y);
        var cell := cells[cellId];
        if cell.alive {
          if neighborCount < 2 || neighborCount > 3 {
            cellsToKill := cellsToKill + [cell.id];
          }
        } else {
          if neighborCount == 3 {
            cellsToSummon := cellsToSummon + [cell.id];
          }
        }
      }
    }

    /** playTick's first write loop: kills every listed cell, in order. */
    method KillAll(ids: seq<string>)
      requires Valid()
      requires forall id :: id in ids ==> id in cells
      modifies this`cells
      ensures Valid()
      ensures cells == WithAlive(old(cells), ids, false)
    {
      for j := 0 to |ids|
        invariant Valid()
        invariant cells == WithAlive(old(cells), ids[..j], false)
      {
        assert ids[..j + 1][..j] == ids[..j];
        Kill(ids[j]);
      }
      assert ids[..|ids|] == ids;
    }

    /** playTick's second write loop: summons every listed cell, in order. */
    method SummonAll(ids: seq<string>)
      requires Valid()
      requires forall id :: id in ids ==> id in cells
      modifies this`cells
      ensures Valid()
      ensures cells == WithAlive(old(cells), ids, true)
    {
      for j := 0 to |ids|
        invariant Valid()
        invariant cells == WithAlive(old(cells), ids[..j], true)
      {
        assert ids[..j + 1][..j] == ids[..j];
        Summon(ids[j]);
      }
      assert ids[..|ids|] == ids;
    }

    /** playTick: computes the next generation from a snapshot of the
        current one. When no cell changes it stops the timer and leaves the
        cells and the tick count alone; otherwise it applies every flip and
        counts one tick. */
    method PlayTick()
      requires Valid()
      modifies this`cells, this`tickCount, this`running
      ensures Valid()
      ensures Board() == Next(old(Board()))
      ensures Next(old(Board())) == old(Board()) ==>
        cells == old(cells) && tickCount == old(tickCount) && !running
      ensures Next(old(Board())) != old(Board()) ==>
        tickCount == old(tickCount) + 1 && running == old(running)
    {
      ghost var before := cells;
      var cellsToKill, cellsToSummon := CollectFlips();
      StableIffNoFlips(cells, Cols(), Rows(), cellsToKill, cellsToSummon);
      if |cellsToKill| < 1 && |cellsToSummon| < 1 {
        Stop();
        return;
      }
      KillAll(cellsToKill);
      SummonAll(cellsToSummon);
      ApplyFlips(before, Cols(), Rows(), cellsToKill, cellsToSummon);
      SetTickCount();
    }
  }
}
