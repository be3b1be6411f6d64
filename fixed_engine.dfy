/** The CellService of the earlier life6.js: the same cells, rule and
    two-phase step as the later engine, on a grid fixed at 50 x 50 cells
    whatever the canvas size. The step writes its flips inline, each list
    behind a non-empty guard; it never stops the timer and counts no ticks. */
module FixedEngine {
  import opened Ids
  import opened Rules
  import opened Grid

  /** The number of columns and of rows initialize creates. */
  const Size: nat := 50

  class CellService {
    /** The canvas size in pixels; this version does not use it. */
    const width: nat
    const height: nat
    /** Every cell, by id. */
    var cells: map<string, Cell>

    ghost predicate Valid()
      reads this`cells
    {
      Grid.Valid(cells, Size, Size)
    }

    /** The generation the service holds. */
    ghost function Board(): Board
      reads this`cells
    {
      BoardOf(cells, Size, Size)
    }

    constructor (width: nat, height: nat)
      ensures this.width == width && this.height == height
      ensures cells == map[]
      ensures Placed(cells, Size, Size)
    {
      this.width := width;
      this.height := height;
      cells := map[];
    }

    /** Creates a dead cell for every column and row below 50. */
    method Initialize()
      requires Placed(cells, Size, Size)
      modifies this`cells
      ensures Valid()
      ensures forall i: nat, z: nat :: Id(i, z) in cells <==> i < 50 && z < 50
      ensures forall id :: id in cells ==> exists i: nat, z: nat :: i < 50 && z < 50 && id == Id(i, z)
      ensures Board() == Empty(Size, Size)
    {
      var z: nat := 0;
      while z < 50
        invariant z <= 50
        invariant Placed(cells, Size, Size) && DeadBefore(cells, Size, 0, z)
      {
        var i: nat := 0;
        while i < 50
          invariant i <= 50
          invariant Placed(cells, Size, Size) && DeadBefore(cells, Size, i, z)
        {
          var id := Id(i, z);
          InsertDead(cells, Size, Size, i, z);
          cells := cells[id := Cell(id, i * 10, z * 10, 9, 9, false)];
          i := i + 1;
        }
        NextRow(cells, Size, z);
        z := z + 1;
      }
      AllDead(cells, Size, Size);
    }

    /** summon: sets one present cell alive and leaves everything else as it
        was; summoning a live cell changes nothing. */
    method Summon(cellId: string)
      requires cellId in cells
      modifies this`cells
      ensures old(Valid()) ==> Valid()
      ensures cells == old(cells)[cellId := old(cells)[cellId].(alive := true)]
      ensures old(cells)[cellId].alive ==> cells == old(cells)
    {
      if Valid() {
        SetAliveValid(cells, Size, Size, cellId, true);
      }
      var cell := cells[cellId];
      cells := cells[cellId := cell.(alive := true)];
    }

    /** kill: sets one present cell dead and leaves everything else as it
        was; killing a dead cell changes nothing. */
    method Kill(cellId: string)
      requires cellId in cells
      modifies this`cells
      ensures old(Valid()) ==> Valid()
      ensures cells == old(cells)[cellId := old(cells)[cellId].(alive := false)]
      ensures !old(cells)[cellId].alive ==> cells == old(cells)
    {
      if Valid() {
        SetAliveValid(cells, Size, Size, cellId, false);
      }
      var cell := cells[cellId];
      cells := cells[cellId := cell.(alive := false)];
    }

    /** The neighbour loops of playTick: counts the live cells among the
        eight around (x, y), skipping positions outside the 50 x 50 grid. */
    method NeighbourCount(x: int, y: int) returns (n: nat)
      requires Total(cells, Size, Size)
      ensures n == Count(Board(), x, y)
    {
      ghost var b := Board();
      n := 0;
      for k := -1 to 2
        invariant n == Partial(b, x, y, k, -1)
      {
        for v := -1 to 2
          invariant n == Partial(b, x, y, k, v)
        {
          PartialStep(cells, Size, Size, x, y, k, v);
          if k == 0 && v == 0 {
            continue;
          }
          var nx := x - k;
          var ny := y - v;
          if nx > -1 && ny > -1 && nx < 50 && ny < 50 {
            var nid := Id(nx, ny);
            if cells[nid].alive {
              n := n + 1;
            }
          }
        }
      }
      PartialAll(b, x, y);
    }

    /** The first half of playTick: decodes every id and lists the cells
        due to die and the cells due to be born, all from the current
        generation; nothing is written. */
    method CollectFlips() returns (cellsToKill: seq<string>, cellsToSummon: seq<string>)
      requires Valid()
      ensures forall id {:trigger id in cellsToKill} :: id in cellsToKill <==>
        id in cells && Dies(cells[id].alive, NeighboursOf(cells, Size, Size, id))
      ensures forall id {:trigger id in cellsToSummon} :: id in cellsToSummon <==>
        id in cells && Born(cells[id].alive, NeighboursOf(cells, Size, Size, id))
      ensures forall id :: id in cellsToKill ==> id !in cellsToSummon
    {
      cellsToKill, cellsToSummon := [], [];
      var pending := cells.Keys;
      while pending != {}
        invariant pending <= cells.Keys
        invariant Listed(cells, Size, Size, cellsToKill, cellsToSummon, pending)
        decreases pending
      {
        var cellId :| cellId in pending;
        ListedStep(cells, Size, Size, cellsToKill, cellsToSummon, pending, cellId);
        pending := pending - {cellId};
        DecodeKey(cells, Size, Size, cellId);
        var (xs, ys) := Decode(cellId);
        var x, y := xs.value, ys.value;
        var neighborCount := NeighbourCount(x, y);
        var cell := cells[cellId];
        if cell.alive {
          if neighborCount < 2 || neighborCount > 3 {
            cellsToKill := cellsToKill + [cell.id];
          }
        } else {
          if neighborCount == 3 {
            cellsToSummon := cellsToSummon + [cell.id];
          }
        }
      }
    }

    /** playTick's kill block: when the list is not empty, writes every
        listed cell dead in place, in order. */
    method KillListed(ids: seq<string>)
      requires forall id :: id in ids ==> id in cells
      modifies this`cells
      ensures cells == WithAlive(old(cells), ids, false)
    {
      if |ids| > 0 {
        for j := 0 to |ids|
          invariant cells == WithAlive(old(cells), ids[..j], false)
        {
          var cellId := ids[j];
          WithAliveStep(old(cells), ids, j, false);
          var cell2 := cells[cellId];
          cells := cells[cellId := cell2.(alive := false)];
        }
        assert ids[..|ids|] == ids;
      }
    }

    /** playTick's summon block: when the list is not empty, writes every
        listed cell alive in place, in order. */
    method SummonListed(ids: seq<string>)
      requires forall id :: id in ids ==> id in cells
      modifies this`cells
      ensures cells == WithAlive(old(cells), ids, true)
    {
      if |ids| > 0 {
        for j := 0 to |ids|
          invariant cells == WithAlive(old(cells), ids[..j], true)
        {
          var cellId := ids[j];
          WithAliveStep(old(cells), ids, j, true);
          var cell := cells[cellId];
          cells := cells[cellId := cell.(alive := true)];
        }
        assert ids[..|ids|] == ids;
      }
    }

    /** playTick: computes the next generation from a snapshot of the
        current one, then writes the kills and the summons in place; when no
        cell is due to change, no cell is written. */
    method PlayTick()
      requires Valid()
      modifies this`cells
      ensures Valid()
      ensures Board() == Next(old(Board()))
      ensures Next(old(Board())) == old(Board()) ==> cells == old(cells)
    {
      ghost var before := cells;
      var cellsToKill, cellsToSummon := CollectFlips();
      StableIffNoFlips(cells, Size, Size, cellsToKill, cellsToSummon);
      KillListed(cellsToKill);
      SummonListed(cellsToSummon);
      ApplyFlips(before, Size, Size, cellsToKill, cellsToSummon);
    }
  }
}
