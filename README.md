# Game of Life CellService, modelled and proved in Dafny

The repository draws Conway's Game of Life on an HTML canvas. Its engine is
the `CellService` class, in two versions:

- `js/life6.js`: the grid is sized from the canvas (one 9 x 9 pixel cell
  every 10 pixels). A mouse click toggles the cell under the pointer. A
  generation step stops the timer when nothing would change, and otherwise
  counts one tick. The step writes its flips through `kill` and `summon`.
- `life6.js`: the earlier version. The grid is fixed at 50 x 50 cells. A
  timer steps it too, but the step has no stop and there is no tick count.
  The step writes its flips inline, each list behind a `length > 0` guard.

Cells are kept in a dictionary keyed by the string id `"x_y"`. A step
decodes each key with `indexOf`, `substring` and `parseInt`. It counts the
live cells among the eight around each cell, clipping at the grid's edge.
It lists the cells due to die and the cells due to be born (rule B3/S23),
and only then writes those flips.

The model has six modules:

- `Ids` (`ids.dfy`): the id text, including `parseInt`, `indexOf` and
  `substring` as JavaScript defines them, and the round trip from an id to
  its column and row.
- `Rules` (`rules.dfy`): boards as `seq<seq<bool>>`, the clipped neighbour
  count, the four rules of the header comment, and `Next`, the next
  generation.
- `Grid` (`grid.dfy`): the `Cell` record, the hit test, and how the id map
  reads as a board. It also holds the lemmas that carry the step's two
  phases over to `Next`.
- `Engine` (`engine.dfy`): the `CellService` of `js/life6.js`, as a class
  whose methods update `cells`, `tickCount` and `running`. The page's
  global `ticker` is the field `running`.
- `FixedEngine` (`fixed_engine.dfy`): the `CellService` of `life6.js`.
- `Patterns` (`patterns.dfy`): a lone 2 x 2 block is still on any board;
  a blinker and a lone cell are worked through on 3 x 3 boards.

The central results:

- Each engine's `PlayTick` leaves `Board() == Next(old(Board()))`, whatever
  order the keys are visited in.
- `Engine.CellService.PlayTick` stops, with the cells and the tick count
  unchanged, exactly when `Next` would change nothing. Otherwise it adds
  exactly one to the tick count.

## Model

| member | source | states |
|---|---|---|
| Ids.NatStr | js/life6.js:41 | a number concatenated to a string is written as a non-empty run of decimal digits |
| Ids.ParseInt | js/life6.js:87-88 | parseInt yields a number exactly when an optional sign is followed by at least one digit, otherwise NaN |
| Ids.IndexOf | js/life6.js:87-88 | indexOf returns the first position of the character, and -1 exactly when the character is absent |
| Ids.Substring | js/life6.js:87-88 | substring is the plain slice when the ends are in order; an end past the string is clamped to its length, and a negative end is clamped to 0 and swapped with the start, which gives the prefix before the start |
| Ids.DigitsValueNatStr | js/life6.js:41 | the digits written for n have the value n |
| Ids.ParseNatStr | js/life6.js:41 | parseInt gives back every non-negative number written into an id |
| Ids.Decode | js/life6.js:87-88 | the decoding of a key: the parses of the text before and after the first `_`; a key without `_` reads as NaN for the column and as the whole key for the row |
| Ids.DecodeId | js/life6.js:41 | for the id built from column i and row z, indexOf finds the separator right after the digits of i, and the decoding gives (i, z) |
| Ids.IdInjective | js/life6.js:98 | an id names one column and row only, so the id a neighbour is looked up by names that neighbour |
| Rules.Empty | js/life6.js:42 | the board that initialize creates has every cell dead |
| Rules.Count | js/life6.js:89-105 | a neighbour count is at most 8 |
| Rules.Dies | js/life6.js:107-110 | a cell goes on the kill list exactly when it is alive without two or three live neighbours, the cells the survival rule does not keep |
| Rules.Born | js/life6.js:111-114 | a cell goes on the summon list only when it is dead, so never on both lists |
| Rules.NextState | js/life6.js:1-6 | the four rules: under- and overpopulation kill, two or three neighbours keep a live cell, three neighbours give birth; and a cell changes exactly when it dies or is born |
| Rules.Next | js/life6.js:106-115 | the next generation has the same shape as the current one |
| Rules.StableIff | js/life6.js:118-121 | a generation is its own successor exactly when no cell is due to die or to be born |
| Rules.SumLiveAll | js/life6.js:89-105 | adding up the cells the loops visit, in their order, gives the neighbour count |
| Rules.SumLiveIsSetSize | js/life6.js:89-105 | summing along offsets without repeats counts each live cell reached exactly once |
| Rules.OffsetsAreTheWindow | js/life6.js:90-94 | the loops visit exactly the 3 x 3 window around the cell, without its centre |
| Rules.CountIsNeighbourSetSize | js/life6.js:89-105 | the count is the number of live cells at distance 1 on the board: the cell itself is never counted and nothing wraps |
| Rules.CountIgnoresSelf | js/life6.js:92-94 | a cell's own state does not enter its count |
| Rules.CornerCount | js/life6.js:97 | on a board of any size, clipping at the lower and the upper bounds leaves each of the four corner cells at most three neighbours |
| Rules.EdgeCount | js/life6.js:97 | on a board of any size, clipping leaves a cell on any of the four edges at most five neighbours |
| Rules.LoopIndex | js/life6.js:90-94 | the number of offsets visited before (k, v) in loop order, and the offset visited next is (k, v) itself unless it is the skipped (0, 0) |
| Rules.PartialNext | js/life6.js:90-104 | the running count after one more pass of the inner loop is the count before plus the term of its offset |
| Rules.PartialAll | js/life6.js:90-105 | once both loops are done, the running count equals the neighbour count |
| Grid.CellAt | js/life6.js:42 | the cell initialize creates for column i and row z is a 9 x 9 square on the 10-pixel lattice whose pixel position reads back as (i, z) |
| Grid.ContainsPoint | js/life6.js:24-26 | for a 9 x 9 cell on the 10-pixel lattice, the closed-rectangle test holds exactly on the points with non-negative coordinates whose tens are the cell's column and row |
| Grid.AtMostOneHit | js/life6.js:24-26 | no point lies in two placed cells |
| Grid.CellsAlong | js/life6.js:39-40 | the loop bound `i < extent / 10` admits exactly the i with 10 i < extent |
| Grid.SetAliveValid | js/life6.js:62-71 | setting one present cell alive or dead keeps the map a full grid of placed cells |
| Grid.TermAt | js/life6.js:92-103 | what one offset adds to the count, read off the map: nothing for (0, 0) or outside the rectangle, else 1 for a live cell |
| Grid.PartialStep | js/life6.js:91-104 | one pass of the inner loop adds what the loop body adds, read off the map with its bounds test |
| Grid.PartialStepPixels | js/life6.js:97 | the same, with the bounds test in the canvas's pixel terms |
| Grid.InsertDead | js/life6.js:41-44 | creating the next dead cell keeps every key the id of its placed cell and extends the dead prefix |
| Grid.NextRow | js/life6.js:39-40 | finishing a row moves the dead prefix to the start of the next row |
| Grid.AllDead | js/life6.js:39-46 | once both loops are done, the map holds exactly the ids of the rectangle, each cell dead |
| Grid.HitIsAt | js/life6.js:52-58 | the cell that contains a point is the cell of the point's column and row |
| Grid.PointHits | js/life6.js:52-58 | every point of the grid lies in the cell of its column and row |
| Grid.DecodeKey | js/life6.js:87-88 | decoding a key gives the column and row of the cell stored under it |
| Grid.KeyAt | js/life6.js:97-99 | the id a looked-up neighbour is built with is present and holds that neighbour |
| Grid.NextOfMap | js/life6.js:106-128 | when every cell after the step is the rule's verdict on the same cell before it, the board after is the next generation of the board before |
| Grid.FlipChanges | js/life6.js:106-115 | a cell due to die or to be born changes the board |
| Grid.WithAlive | js/life6.js:123-128 | setting listed cells one after another keeps the keys and sets exactly the listed cells |
| Grid.ListedStep | js/life6.js:106-115 | looking at one more cell appends it to the kill list exactly when it dies and to the summon list exactly when it is born |
| Grid.StableIffNoFlips | js/life6.js:118-121 | both lists are empty exactly when the next generation equals the current one |
| Grid.WithAliveStep | js/life6.js:123-128 | one more pass of a write loop sets one more listed cell |
| Grid.WithAliveValid | js/life6.js:123-128 | the write loops keep the map a full grid of placed cells |
| Grid.FlipsAreVerdicts | js/life6.js:123-128 | after the kills and then the summons, each cell holds the rule's verdict on the old generation |
| Grid.ApplyFlips | js/life6.js:83-128 | killing the listed cells and then summoning the listed cells turns the old generation into its successor |
| Engine.CellService.constructor | js/life6.js:146-150 | a new service, as the page makes one right after clearing the timer: no cells, tick count 0 and no timer set |
| Engine.CellService.Initialize | js/life6.js:38-46 | afterwards a cell exists exactly for the ids i_z with 10 i < width and 10 z < height, and every cell is dead |
| Engine.CellService.Summon | js/life6.js:62-66 | sets the named cell alive, changes nothing else, and is idempotent |
| Engine.CellService.Kill | js/life6.js:67-71 | sets the named cell dead, changes nothing else, and is idempotent |
| Engine.CellService.Start | js/life6.js:133-143 | init sets the stepping timer |
| Engine.CellService.Stop | js/life6.js:72-77 | stop leaves no timer set |
| Engine.CellService.SetTickCount | js/life6.js:78-81 | the tick count goes up by exactly one |
| Engine.CellService.Click | js/life6.js:48-60 | a click inside the grid toggles exactly the cell of its column and row; a click elsewhere changes nothing |
| Engine.CellService.NeighbourCount | js/life6.js:89-105 | the loops compute the clipped neighbour count on the current board, and every neighbour they look up exists |
| Engine.CellService.CollectFlips | js/life6.js:83-116 | the kill list holds exactly the cells due to die, the summon list exactly the cells due to be born, the two are disjoint, and nothing is written |
| Engine.CellService.KillAll | js/life6.js:123-125 | the kill loop sets exactly the listed cells dead |
| Engine.CellService.SummonAll | js/life6.js:126-128 | the summon loop sets exactly the listed cells alive |
| Engine.CellService.PlayTick | js/life6.js:82-130 | the board afterwards is the next generation of the board before; when no cell is due to change, the cells and tick count are unchanged and the timer is stopped; otherwise the tick count goes up by exactly one and the timer is left as it was |
| FixedEngine.CellService.constructor | life6.js:24-30 | a new service holds no cells |
| FixedEngine.CellService.Initialize | life6.js:31-40 | afterwards a cell exists exactly for the ids i_z with i, z < 50, and every cell is dead |
| FixedEngine.CellService.Summon | life6.js:41-45 | sets the named cell alive, changes nothing else, and is idempotent |
| FixedEngine.CellService.Kill | life6.js:46-50 | sets the named cell dead, changes nothing else, and is idempotent |
| FixedEngine.CellService.NeighbourCount | life6.js:57-73 | the loops compute the neighbour count clipped to 0 <= nx, ny < 50 |
| FixedEngine.CellService.CollectFlips | life6.js:52-84 | the kill and summon lists hold exactly the cells due to die and to be born, and are disjoint |
| FixedEngine.CellService.KillListed | life6.js:85-92 | the kill block sets exactly the listed cells dead |
| FixedEngine.CellService.SummonListed | life6.js:93-100 | the summon block sets exactly the listed cells alive |
| FixedEngine.CellService.PlayTick | life6.js:51-101 | the board afterwards is the next generation of the board before; when nothing is due to change, no cell changes |
| Patterns.BlockCellStays | js/life6.js:106-115 | next to a lone 2 x 2 block every cell keeps its state: the block's cells have three neighbours, every other cell at most two block cells |
| Patterns.BlockIsStill | js/life6.js:118-121 | a lone 2 x 2 block anywhere on a board of any size is its own successor with no cell due to change, so a step on it takes the stopping path |
| Patterns.BlinkerStandsUp | js/life6.js:1-6 | a blinker lying across stands up, so a step on it is not a stop |
| Patterns.BlinkerLiesDown | js/life6.js:1-6 | a standing blinker lies down again: period two |
| Patterns.LoneCellDies | js/life6.js:2 | a live cell with no live neighbour dies |

## Left out

- Drawing: `Cell.draw`, `getContext` and the canvas calls (js/life6.js:20-23, life6.js:17-20). They are browser side effects that hold no state the engine reads.
- The DOM: `document.getElementById`, and the `innerHTML` write of the tick count (js/life6.js:80).
- Event wiring: the `addEventListener` registration and the `pageX - 10` page offset (js/life6.js:48-50). `Engine.CellService.Click` takes the pointer position after that offset. Each call of initialize adds one more listener; the model has one click handler.
- Timers: the `setInterval` and `clearInterval` calls. The global `ticker` becomes the boolean field `running`, and `init` becomes `Start`. Nothing steps on its own; a caller calls `PlayTick`.
- The preset tables of the global `summon(type)`, and `clearOnLoad` and `clear2` (js/life6.js:145-241, life6.js:119-131). They are fixed data and page wiring. The `cgg` preset names ids with columns of 50 and more, which exist only on a canvas wider than 500 pixels.
- `console.log` of the two lists (life6.js:86, life6.js:94).
- Ids.ParseInt: leading white space and the `0x` prefix are not modelled, because ids never contain them.
- Cells are values in a map, not shared objects. Only the service reaches a cell, so no aliasing is lost.
- The order of `for (id in cells)` is left open: both loops pick any key not yet visited, so every result holds for every order.
- Engine.CellService.Initialize: requires a map of placed cells, which the constructor's empty map is. A map with foreign keys would stay foreign after initialize.
- Engine.CellService.Click: requires a full grid of placed cells, which every method keeps once initialize has run.
- Engine.CellService.CollectFlips: requires a full grid of placed cells. In JavaScript a foreign key makes no lookup fail: its parse gives NaN or some position, and the bounds test at js/life6.js:97 rejects every neighbour outside the rectangle. A lookup throws only for an id missing inside the rectangle (js/life6.js:99-100), which a full grid rules out.
- Engine.CellService.Summon / Kill (and the FixedEngine pair): `requires cellId in cells` stands for the TypeError the source throws when the id is absent (js/life6.js:63-64), which the `cgg` preset reaches on a canvas of 500 pixels or less.
- Engine.CellService.KillAll: the kill loop of playTick, written as a method of its own that playTick calls.
- Engine.CellService.SummonAll: the summon loop of playTick, written as a method of its own that playTick calls.
- FixedEngine.CellService.KillListed: the kill block of playTick, written as a method of its own that playTick calls.
- FixedEngine.CellService.SummonListed: the summon block of playTick, written as a method of its own that playTick calls.
- The canvas `width` and `height` of `life6.js` are kept as fields, but that version never reads them.
