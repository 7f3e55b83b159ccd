# Flood-It board, modelled in Dafny

Flood-It is played on a square board of coloured tiles. The player owns the
flooded region, which starts as the upper-left tile. Each move picks a
colour: the region takes that colour and swallows the outside tiles of
that colour that touch it. The game is won when no tile is left outside.

This project models the board core of the Java program: coordinates and
their neighbours (`Coord.java`) and the board with its constructor,
lookup, size, end test, flood move, the `flood1` variant and the move
hint (`Board.java`).

Modules, one per concern:

- `Optional` — `Option`, used where Java returns `null` or throws.
- `Geometry` — coordinates, the four unit steps, the bounds test, the
  neighbour list and the grid as a set.
- `CoordOrder` — `equals`, `compareTo` and `hashCode`, with 32-bit `int`
  arithmetic written out.
- `Tiles` — the five water colours and the tile record.
- `Boards` — the board and its invariant, plus `get`, `getSize` and
  `fullyFlooded`.
- `Flooding` — `flood` and `flood1`, as one row-major scan with a flag
  that says whether each visited tile is recoloured on the way (`flood`)
  or the whole region is recoloured first (`flood1`).
- `Construction` — the constructor, with the random colours as a
  parameter.
- `Suggestion` — `suggest`.

A board holds two maps from coordinates to colours. `inside` is the
flooded region and `outside` is the rest. `WellFormed` is the invariant
every operation keeps:

- the two maps split the size-by-size grid between them;
- the origin is inside;
- every region tile `c` has `c.x + c.y < |inside|`.

The last point holds because every annexed tile touches the region. It is
what makes the scan over `[0, |inside|)^2` visit every tile of the region.

The flood scan re-reads its bound `inside.size()` on every test, so the
bound grows while the region grows. The scan visits each position once.
A tile annexed at a position the scan has already passed is therefore not
visited again in that move. So a single move need not take every tile
connected to the region through the chosen colour. Take a 3-by-3 board
whose region is the top row and the right column, with Red at (0, 2) and
(1, 2) and other colours at (0, 1) and (1, 1). A Red move visits (2, 2)
last and annexes (1, 2) there, after the scan has passed column 1 of that
row, so (0, 2) stays outside until the next Red move. What the model
proves instead is five things:

- every outside tile of the chosen colour next to a tile of the original
  region is taken;
- every taken tile had the chosen colour and is reached from the old
  region by a walk through the new one, so a region in one 4-connected
  piece stays in one piece;
- the whole new region has the chosen colour;
- nothing else changes;
- when every outside tile already has the chosen colour, the move takes
  them all. Together with the points above, this makes `fullyFlooded`
  after a move hold exactly when all tiles have one colour, which is what
  its documentation promises.

## Model

| member | source | states |
|---|---|---|
| Geometry.Neighbors | p2/src/Coord.java:88-105 | the neighbour list: empty for a cell that fails the bounds test; every listed cell is one step away |
| Geometry.NeighborsGuards | p2/src/Coord.java:98-105 | for a cell that passes the bounds test, each of up, down, left and right is listed exactly when its own border guard holds |
| Geometry.NeighborsAreSteps | p2/src/Coord.java:89-92 | only the four unit steps are ever listed |
| Geometry.NeighborsOrdered | p2/src/Coord.java:98-105 | neighbours come in the order up, down, left, right, with no cell listed twice |
| Geometry.NeighborsInGrid | p2/src/Coord.java:88-105 | for a cell of the board, the list holds exactly the board cells at distance 1 |
| Geometry.NeighborsSymmetric | p2/src/Coord.java:88-105 | between two board cells, adjacency holds both ways |
| Geometry.NeighborCount | p2/src/Coord.java:96-105 | on a board of size at least 2, a corner has 2 neighbours, another border cell 3 and an interior cell 4 |
| Geometry.LoneCellHasNoNeighbors | p2/src/Coord.java:100-105 | on a 1-by-1 board the only cell has no neighbours |
| Geometry.NeighborExamples | p2/src/Coord.java:88-105 | the concrete lists for the centre and the corner of a 3-by-3 board |
| Geometry.StepsAreUnitMoves | p2/src/Coord.java:40-65 | up keeps the column and lowers y, down raises y, left lowers x and right raises x, each by distance 1; up and down undo each other, as do left and right |
| Geometry.UnitDistanceIsStep | p2/src/Coord.java:40-65 | any cell at distance 1 is one of the four steps |
| Geometry.Distinct | p2/src/Coord.java:40-65 | the four steps from a cell are pairwise different |
| Geometry.OnBoard | p2/src/Coord.java:73-77 | the bounds test as written accepts exactly the grid one size larger than the board |
| Geometry.OnBoardAdmitsOffGridCells | p2/src/Coord.java:73-77 | the bounds test as written accepts the column and the row at index `size`, and such a cell gets a neighbour that is off the board |
| Geometry.OnBoardAgreesInGrid | p2/src/Coord.java:73-77 | every real board cell passes the bounds test as written |
| Geometry.InGridIsGrid | p2/src/Coord.java:70-71 | the corrected bounds test holds exactly on the size * size cells of the grid |
| Geometry.GridSize | p2/src/Board.java:29-33 | the grid of a size-`n` board has n * n cells |
| CoordOrder.Equals | p2/src/Coord.java:187-193 | two coordinates are equal exactly when both components match |
| CoordOrder.CompareTo | p2/src/Coord.java:195-202 | the result is a Java `int`; for non-negative coordinates it is negative, zero or positive exactly when the first comes before, equals or comes after the second in x-then-y order |
| CoordOrder.Wrap32 | p2/src/Coord.java:198-202 | the reduction to a Java `int` lands in the 32-bit range and leaves values already in range alone |
| CoordOrder.CompareToIsLexicographic | p2/src/Coord.java:195-202 | for non-negative coordinates: the sign of `compareTo` is the x-then-y order; it is zero exactly on equal coordinates; it is antisymmetric |
| CoordOrder.CompareToWrapsForFarApartCoords | p2/src/Coord.java:198-202 | without that bound the subtraction overflows, and a coordinate that comes first in x-then-y order compares as greater |
| CoordOrder.HashCode | p2/src/Coord.java:235-239 | the hash is a Java `int`; on the 32-by-32 square it is 1056 * x + 33 * y |
| CoordOrder.HashCodeExamples | p2/src/Coord.java:225-228 | (5,5) hashes to 5445, (6,5) to 6501 and (5,6) to 5478 |
| CoordOrder.HashCodeInjective | p2/src/Coord.java:221-238 | distinct coordinates in the 32-by-32 square have distinct hashes |
| Boards.PartitionCoversGrid | p2/src/Board.java:19-37 | on a partitioned board the two maps together hold exactly the grid's cells |
| Boards.Get | p2/src/Board.java:43-47 | a tile is found exactly when the coordinate is in one of the maps; it carries that coordinate; the outside map is consulted first |
| Boards.GetFindsEveryCell | p2/src/Board.java:40-47 | on a well-formed board, lookup succeeds exactly on the grid and returns the tile of whichever side holds the cell |
| Boards.GetSize | p2/src/Board.java:52-54 | on a well-formed board the size is at least 1 and its square is the number of tiles in the two maps |
| Boards.CellCount | p2/src/Board.java:24-33 | on a well-formed board the two maps together hold size squared tiles |
| Boards.FullyFlooded | p2/src/Board.java:59-67 | on a well-formed board, "nothing outside" is the same as "the region is the whole grid" |
| Boards.PathJoin | p2/src/Board.java:90-110 | two walks through the region, the second starting where the first ends, join into one walk |
| Flooding.Paint | p2/src/Board.java:88 | painting the tile `get` finds: lookup there gives colour k, every other lookup is unchanged, no tile changes side |
| Flooding.Move | p2/src/Board.java:109-111 | moving a tile inside: its key leaves outside and joins inside with the new colour; every other entry is unchanged |
| Flooding.Annex | p2/src/Board.java:90-92 | the neighbour loop takes exactly the listed outside tiles of the chosen colour, gives them that colour, and touches nothing else |
| Flooding.Visit | p2/src/Board.java:84-126 | visiting one position keeps the invariant and the growth relation; if the position is in the region, all its outside neighbours of the chosen colour are taken |
| Flooding.VisitWellFormed | p2/src/Board.java:86-126 | visiting a region tile keeps the board invariant |
| Flooding.VisitGrown | p2/src/Board.java:86-126 | visiting a region tile only annexes its same-coloured outside neighbours, and recolours at most that tile |
| Flooding.ScanRow | p2/src/Board.java:82-127 | one row of the scan keeps the invariant and growth; every region tile it passes has its frontier taken; every tile not yet visited and not yet recoloured lies ahead; when every outside tile has colour k, the rest of the row ends in the region together with the cells right of and below it |
| Flooding.Scan | p2/src/Board.java:81-128 | the rows from y on leave every region tile coloured k and take the frontier of every tile still pending; when every outside tile has colour k, every cell of the board ends in the region |
| Flooding.SweepStep | p2/src/Board.java:84-92 | when every outside tile has colour k, visiting a region cell takes the cells right of and below it, so everything the scan has passed stays in the region with those neighbours |
| Flooding.GrownTransitive | p2/src/Board.java:81-128 | two growth steps compose into one: a tile taken in the second step is reached from the first board's region by joining walks |
| Flooding.GrownKeepsConnected | p2/src/Board.java:90-110 | growth keeps a region that is one 4-connected piece in one piece |
| Flooding.Flood | p2/src/Board.java:79-129 | a flood move keeps the invariant; the region only grows; each annexed tile was outside with colour k and is reached from the old region by a walk through the new one; outside tiles keep their colours; the whole new region has colour k |
| Flooding.FloodKeepsConnected | p2/src/Board.java:86-111 | a flood move keeps the region in one 4-connected piece |
| Flooding.FloodAnnexesFrontier | p2/src/Board.java:86-92 | after a flood move, every outside tile of colour k next to a tile of the original region is in the region |
| Flooding.FloodNeverShrinks | p2/src/Board.java:109-110 | the region never loses a tile and the outside never gains one |
| Flooding.FloodOnFullyFlooded | p2/src/Board.java:79-129 | on a won board a flood move only recolours the region |
| Flooding.PaintRegion | p2/src/Board.java:159-162 | the first loop of `flood1`: every region tile takes colour k and nothing else changes |
| Flooding.Flood1 | p2/src/Board.java:157-181 | `flood1` keeps the invariant and the growth relation (each annexed tile was outside with colour k and is reached from the old region through the new one), and leaves the whole region coloured k |
| Flooding.Flood1KeepsConnected | p2/src/Board.java:166-175 | `flood1` keeps the region in one 4-connected piece |
| Flooding.Flood1AnnexesFrontier | p2/src/Board.java:163-177 | after `flood1`, every outside tile of colour k next to a tile of the original region is in the region |
| Flooding.Flood1OnFullyFlooded | p2/src/Board.java:157-181 | on a won board `flood1` and `flood` give the same board |
| Flooding.FloodTakesOneColouredOutside | p2/src/Board.java:79-129 | when every outside tile has colour k, a flood move with k leaves nothing outside |
| Flooding.Flood1TakesOneColouredOutside | p2/src/Board.java:157-181 | the same for `flood1` |
| Flooding.FloodFullyFloodedIffOneColour | p2/src/Board.java:58-66 | after a flood move with k, the board is fully flooded exactly when all its tiles have one colour, and that colour is k |
| Flooding.Flood1FullyFloodedIffOneColour | p2/src/Board.java:58-66 | the same after `flood1` |
| Construction.Initial | p2/src/Board.java:24-36 | the board before the first flood: only the corner inside, every other cell of the grid outside, each with its dealt colour |
| Construction.NewBoard | p2/src/Board.java:24-38 | construction fails exactly for a size of zero or less; otherwise it gives a well-formed board of that size |
| Construction.NewBoardColors | p2/src/Board.java:34-37 | after construction the corner is inside; every region tile has the corner's colour and was dealt it; outside tiles keep their dealt colours |
| Construction.NewBoardTakesCornerNeighbors | p2/src/Board.java:35-37 | every neighbour of the corner that was dealt the corner's colour starts in the region |
| Construction.NewBoardConnected | p2/src/Board.java:34-37 | a new board's region is one 4-connected piece |
| Construction.SingleCellBoardIsFlooded | p2/src/Board.java:24-38 | a 1-by-1 board is won from the start |
| Suggestion.Tally.Add | p2/src/Board.java:242-251 | counting a tile raises its colour's count by one and leaves the other four alone |
| Suggestion.LeadsByFields | p2/src/Board.java:252-261 | each colour's test in the source is exactly "this colour's count beats every other" |
| Suggestion.Pick | p2/src/Board.java:252-261 | the five tests pick the strictly leading colour when there is one, and otherwise keep the current choice |
| Suggestion.TallyNeighbors | p2/src/Board.java:238-264 | the neighbour loop: counts only grow; the choice stays the leader whenever there is one; the choice stays blue or a counted colour |
| Suggestion.SuggestRow | p2/src/Board.java:229-266 | the same three invariants over one row of the scan |
| Suggestion.SuggestRows | p2/src/Board.java:228-266 | the same three invariants over the rows |
| Suggestion.Suggest | p2/src/Board.java:225-270 | the hint is the strict leader of the final counts when there is one, and is otherwise blue or a colour with a positive count |
| Suggestion.TallyNeighborsCount | p2/src/Board.java:238-251 | over a list without repeats, each count rises by the number of listed outside tiles of that colour |
| Suggestion.ContactsStep | p2/src/Board.java:229-236 | passing one position adds exactly the contacts of the region tile there, if there is one |
| Suggestion.SuggestRowCount | p2/src/Board.java:229-266 | after a row, each count equals the contacts of the region tiles passed so far |
| Suggestion.SuggestRowsCount | p2/src/Board.java:228-266 | after the remaining rows, each count equals all contacts of that colour |
| Suggestion.FinalTallyCountsContacts | p2/src/Board.java:228-266 | each final count is the number of (region tile, outside neighbour of that colour) pairs |
| Suggestion.SuggestMostContacts | p2/src/Board.java:225-270 | a colour with strictly more contacts than every other colour is the hint |
| Suggestion.SuggestTouches | p2/src/Board.java:225-270 | a hint other than blue is a colour that touches the region |
| Suggestion.SuggestWithoutContacts | p2/src/Board.java:227-270 | when no region tile has an outside neighbour of any colour, the hint is blue |
| Suggestion.SuggestWithNothingOutside | p2/src/Board.java:227-270 | with nothing outside the hint is blue |

## Left out

- `Tile.java` and `WaterColor.java` are not part of this model. A tile is its coordinate and a colour (`Tiles.Tile`). The maps store colours only, and `Boards.Get` rebuilds the tile. Mutating a shared tile with `setColor` becomes replacing the map entry.
- The random colour each new tile gets is a parameter of `Construction.NewBoard`: a map from every grid cell to its colour.
- A Java exception becomes `None`. For a size of zero or less the constructor fails when it reads the colour of the corner it did not find. `get` on a cell in neither map returns `null`.
- `main`, `toString` and the timing driver are not modelled. They only print or measure.
- The colour counters `blue` … `yellow` are instance fields in the source. `flood` raises and resets them, and `suggest` adds to them without resetting them first. The model drops them from the board. `Suggest` counts from zero on each call, so a hint depends only on the board it is asked about.
- `flood2` is not modelled. It is a line-for-line copy of `flood1`.
- Hash-map mechanics (buckets, iteration order) are not modelled. The maps are mathematical maps. The only iteration over a hash map is the recolouring loop of `flood1`, and its order has no effect on the result.
- Flooding.Flood: does not claim that one move takes every tile connected to the region through the chosen colour. The scan does not revisit positions it has passed, so the source does not promise that either.
- Flooding.Flood1: is proved to meet the same contract as `Flood`. It is proved equal to `Flood` only on a won board (`Flooding.Flood1OnFullyFlooded`), not on every board.
- CoordOrder.CompareToIsLexicographic: covers coordinates in `[0, 2^31)` only. Outside that range the subtraction wraps, and `CompareToWrapsForFarApartCoords` shows a case.
- CoordOrder.HashCode: the closed form is proved on the 32-by-32 square only. Beyond it the shifted words overlap and wrap, and `HashCode` is computed on 32-bit words as written.
- `Up`, `Down`, `Left` and `Right` are left without contracts. `Geometry.StepsAreUnitMoves` states their meaning.
- Boards.FullyFlooded: "true iff all tiles have the same colour" is proved for every board a flood move produces, which includes every new board (`Flooding.FloodFullyFloodedIffOneColour`). It is not claimed for every well-formed board. Such a board may have outside tiles of the region's colour; then every tile has one colour, yet `fullyFlooded` is false.
- Java reference semantics are not modelled, because every colour and coordinate here is a value. `flood(null)` paints each visited region tile `null` and annexes nothing, since `equals(null)` is false. `get(null)` returns `null`. `compareTo(null)` throws. `get` hands out the live `Tile`, so a caller's `setColor` changes the board, while `Boards.Get` returns a copy.
- CoordOrder.Equals: takes two coordinates. `Coord.equals(Object)` also returns false for `null` and for an object that is not a `Coord`; a typed signature has no such argument.
- Integer width elsewhere is not modelled. Board sizes and coordinates are unbounded integers, while Java's are 32-bit.

## Findings

| source | as written | input that shows it | evidently intended | confidence | as-written member | corrected member |
|---|---|---|---|---|---|---|
| p2/src/Coord.java:73-77 | `onBoard` rejects only `x > size` and `y > size` | size 3, coordinate (3, 0): `onBoard` is true, and `neighbors` lists (3, 1), which is off the board | `x >= size` and `y >= size`, so that exactly the size * size cells pass | not executed | Geometry.OnBoardAdmitsOffGridCells | Geometry.InGridIsGrid |

The board invariant (`Boards.WellFormed`) uses the corrected test
`Geometry.InGrid`. The flood and the hint only ask for the neighbours of
region tiles, which are real board cells. On those the two tests agree
(`Geometry.OnBoardAgreesInGrid`), so the slip never shows in a game.
