/**
 Building a new board: every cell of the size-by-size grid starts outside
 with its dealt colour, the corner cell at the origin is moved into the
 region, and the board is flooded with the corner's colour. The colours are
 dealt at random when the Java program makes each tile; here they are a
 parameter.
 */
module Construction {

  import opened Optional
  import opened Geometry
  import opened Tiles
  import opened Boards
  import opened Flooding

  /** Every cell of the grid has been dealt a colour. */
  ghost predicate Dealt(size: int, colors: map<Coord, WaterColor>) {
    forall c :: InGrid(c, size) ==> c in colors
  }

  /** The board before the first flood: the origin inside, every other
      cell of the grid outside, each with its dealt colour. */
  function Initial(size: int, colors: map<Coord, WaterColor>): (b: Board)
    requires size >= 1 && Dealt(size, colors)
    ensures WellFormed(b)
    ensures b.inside == map[Origin := colors[Origin]]
    ensures forall c :: c in b.outside <==> InGrid(c, size) && c != Origin
    ensures forall c :: c in b.outside ==> b.outside[c] == colors[c]
  {
    var b := Board(size, map[Origin := colors[Origin]],
                   map c | c in colors && InGrid(c, size) && c != Origin :: colors[c]);
    assert Origin.x + Origin.y < |b.inside|;
    b
  }

  /** The constructor. With no cells there is no corner tile and the
      Java constructor fails on it, so no board is built. */
  function NewBoard(size: int, colors: map<Coord, WaterColor>): (r: Option<Board>)
    requires Dealt(size, colors)
    ensures r.None? <==> size <= 0
    ensures r.Some? ==> WellFormed(r.value) && r.value.size == size
  {
    if size <= 0 then None
    else Some(Flood(Initial(size, colors), colors[Origin]))
  }

  /** On a new board the region is one colour, the corner's; every region
      tile was dealt that colour, and every outside tile keeps the colour it
      was dealt. */
  lemma NewBoardColors(size: int, colors: map<Coord, WaterColor>)
    requires Dealt(size, colors) && size >= 1
    ensures var b := NewBoard(size, colors).value;
      && Origin in b.inside
      && (forall c :: c in b.inside ==> b.inside[c] == colors[Origin] && colors[c] == colors[Origin])
      && (forall c :: c in b.outside ==> b.outside[c] == colors[c])
  {
    var b0 := Initial(size, colors);
    var b := Flood(b0, colors[Origin]);
    forall c | c in b.inside ensures colors[c] == colors[Origin] {
      if c != Origin {
        assert c in b0.outside;
      }
    }
  }

  /** The corner's neighbours that were dealt its colour join the region. */
  lemma NewBoardTakesCornerNeighbors(size: int, colors: map<Coord, WaterColor>)
    requires Dealt(size, colors) && size >= 1
    ensures forall c :: c in Neighbors(Origin, size) && colors[c] == colors[Origin] ==>
              c in NewBoard(size, colors).value.inside
  {
    var b0 := Initial(size, colors);
    FloodAnnexesFrontier(b0, colors[Origin]);
    assert Absorbed(b0, Flood(b0, colors[Origin]), colors[Origin], Origin);
    NeighborsInGrid(Origin, size);
  }

  /** A new board's region is one 4-connected piece. */
  lemma NewBoardConnected(size: int, colors: map<Coord, WaterColor>)
    requires Dealt(size, colors) && size >= 1
    ensures Connected(NewBoard(size, colors).value)
  {
    var b0 := Initial(size, colors);
    assert RegionPath(b0, [Origin]);
    GrownKeepsConnected(b0, Flood(b0, colors[Origin]), colors[Origin]);
  }

  /** A one-by-one board is won before the first move. */
  lemma SingleCellBoardIsFlooded(colors: map<Coord, WaterColor>)
    requires Dealt(1, colors)
    ensures FullyFlooded(NewBoard(1, colors).value)
  {
    var b0 := Initial(1, colors);
    assert b0.outside.Keys == {};
  }

}
