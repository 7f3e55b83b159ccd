/**
 The state of a game: the board dimension and the tiles, split into the
 flooded region (`inside`) and the rest (`outside`). Each map sends a
 coordinate to the colour of the tile stored under it; the tile itself is
 that coordinate with that colour, so a tile is always filed under its own
 coordinate.
 */
module Boards {

  import opened Optional
  import opened Geometry
  import opened Tiles

  datatype Board = Board(size: int, inside: map<Coord, WaterColor>, outside: map<Coord, WaterColor>)

  /** The two maps split the cells of the board between them. */
  ghost predicate Partitioned(b: Board) {
    && b.inside.Keys !! b.outside.Keys
    && forall c :: c in b.inside || c in b.outside <==> InGrid(c, b.size)
  }

  /** Together the two maps hold exactly the cells of the grid. */
  lemma PartitionCoversGrid(b: Board)
    ensures Partitioned(b) ==> b.inside.Keys + b.outside.Keys == Grid(b.size)
  {
    InGridIsGrid(b.size);
  }

  /** Two partitioned boards of one size hold the same cells. */
  lemma SameCells(b: Board, r: Board)
    requires Partitioned(b) && Partitioned(r) && b.size == r.size
    ensures b.inside.Keys + b.outside.Keys == r.inside.Keys + r.outside.Keys
  {
    PartitionCoversGrid(b);
    PartitionCoversGrid(r);
  }

  /** Every flooded cell is fewer steps from the origin than the region has
      tiles. This holds because the region only grows by cells next to it,
      and it is what lets a scan over [0, |inside|)^2 reach the whole region. */
  ghost predicate Compact(b: Board) {
    forall c :: c in b.inside ==> c.x + c.y < |b.inside|
  }

  /** The invariant every board keeps between operations. */
  ghost predicate WellFormed(b: Board) {
    && b.size >= 1
    && Partitioned(b)
    && Origin in b.inside
    && Compact(b)
  }

  /** A walk through the region: every cell is a region tile and each one
      after the first is one step from the one before it. */
  ghost predicate RegionPath(b: Board, p: seq<Coord>) {
    && |p| >= 1
    && (forall i :: 0 <= i < |p| ==> p[i] in b.inside)
    && (forall i :: 1 <= i < |p| ==> Distance(p[i - 1], p[i]) == 1)
  }

  /** Some walk through the region leads from a cell of `from` to c. */
  ghost predicate LinkedTo(b: Board, from: set<Coord>, c: Coord) {
    exists p :: RegionPath(b, p) && p[0] in from && p[|p| - 1] == c
  }

  /** Every region tile is reached from the corner by a walk through the
      region: the region is one 4-connected piece. */
  ghost predicate Connected(b: Board) {
    forall c :: c in b.inside ==> LinkedTo(b, {Origin}, c)
  }

  /** A witness walk for a link. */
  lemma PathOf(b: Board, from: set<Coord>, c: Coord) returns (p: seq<Coord>)
    requires LinkedTo(b, from, c)
    ensures RegionPath(b, p) && p[0] in from && p[|p| - 1] == c
  {
    p :| RegionPath(b, p) && p[0] in from && p[|p| - 1] == c;
  }

  /** A walk through a region stays one when the region grows. */
  lemma PathGrows(b: Board, r: Board, p: seq<Coord>)
    requires RegionPath(b, p)
    requires r.size == b.size && b.inside.Keys <= r.inside.Keys
    ensures RegionPath(r, p)
  {
  }

  /** Two walks where the second starts at the end of the first join into
      one walk from the start of the first to the end of the second. */
  lemma PathJoin(b: Board, p: seq<Coord>, q: seq<Coord>)
    requires RegionPath(b, p) && RegionPath(b, q) && q[0] == p[|p| - 1]
    ensures RegionPath(b, p + q[1..])
    ensures (p + q[1..])[0] == p[0] && (p + q[1..])[|p + q[1..]| - 1] == q[|q| - 1]
  {
    var w := p + q[1..];
    forall i | 1 <= i < |w| ensures Distance(w[i - 1], w[i]) == 1 {
      if i >= |p| {
        assert w[i] == q[i - |p| + 1] && w[i - 1] == q[i - |p|];
      }
    }
  }

  /** The tile under c, looked up first among the outside tiles and then
      among the inside ones; None where `Board.get` returns null. */
  function Get(b: Board, c: Coord): (r: Option<Tile>)
    ensures r.Some? <==> c in b.inside || c in b.outside
    ensures r.Some? ==> r.value.coord == c
    ensures c in b.outside ==> r.value.color == b.outside[c]
    ensures c in b.inside && c !in b.outside ==> r.value.color == b.inside[c]
  {
    if c in b.outside then Some(Tile(c, b.outside[c]))
    else if c in b.inside then Some(Tile(c, b.inside[c]))
    else None
  }

  /** On a well-formed board every cell has a tile, whichever side of the
      flood line it is on, that tile carries the cell's coordinate, and
      nothing off the board has one. */
  lemma GetFindsEveryCell(b: Board, c: Coord)
    requires WellFormed(b)
    ensures Get(b, c).Some? <==> InGrid(c, b.size)
    ensures c in b.inside ==> Get(b, c) == Some(Tile(c, b.inside[c]))
    ensures c in b.outside ==> Get(b, c) == Some(Tile(c, b.outside[c]))
  {
  }

  /** The board dimension; on a well-formed board its square is the
      number of tiles. */
  function GetSize(b: Board): (r: int)
    ensures WellFormed(b) ==> r >= 1 && r * r == |b.inside| + |b.outside|
  {
    CellCount(b);
    b.size
  }

  /** The two maps together hold size squared tiles. */
  lemma CellCount(b: Board)
    ensures WellFormed(b) ==> |b.inside| + |b.outside| == b.size * b.size
  {
    if WellFormed(b) {
      GridSize(b.size);
      PartitionCoversGrid(b);
      assert |b.inside.Keys + b.outside.Keys| == |b.inside.Keys| + |b.outside.Keys|;
    }
  }

  /** The game is over when nothing is left outside the flooded region; on
      a well-formed board that is the region covering the whole grid. */
  function FullyFlooded(b: Board): (r: bool)
    ensures WellFormed(b) ==> (r <==> b.inside.Keys == Grid(b.size))
  {
    NothingOutsideCoversGrid(b);
    |b.outside| == 0
  }

  /** An empty outside map is the same as the region covering the grid. */
  lemma NothingOutsideCoversGrid(b: Board)
    ensures WellFormed(b) ==> (|b.outside| == 0 <==> b.inside.Keys == Grid(b.size))
  {
    if WellFormed(b) {
      PartitionCoversGrid(b);
      if |b.outside| != 0 {
        var c :| c in b.outside;
        assert c !in b.inside.Keys;
      }
    }
  }

}
