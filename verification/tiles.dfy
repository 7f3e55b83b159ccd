/** The five water colours and the tiles that carry them. */
module Tiles {

  import opened Geometry

  datatype WaterColor = Blue | Cyan | Pink | Red | Yellow

  /** One cell of the board: its coordinate, fixed when the tile is made,
      and its current colour. */
  datatype Tile = Tile(coord: Coord, color: WaterColor)

}
