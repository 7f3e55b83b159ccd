/**
 Grid positions of the flooding puzzle: the four unit steps, the board-bounds
 test, and the ordered list of in-grid orthogonal neighbours.

 (0, 0) is the upper-left corner; x grows to the right and y grows downwards.
 Coordinates are unbounded integers here; the 32-bit arithmetic of
 Java's `int` only matters for ordering and hashing (module CoordOrder).
 */
module Geometry {

  datatype Coord = Coord(x: int, y: int)

  /** The upper-left corner of every board. */
  const Origin := Coord(0, 0)

  /** One step north, south, west and east; bounds are not checked. */
  function Up(c: Coord): (r: Coord)
  {
    Coord(c.x, c.y - 1)
  }

  function Down(c: Coord): (r: Coord)
  {
    Coord(c.x, c.y + 1)
  }

  function Left(c: Coord): (r: Coord)
  {
    Coord(c.x - 1, c.y)
  }

  function Right(c: Coord): (r: Coord)
  {
    Coord(c.x + 1, c.y)
  }

  function Abs(v: int): nat { if v < 0 then -v else v }

  /** Manhattan distance; two cells are orthogonally adjacent iff it is 1. */
  function Distance(a: Coord, b: Coord): nat {
    Abs(a.x - b.x) + Abs(a.y - b.y)
  }

  /** The w-by-h rectangle of cells anchored at the origin. */
  function Rect(w: int, h: int): set<Coord> {
    set x, y | 0 <= x < w && 0 <= y < h :: Coord(x, y)
  }

  /** Every cell of a size-by-size board. */
  function Grid(size: int): set<Coord> {
    Rect(size, size)
  }

  /** Board-bounds test as `Coord.onBoard` writes it: a coordinate equal
      to `size` still passes, so it accepts the grid one size larger (see
      InGrid for the intended test). */
  function OnBoard(c: Coord, size: int): (r: bool)
    ensures r <==> InGrid(c, size + 1)
  {
    !(c.x > size || c.y > size || c.x < 0 || c.y < 0)
  }

  /** The intended bounds test. */
  predicate InGrid(c: Coord, size: int) {
    0 <= c.x < size && 0 <= c.y < size
  }

  /** InGrid holds exactly on the size * size cells of the board. */
  lemma InGridIsGrid(size: int)
    ensures forall c :: InGrid(c, size) <==> c in Grid(size)
  {
    forall c | InGrid(c, size) ensures c in Grid(size) {
      assert Coord(c.x, c.y) in Rect(size, size);
    }
  }

  /** Position of a neighbour in the fixed order up, down, left, right. */
  function Heading(c: Coord, n: Coord): nat {
    if n == Up(c) then 0
    else if n == Down(c) then 1
    else if n == Left(c) then 2
    else 3
  }

  /** The orthogonal neighbours of c that lie on a size-by-size board, in
      the order up, down, left, right; empty when c fails OnBoard. */
  function Neighbors(c: Coord, size: int): (r: seq<Coord>)
    ensures !OnBoard(c, size) ==> r == []
    ensures forall i :: 0 <= i < |r| ==> Distance(c, r[i]) == 1
  {
    if !OnBoard(c, size) then []
    else
      (if c.y > 0 then [Up(c)] else [])
      + (if c.y < size - 1 then [Down(c)] else [])
      + (if c.x > 0 then [Left(c)] else [])
      + (if c.x < size - 1 then [Right(c)] else [])
  }

  /** The singleton [n] when the guard holds, otherwise nothing. */
  function Keep(guard: bool, n: Coord): seq<Coord> {
    if guard then [n] else []
  }

  /** Neighbors of an on-board cell as a right-nested list of guarded
      singletons. */
  lemma NeighborsNested(c: Coord, size: int)
    requires OnBoard(c, size)
    ensures Neighbors(c, size) ==
              Keep(c.y > 0, Up(c)) + (Keep(c.y < size - 1, Down(c))
              + (Keep(c.x > 0, Left(c)) + Keep(c.x < size - 1, Right(c))))
  {
    var u, d, l, r := Keep(c.y > 0, Up(c)), Keep(c.y < size - 1, Down(c)),
                      Keep(c.x > 0, Left(c)), Keep(c.x < size - 1, Right(c));
    assert u + d + l + r == u + (d + (l + r));
  }

  /** Membership in a guarded singleton followed by more cells. */
  lemma InKeep(g: bool, n: Coord, s: seq<Coord>, m: Coord)
    ensures m in Keep(g, n) + s <==> (g && m == n) || m in s
  {
    if g {
      assert Keep(g, n) + s == [n] + s;
    } else {
      assert Keep(g, n) + s == s;
    }
  }

  /** Each of the four candidates is kept exactly under its own guard. */
  lemma NeighborsGuards(c: Coord, size: int)
    requires OnBoard(c, size)
    ensures Up(c) in Neighbors(c, size) <==> c.y > 0
    ensures Down(c) in Neighbors(c, size) <==> c.y < size - 1
    ensures Left(c) in Neighbors(c, size) <==> c.x > 0
    ensures Right(c) in Neighbors(c, size) <==> c.x < size - 1
  {
    NeighborsNested(c, size);
    Distinct(c);
    var r := Keep(c.x < size - 1, Right(c));
    var lr := Keep(c.x > 0, Left(c)) + r;
    var dlr := Keep(c.y < size - 1, Down(c)) + lr;
    forall m | m == Up(c) || m == Down(c) || m == Left(c) || m == Right(c)
      ensures m in Neighbors(c, size) <==>
                (c.y > 0 && m == Up(c)) || (c.y < size - 1 && m == Down(c))
                || (c.x > 0 && m == Left(c)) || (c.x < size - 1 && m == Right(c))
    {
      InKeep(c.y > 0, Up(c), dlr, m);
      InKeep(c.y < size - 1, Down(c), lr, m);
      InKeep(c.x > 0, Left(c), r, m);
      InKeep(c.x < size - 1, Right(c), [], m);
      assert Keep(c.x < size - 1, Right(c)) + [] == r;
    }
  }

  /** Nothing but the four unit steps is ever listed. */
  lemma NeighborsAreSteps(c: Coord, size: int)
    ensures forall n :: n in Neighbors(c, size) ==> n == Up(c) || n == Down(c) || n == Left(c) || n == Right(c)
  {
    if OnBoard(c, size) {
      NeighborsNested(c, size);
      var r := Keep(c.x < size - 1, Right(c));
      var lr := Keep(c.x > 0, Left(c)) + r;
      var dlr := Keep(c.y < size - 1, Down(c)) + lr;
      forall m | m in Neighbors(c, size)
        ensures m == Up(c) || m == Down(c) || m == Left(c) || m == Right(c)
      {
        InKeep(c.y > 0, Up(c), dlr, m);
        InKeep(c.y < size - 1, Down(c), lr, m);
        InKeep(c.x > 0, Left(c), r, m);
        InKeep(c.x < size - 1, Right(c), [], m);
        assert Keep(c.x < size - 1, Right(c)) + [] == r;
      }
    }
  }

  /** The four unit steps lead to four different cells. */
  lemma Distinct(c: Coord)
    ensures Up(c) != Down(c) && Up(c) != Left(c) && Up(c) != Right(c)
    ensures Down(c) != Left(c) && Down(c) != Right(c) && Left(c) != Right(c)
  {
  }

  /** Headings strictly increase along s. */
  predicate Ascending(c: Coord, s: seq<Coord>) {
    forall i, j :: 0 <= i < j < |s| ==> Heading(c, s[i]) < Heading(c, s[j])
  }

  /** Every heading along s is above h. */
  predicate Above(c: Coord, s: seq<Coord>, h: int) {
    forall i :: 0 <= i < |s| ==> Heading(c, s[i]) > h
  }

  /** Putting a guarded candidate in front of a list whose headings all
      lie above the candidate's keeps the list ascending. */
  lemma KeepAscending(c: Coord, g: bool, n: Coord, s: seq<Coord>)
    requires Ascending(c, s) && Above(c, s, Heading(c, n))
    ensures Ascending(c, Keep(g, n) + s)
    ensures Above(c, Keep(g, n) + s, Heading(c, n) - 1)
  {
    if g {
      var t := Keep(g, n) + s;
      assert t == [n] + s;
      forall i, j | 0 <= i < j < |t| ensures Heading(c, t[i]) < Heading(c, t[j]) {
        if i > 0 {
          assert t[i] == s[i - 1] && t[j] == s[j - 1];
        } else {
          assert t[j] == s[j - 1];
        }
      }
    } else {
      assert Keep(g, n) + s == s;
    }
  }

  /** The neighbours come in the order up, down, left, right, each at most once. */
  lemma NeighborsOrdered(c: Coord, size: int)
    ensures forall i, j :: 0 <= i < j < |Neighbors(c, size)| ==>
              Heading(c, Neighbors(c, size)[i]) < Heading(c, Neighbors(c, size)[j])
    ensures forall i, j :: 0 <= i < j < |Neighbors(c, size)| ==>
              Neighbors(c, size)[i] != Neighbors(c, size)[j]
  {
    if OnBoard(c, size) {
      NeighborsNested(c, size);
      Distinct(c);
      assert Heading(c, Up(c)) == 0 && Heading(c, Down(c)) == 1;
      assert Heading(c, Left(c)) == 2 && Heading(c, Right(c)) == 3;
      var e: seq<Coord> := [];
      KeepAscending(c, c.x < size - 1, Right(c), e);
      var r := Keep(c.x < size - 1, Right(c)) + e;
      assert r == Keep(c.x < size - 1, Right(c));
      KeepAscending(c, c.x > 0, Left(c), r);
      var lr := Keep(c.x > 0, Left(c)) + r;
      KeepAscending(c, c.y < size - 1, Down(c), lr);
      var dlr := Keep(c.y < size - 1, Down(c)) + lr;
      KeepAscending(c, c.y > 0, Up(c), dlr);
    }
  }

  /** For a cell on the board the neighbours are exactly the adjacent cells
      on the board. */
  lemma NeighborsInGrid(c: Coord, size: int)
    requires InGrid(c, size)
    ensures forall n :: n in Neighbors(c, size) <==> InGrid(n, size) && Distance(c, n) == 1
  {
    NeighborsGuards(c, size);
    NeighborsAreSteps(c, size);
    forall n | Distance(c, n) == 1
      ensures n == Up(c) || n == Down(c) || n == Left(c) || n == Right(c)
    {
      UnitDistanceIsStep(c, n);
    }
  }

  /** A cell at distance 1 is one of the four unit steps. */
  lemma UnitDistanceIsStep(c: Coord, n: Coord)
    requires Distance(c, n) == 1
    ensures n == Up(c) || n == Down(c) || n == Left(c) || n == Right(c)
  {
    if n.x == c.x {
      assert n.y == c.y - 1 || n.y == c.y + 1;
    } else {
      assert n.y == c.y;
    }
  }

  /** Each step moves exactly one cell, in its own direction (y grows
      downwards); Up and Down undo each other, as do Left and Right. */
  lemma StepsAreUnitMoves(c: Coord)
    ensures Up(c).x == c.x && Up(c).y < c.y && Down(c).x == c.x && Down(c).y > c.y
    ensures Left(c).y == c.y && Left(c).x < c.x && Right(c).y == c.y && Right(c).x > c.x
    ensures Down(Up(c)) == c && Up(Down(c)) == c
    ensures Right(Left(c)) == c && Left(Right(c)) == c
    ensures Distance(c, Up(c)) == 1 && Distance(c, Down(c)) == 1
    ensures Distance(c, Left(c)) == 1 && Distance(c, Right(c)) == 1
    ensures Up(c) != Down(c) && Left(c) != Right(c) && Up(c) != Left(c)
  {
  }

  /** Adjacency is symmetric for cells on the board. */
  lemma NeighborsSymmetric(a: Coord, b: Coord, size: int)
    requires InGrid(a, size) && InGrid(b, size)
    ensures b in Neighbors(a, size) <==> a in Neighbors(b, size)
  {
    NeighborsInGrid(a, size);
    NeighborsInGrid(b, size);
    assert Distance(a, b) == Distance(b, a);
  }

  predicate OnVerticalBorder(c: Coord, size: int) { c.x == 0 || c.x == size - 1 }
  predicate OnHorizontalBorder(c: Coord, size: int) { c.y == 0 || c.y == size - 1 }

  /** A corner has two neighbours, any other border cell three and an
      interior cell four, on every board with at least two rows. */
  lemma NeighborCount(c: Coord, size: int)
    requires size >= 2 && InGrid(c, size)
    ensures OnVerticalBorder(c, size) && OnHorizontalBorder(c, size) ==> |Neighbors(c, size)| == 2
    ensures OnVerticalBorder(c, size) != OnHorizontalBorder(c, size) ==> |Neighbors(c, size)| == 3
    ensures !OnVerticalBorder(c, size) && !OnHorizontalBorder(c, size) ==> |Neighbors(c, size)| == 4
  {
  }

  /** The single cell of a 1-by-1 board has no neighbours. */
  lemma LoneCellHasNoNeighbors()
    ensures Neighbors(Origin, 1) == []
  {
  }

  /** The worked examples on a 3-by-3 board. */
  lemma NeighborExamples()
    ensures Neighbors(Coord(1, 1), 3) == [Coord(1, 0), Coord(1, 2), Coord(0, 1), Coord(2, 1)]
    ensures Neighbors(Origin, 3) == [Coord(0, 1), Coord(1, 0)]
  {
  }

  /** The bounds test as written accepts the column and the row just past
      the board, so Neighbors of such a cell reaches further off the board. */
  lemma OnBoardAdmitsOffGridCells(size: int)
    requires size >= 2
    ensures OnBoard(Coord(size, 0), size) && !InGrid(Coord(size, 0), size)
    ensures OnBoard(Coord(0, size), size) && !InGrid(Coord(0, size), size)
    ensures Coord(size, 1) in Neighbors(Coord(size, 0), size) && !InGrid(Coord(size, 1), size)
  {
  }

  /** On the board itself the two bounds tests agree, so every Neighbors
      call made by the board engine sees the intended test. */
  lemma OnBoardAgreesInGrid(c: Coord, size: int)
    requires InGrid(c, size)
    ensures OnBoard(c, size)
  {
  }

  /** A size-by-size board has size * size cells. */
  lemma GridSize(size: nat)
    ensures |Grid(size)| == size * size
  {
    RectSize(size, size);
  }

  lemma {:induction false} RectSize(w: nat, h: nat)
    ensures |Rect(w, h)| == w * h
  {
    if h > 0 {
      RectSplit(w, h - 1);
      RectSize(w, h - 1);
      RowSize(w, h - 1);
      assert w * h == w * (h - 1) + w;
    }
  }

  /** Adding row y to the first y rows gives the first y + 1 rows. */
  lemma RectSplit(w: nat, y: nat)
    ensures Rect(w, y + 1) == Rect(w, y) + Row(w, y)
    ensures Rect(w, y) !! Row(w, y)
  {
    forall c | c in Rect(w, y + 1) ensures c in Rect(w, y) + Row(w, y) {
      if c.y < y {
        assert Coord(c.x, c.y) in Rect(w, y);
      } else {
        assert Coord(c.x, c.y) in Row(w, y);
      }
    }
    forall c | c in Rect(w, y) + Row(w, y) ensures c in Rect(w, y + 1) {
      assert Coord(c.x, c.y) in Rect(w, y + 1);
    }
  }

  function Row(w: int, y: int): set<Coord> {
    set x | 0 <= x < w :: Coord(x, y)
  }

  lemma {:induction false} RowSize(w: nat, y: int)
    ensures |Row(w, y)| == w
  {
    if w > 0 {
      assert Row(w, y) == Row(w - 1, y) + {Coord(w - 1, y)};
      RowSize(w - 1, y);
    }
  }

}
